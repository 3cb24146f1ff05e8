/** Sequences of calls on any number of open files of one device, under either allocation policy. The
    driver's device, with its one block, fill counter and int-sized arithmetic, is compared with a plain
    file: a byte string, the bytes kept beyond its end, and unbounded offsets. */
module FileRuns {
  import opened CInt
  import opened Options
  import opened DeviceSpec

  /** Read and write use the file's own offset; ReadAt and WriteAt (pread, pwrite) are handed one and
      leave the file's alone. */
  datatype Op =
    | Open(file: nat, flags: Flags, grant: Option<seq<byte>>)
    | Close(file: nat)
    | Read(file: nat, count: int)
    | Write(file: nat, data: seq<byte>)
    | ReadAt(file: nat, count: int, pos: int)
    | WriteAt(file: nat, data: seq<byte>, pos: int)
    | Seek(file: nat, off: int, whence: Whence)

  datatype Out =
    | Opened(ok: bool)
    | Closed
    | Got(data: seq<byte>)
    | Wrote(n: Option<int>)
    | At(pos: Option<int>)

  /** The driver: one device and the offset of each open file. */
  datatype Sys = Sys(dev: Dev, fpos: map<nat, int>)

  /** The plain file: what is in it, what a gap would show, the shared append flag, the offsets. */
  datatype Plain = Plain(content: seq<byte>, beyond: seq<byte>, append: bool, fpos: map<nat, int>)

  /** What the kernel checks before it calls the driver. */
  predicate Callable(fpos: map<nat, int>, len: int, op: Op) {
    match op
    case Open(f, _, grant) => f !in fpos && (grant.Some? ==> |grant.value| == len)
    case Close(f) => f in fpos
    case Read(f, count) => f in fpos && Position(fpos[f], count)
    case Write(f, data) => f in fpos && Position(fpos[f], |data|)
    case ReadAt(f, count, pos) => f in fpos && Position(pos, count)
    case WriteAt(f, data, pos) => f in fpos && Position(pos, |data|)
    case Seek(f, off, _) => f in fpos && -TWO_63 <= off < TWO_63
  }

  function Succeeds(d: Dev, f: Flags): bool {
    d.block.Some? && Unavailable(d.counter, f) == 0
  }

  /** CDD_write's answer for a position handed to it. */
  function WriteAnswer(d: Dev, pos: int, data: seq<byte>): Option<int> {
    if InBuffer(WritePos(d, pos), |data|, d.allocLen) then Some(|data|) else None
  }

  /** CDD_open after its allocation. A file whose open does not succeed stays closed. */
  function Proceed(s: Sys, f: nat, flags: Flags): (Sys, Out) {
    var ok := Succeeds(s.dev, flags);
    (Sys(if s.dev.block.None? then s.dev else WaitSection(s.dev, flags), if ok then s.fpos[f := 0] else s.fpos), Opened(ok))
  }

  function DriverStep(policy: Policy, s: Sys, op: Op): (Sys, Out)
    requires !op.Open? ==> op.file in s.fpos
  {
    match op
    case Open(f, flags, grant) =>
      Proceed(s.(dev := AllocStep(policy, s.dev, grant)), f, flags)
    case Close(f) => (s.(fpos := s.fpos - {f}), Closed)
    case Read(f, count) =>
      var data := ReadSlice(s.dev, s.fpos[f], count);
      (s.(fpos := s.fpos[f := s.fpos[f] + |data|]), Got(data))
    case Write(f, data) =>
      var n := WriteAnswer(s.dev, s.fpos[f], data);
      (Sys(WriteSection(s.dev, s.fpos[f], data), if n.Some? then s.fpos[f := s.fpos[f] + |data|] else s.fpos), Wrote(n))
    case ReadAt(f, count, pos) => (s, Got(ReadSlice(s.dev, pos, count)))
    case WriteAt(f, data, pos) => (s.(dev := WriteSection(s.dev, pos, data)), Wrote(WriteAnswer(s.dev, pos, data)))
    case Seek(f, off, whence) =>
      var r := SeekResult(whence, s.fpos[f], off, s.dev.counter);
      (if r.Some? then s.(fpos := s.fpos[f := r.value]) else s, At(r))
  }

  // -------------------------------------------------------- the plain file

  function PlainOpen(p: Plain, f: nat, flags: Flags, grant: Option<seq<byte>>): (Plain, Out) {
    var q := if p.content + p.beyond == [] && grant.Some? then p.(beyond := grant.value) else p;
    var all := q.content + q.beyond;
    if all == [] || (!flags.writable && (q.content == [] || flags.trunc)) then (q, Opened(false))
    else if flags.trunc then (Plain([], [0] + all[1..], flags.append, q.fpos[f := 0]), Opened(true))
    else (q.(append := flags.append, fpos := q.fpos[f := 0]), Opened(true))
  }

  function PlainGet(p: Plain, pos: nat, count: nat): seq<byte> {
    var from := Min(pos, |p.content|);
    p.content[from..Min(from + count, |p.content|)]
  }

  function PlainPut(p: Plain, pos: nat, data: seq<byte>): (Plain, Option<int>) {
    var at := if p.append then |p.content| else pos;
    var all := p.content + p.beyond;
    if at + |data| > |all| then (p, None)
    else
      var new' := all[..at] + data + all[at + |data|..];
      var n := Max(|p.content|, at + |data|);
      (p.(content := new'[..n], beyond := new'[n..]), Some(|data|))
  }

  function PlainStep(p: Plain, op: Op): (Plain, Out)
    requires !op.Open? ==> op.file in p.fpos
    requires match op
      case Read(f, count) => 0 <= p.fpos[f] && 0 <= count
      case Write(f, _) => 0 <= p.fpos[f]
      case ReadAt(_, count, pos) => 0 <= pos && 0 <= count
      case WriteAt(_, _, pos) => 0 <= pos
      case _ => true
  {
    match op
    case Open(f, flags, grant) => PlainOpen(p, f, flags, grant)
    case Close(f) => (p.(fpos := p.fpos - {f}), Closed)
    case Read(f, count) =>
      var data := PlainGet(p, p.fpos[f], count);
      (p.(fpos := p.fpos[f := p.fpos[f] + |data|]), Got(data))
    case Write(f, data) =>
      var (q, n) := PlainPut(p, p.fpos[f], data);
      (if n.Some? then q.(fpos := p.fpos[f := p.fpos[f] + |data|]) else q, Wrote(n))
    case ReadAt(f, count, pos) => (p, Got(PlainGet(p, pos, count)))
    case WriteAt(f, data, pos) =>
      var (q, n) := PlainPut(p, pos, data);
      (q, Wrote(n))
    case Seek(f, off, whence) =>
      var r := PlainSeek(whence, p.fpos[f], off, |p.content|);
      (if r.Some? then p.(fpos := p.fpos[f := r.value]) else p, At(r))
  }

  function View(s: Sys): Plain {
    var b := if s.dev.block.Some? then s.dev.block.value else [];
    if 0 <= s.dev.counter <= |b| then Plain(b[..s.dev.counter], b[s.dev.counter..], s.dev.append, s.fpos)
    else Plain([], [], s.dev.append, s.fpos)
  }

  // ------------------------------------------------------- the refinement

  /** The states of the driver: counter inside the block, no offset negative, and no file open before
      there is a block. */
  ghost predicate SysInv(s: Sys, len: int) {
    && Sound(s.dev, len)
    && (s.dev.block.None? ==> s.dev.allocLen == 0)
    && (s.fpos != map[] ==> s.dev.block.Some?)
    && (forall f | f in s.fpos :: 0 <= s.fpos[f])
  }

  /** A write whose position does not fit in `int`, but whose low 32 bits name a place in the buffer. */
  predicate PutWraps(d: Dev, pos: int, data: seq<byte>) {
    !d.append && !FitsInt(pos) && InBuffer(ToInt(pos), |data|, d.allocLen)
  }

  /** An open that exchanges the device's block for another whose bytes differ: any of them, or all but
      the first if the open clears that one. Line 226 as written does this, and drops the block when the
      allocator refuses. */
  predicate Replaces(policy: Policy, d: Dev, flags: Flags, grant: Option<seq<byte>>) {
    policy.EveryOpen? && d.block.Some? && |d.block.value| > 0 &&
    (grant.Some? && |grant.value| == |d.block.value| ==>
       if flags.trunc && flags.writable then grant.value[1..] != d.block.value[1..] else grant != d.block)
  }

  /** The same for a seek. */
  predicate SeekWraps(whence: Whence, fpos: int, off: int, counter: int) {
    var sum := SeekBase(whence, fpos, counter) + off;
    !whence.SeekOther? && !FitsInt(sum) && 0 <= ToInt(sum) <= counter
  }

  /** The calls on which the driver and the plain file part. */
  predicate Departs(policy: Policy, s: Sys, op: Op)
    requires !op.Open? ==> op.file in s.fpos
  {
    match op
    case Open(_, flags, grant) => Replaces(policy, s.dev, flags, grant)
    case Write(f, data) => PutWraps(s.dev, s.fpos[f], data)
    case WriteAt(_, data, pos) => PutWraps(s.dev, pos, data)
    case Seek(f, off, whence) => SeekWraps(whence, s.fpos[f], off, s.dev.counter)
    case _ => false
  }

  lemma AllocRefines(s: Sys, grant: Option<seq<byte>>, len: int)
    requires SysInv(s, len) && (grant.Some? ==> |grant.value| == len)
    ensures var s' := s.(dev := AllocStep(FirstUse, s.dev, grant));
            var p := View(s);
            && SysInv(s', len)
            && View(s') == (if p.content + p.beyond == [] && grant.Some? then p.(beyond := grant.value) else p)
            && (s'.dev.block.Some? <==> View(s').content + View(s').beyond != [])
  {
    var p := View(s);
    if s.dev.block.Some? {
      assert p.content + p.beyond == s.dev.block.value;
    }
  }

  lemma CommitRefines(s: Sys, f: nat, flags: Flags, len: int)
    requires SysInv(s, len) && s.dev.block.Some? && Unavailable(s.dev.counter, flags) == 0
    ensures var s' := Sys(Commit(s.dev, flags), s.fpos[f := 0]);
            var p := View(s);
            && SysInv(s', len)
            && View(s') == if flags.trunc then Plain([], [0] + (p.content + p.beyond)[1..], flags.append, p.fpos[f := 0])
                           else p.(append := flags.append, fpos := p.fpos[f := 0])
  {
    var p, b := View(s), s.dev.block.value;
    assert p.content + p.beyond == b;
    assert b[0 := 0] == [0] + b[1..];
    assert b[0 := 0][..0] == [] && b[0 := 0][0..] == b[0 := 0];
  }

  lemma FirstUseOpenRefines(s: Sys, f: nat, flags: Flags, grant: Option<seq<byte>>, len: int)
    requires SysInv(s, len) && Callable(s.fpos, len, Open(f, flags, grant))
    ensures var (s', o) := DriverStep(FirstUse, s, Open(f, flags, grant));
            SysInv(s', len) && PlainOpen(View(s), f, flags, grant) == (View(s'), o)
  {
    AllocRefines(s, grant, len);
    var s1 := s.(dev := AllocStep(FirstUse, s.dev, grant));
    if Succeeds(s1.dev, flags) {
      CommitRefines(s1, f, flags, len);
    }
  }

  /** Two states with blocks look alike exactly if they hold the same bytes, split at the same place. */
  lemma ViewShowsBlock(s: Sys, len: int)
    requires Sound(s.dev, len)
    ensures View(s).content + View(s).beyond == if s.dev.block.Some? then s.dev.block.value else []
  {
  }

  /** The open of line 226 as written, when the allocator grants a block: it goes on with the granted bytes
      where reuse goes on with the old ones. */
  lemma ExchangedBlock(s: Sys, f: nat, flags: Flags, g: seq<byte>, len: int)
    requires Sound(s.dev, len) && s.dev.block.Some? && |g| == len
    ensures var t := s.(dev := s.dev.(block := Some(g)));
            var (s0, s1) := (Proceed(s, f, flags).0, Proceed(t, f, flags).0);
            && Sound(s0.dev, len) && Sound(s1.dev, len) && Proceed(s, f, flags).1 == Proceed(t, f, flags).1
            && s1 == s0.(dev := s0.dev.(block := s1.dev.block))
            && (s1.dev.block == s0.dev.block <==> if flags.trunc && flags.writable then g[1..] == s.dev.block.value[1..] else g == s.dev.block.value)
  {
    var b := s.dev.block.value;
    assert b[0 := 0] == [0] + b[1..] && g[0 := 0] == [0] + g[1..];
    assert ([0] + b[1..])[1..] == b[1..] && ([0] + g[1..])[1..] == g[1..];
  }

  lemma ReallocatingOpen(s: Sys, f: nat, flags: Flags, grant: Option<seq<byte>>, len: int)
    requires SysInv(s, len) && s.dev.block.Some? && (grant.Some? ==> |grant.value| == len)
    ensures var (s0, o0) := DriverStep(FirstUse, s, Open(f, flags, grant));
            var (s1, o1) := DriverStep(EveryOpen, s, Open(f, flags, grant));
            ((View(s1), o1) == (View(s0), o0) <==> !Replaces(EveryOpen, s.dev, flags, grant))
            && (!Replaces(EveryOpen, s.dev, flags, grant) ==> s1 == s0)
  {
    var s0 := DriverStep(FirstUse, s, Open(f, flags, grant)).0;
    var s1 := DriverStep(EveryOpen, s, Open(f, flags, grant)).0;
    assert s0 == Proceed(s, f, flags).0;
    ViewShowsBlock(s0, len);
    ViewShowsBlock(s1, len);
    if grant.Some? {
      ExchangedBlock(s, f, flags, grant.value, len);
      assert s1 == Proceed(s.(dev := s.dev.(block := grant)), f, flags).0;
    }
  }

  lemma OpenRefinesIff(policy: Policy, s: Sys, f: nat, flags: Flags, grant: Option<seq<byte>>, len: int)
    requires SysInv(s, len) && Callable(s.fpos, len, Open(f, flags, grant))
    ensures var (s', o) := DriverStep(policy, s, Open(f, flags, grant));
            && (PlainOpen(View(s), f, flags, grant) == (View(s'), o) <==> !Replaces(policy, s.dev, flags, grant))
            && (!Replaces(policy, s.dev, flags, grant) ==> SysInv(s', len))
  {
    FirstUseOpenRefines(s, f, flags, grant, len);
    if policy.EveryOpen? && s.dev.block.Some? {
      ReallocatingOpen(s, f, flags, grant, len);
    }
  }

  lemma PutRefinesIff(s: Sys, pos: int, data: seq<byte>, len: int)
    requires SysInv(s, len) && s.dev.block.Some? && 0 <= pos
    ensures var s' := s.(dev := WriteSection(s.dev, pos, data));
            && SysInv(s', len)
            && (PlainPut(View(s), pos, data) == (View(s'), WriteAnswer(s.dev, pos, data)) <==> !PutWraps(s.dev, pos, data))
            && (PutWraps(s.dev, pos, data) ==> PlainPut(View(s), pos, data).1 == None && WriteAnswer(s.dev, pos, data).Some?)
  {
    var p := View(s);
    var b := s.dev.block.value;
    assert p.content + p.beyond == b;
    var at := WritePos(s.dev, pos);
    if InBuffer(at, |data|, len) && !PutWraps(s.dev, pos, data) {
      var b' := b[..at] + data + b[at + |data|..];
      assert Overwrite(s.dev.block, at, data) == Some(b');
    }
  }

  lemma GetRefines(s: Sys, pos: int, count: int, len: int)
    requires SysInv(s, len) && s.dev.block.Some? && 0 <= pos && 0 <= count
    ensures PlainGet(View(s), pos, count) == ReadSlice(s.dev, pos, count)
  {
  }

  lemma OffsetsRefine(s: Sys, fpos: map<nat, int>, len: int)
    requires SysInv(s, len) && s.dev.block.Some? && forall f | f in fpos :: 0 <= fpos[f]
    ensures SysInv(s.(fpos := fpos), len) && View(s.(fpos := fpos)) == View(s).(fpos := fpos)
  {
  }

  lemma SeekAnswers(whence: Whence, fpos: int, off: int, counter: int)
    requires 0 <= counter < TWO_31
    ensures var r := SeekResult(whence, fpos, off, counter);
            && (r.Some? ==> 0 <= r.value)
            && (r == PlainSeek(whence, fpos, off, counter) <==> !SeekWraps(whence, fpos, off, counter))
  {
    SeekExact(whence, fpos, off, counter);
  }

  lemma SeekRefinesIff(policy: Policy, s: Sys, f: nat, off: int, whence: Whence, len: int)
    requires SysInv(s, len) && Callable(s.fpos, len, Seek(f, off, whence))
    ensures var op := Seek(f, off, whence);
            var (s', o) := DriverStep(policy, s, op);
            SysInv(s', len) && (PlainStep(View(s), op) == (View(s'), o) <==> !Departs(policy, s, op))
  {
    SeekAnswers(whence, s.fpos[f], off, s.dev.counter);
    var r := SeekResult(whence, s.fpos[f], off, s.dev.counter);
    if r.Some? {
      OffsetsRefine(s, s.fpos[f := r.value], len);
    }
  }

  lemma CloseRefines(policy: Policy, s: Sys, f: nat, len: int)
    requires SysInv(s, len) && f in s.fpos
    ensures var (s', o) := DriverStep(policy, s, Close(f));
            SysInv(s', len) && PlainStep(View(s), Close(f)) == (View(s'), o)
  {
    OffsetsRefine(s, s.fpos - {f}, len);
  }

  lemma ReadRefines(policy: Policy, s: Sys, op: Op, len: int)
    requires SysInv(s, len) && Callable(s.fpos, len, op) && (op.Read? || op.ReadAt?)
    ensures var (s', o) := DriverStep(policy, s, op);
            SysInv(s', len) && PlainStep(View(s), op) == (View(s'), o)
  {
    if op.Read? {
      GetRefines(s, s.fpos[op.file], op.count, len);
      OffsetsRefine(s, s.fpos[op.file := s.fpos[op.file] + |ReadSlice(s.dev, s.fpos[op.file], op.count)|], len);
    } else {
      GetRefines(s, op.pos, op.count, len);
    }
  }

  lemma WriteRefinesIff(policy: Policy, s: Sys, f: nat, data: seq<byte>, len: int)
    requires SysInv(s, len) && Callable(s.fpos, len, Write(f, data))
    ensures var op := Write(f, data);
            var (s', o) := DriverStep(policy, s, op);
            SysInv(s', len) && (PlainStep(View(s), op) == (View(s'), o) <==> !PutWraps(s.dev, s.fpos[f], data))
  {
    PutRefinesIff(s, s.fpos[f], data, len);
    OffsetsRefine(s.(dev := WriteSection(s.dev, s.fpos[f], data)), s.fpos[f := s.fpos[f] + |data|], len);
  }

  /** One call answers and acts like the plain file exactly when it does not depart: no position wraps,
      and no open exchanges the block for different bytes. */
  lemma StepRefinesIff(policy: Policy, s: Sys, op: Op, len: int)
    requires SysInv(s, len) && Callable(s.fpos, len, op)
    ensures var (s', o) := DriverStep(policy, s, op);
            && (PlainStep(View(s), op) == (View(s'), o) <==> !Departs(policy, s, op))
            && (!Departs(policy, s, op) ==> SysInv(s', len))
  {
    match op
    case Open(f, flags, grant) => OpenRefinesIff(policy, s, f, flags, grant, len);
    case Close(f) => CloseRefines(policy, s, f, len);
    case Read(_, _) => ReadRefines(policy, s, op, len);
    case Write(f, data) => WriteRefinesIff(policy, s, f, data, len);
    case ReadAt(_, _, _) => ReadRefines(policy, s, op, len);
    case WriteAt(f, data, pos) => PutRefinesIff(s, pos, data, len);
    case Seek(f, off, whence) => SeekRefinesIff(policy, s, f, off, whence, len);
  }

  /** A sequence of calls, with the answers; None if the kernel would not make one of them. */
  function DriverRun(policy: Policy, s: Sys, len: int, ops: seq<Op>): Option<(Sys, seq<Out>)>
    decreases |ops|
  {
    if ops == [] then Some((s, []))
    else if !Callable(s.fpos, len, ops[0]) then None
    else
      var (s', o) := DriverStep(policy, s, ops[0]);
      match DriverRun(policy, s', len, ops[1..])
      case None => None
      case Some((t, outs)) => Some((t, [o] + outs))
  }

  function PlainRun(p: Plain, len: int, ops: seq<Op>): Option<(Plain, seq<Out>)>
    decreases |ops|
  {
    if ops == [] then Some((p, []))
    else if !Callable(p.fpos, len, ops[0]) then None
    else
      var (p', o) := PlainStep(p, ops[0]);
      match PlainRun(p', len, ops[1..])
      case None => None
      case Some((q, outs)) => Some((q, [o] + outs))
  }

  ghost predicate NeverDeparts(policy: Policy, s: Sys, len: int, ops: seq<Op>)
    decreases |ops|
  {
    ops != [] && Callable(s.fpos, len, ops[0]) ==>
      !Departs(policy, s, ops[0]) && NeverDeparts(policy, DriverStep(policy, s, ops[0]).0, len, ops[1..])
  }

  /** Every sequence of calls on any number of files, under either policy, gives the answers of the plain
      file and ends in its state, as long as no call departs. */
  lemma {:induction false} RunRefines(policy: Policy, s: Sys, len: int, ops: seq<Op>)
    requires SysInv(s, len) && NeverDeparts(policy, s, len, ops)
    ensures match DriverRun(policy, s, len, ops)
            case Some((s', outs)) => SysInv(s', len) && PlainRun(View(s), len, ops) == Some((View(s'), outs))
            case None => PlainRun(View(s), len, ops) == None
    decreases |ops|
  {
    if ops != [] && Callable(s.fpos, len, ops[0]) {
      StepRefinesIff(policy, s, ops[0], len);
      RunRefines(policy, DriverStep(policy, s, ops[0]).0, len, ops[1..]);
    }
  }

  /** No file has been overtaken by a truncation. */
  ghost predicate Inside(s: Sys) {
    forall f | f in s.fpos :: 0 <= s.fpos[f] <= s.dev.counter
  }

  /** A call that truncates nothing away from an open file, exchanges no bytes of the block, and names a
      position, or seeks by an amount, that fits in int (with any position in the device). */
  predicate Gentle(policy: Policy, s: Sys, len: int, op: Op) {
    match op
    case Open(_, flags, grant) => (flags.trunc ==> s.fpos == map[]) && !Replaces(policy, s.dev, flags, grant)
    case WriteAt(_, _, pos) => FitsInt(pos)
    case Seek(_, off, _) => -TWO_31 <= off < TWO_31 - len
    case _ => true
  }

  ghost predicate AllGentle(policy: Policy, s: Sys, len: int, ops: seq<Op>)
    decreases |ops|
  {
    ops != [] && Callable(s.fpos, len, ops[0]) ==>
      Gentle(policy, s, len, ops[0]) && AllGentle(policy, DriverStep(policy, s, ops[0]).0, len, ops[1..])
  }

  lemma GentleStaysInside(policy: Policy, s: Sys, op: Op, len: int)
    requires SysInv(s, len) && Inside(s) && Callable(s.fpos, len, op) && Gentle(policy, s, len, op)
    ensures Inside(DriverStep(policy, s, op).0) && !Departs(policy, s, op)
  {
  }

  /** In a run of such calls offsets never leave [0, counter], in offset mode and in append mode alike, so
      nothing wraps and the refinement needs no further condition. */
  lemma {:induction false} GentleRunRefines(policy: Policy, s: Sys, len: int, ops: seq<Op>)
    requires SysInv(s, len) && Inside(s) && AllGentle(policy, s, len, ops)
    ensures NeverDeparts(policy, s, len, ops)
    ensures match DriverRun(policy, s, len, ops)
            case Some((s', outs)) => Inside(s') && PlainRun(View(s), len, ops) == Some((View(s'), outs))
            case None => PlainRun(View(s), len, ops) == None
    decreases |ops|
  {
    if ops != [] && Callable(s.fpos, len, ops[0]) {
      GentleStaysInside(policy, s, ops[0], len);
      StepRefinesIff(policy, s, ops[0], len);
      GentleRunRefines(policy, DriverStep(policy, s, ops[0]).0, len, ops[1..]);
    }
  }

  /** Offset 2^32 handed to a write that the buffer could hold: the driver writes at byte 0, where the
      plain file refuses. */
  lemma WriteWrapsAtTwo32(policy: Policy, s: Sys, f: nat, data: seq<byte>, len: int)
    requires SysInv(s, len) && f in s.fpos && !s.dev.append && |data| <= len
    ensures var op := WriteAt(f, data, TWO_32);
            var (s', o) := DriverStep(policy, s, op);
            && PlainStep(View(s), op) == (View(s), Wrote(None))
            && o == Wrote(Some(|data|)) && s'.dev.block == Some(data + s.dev.block.value[|data|..])
  {
    var b := s.dev.block.value;
    assert View(s).content + View(s).beyond == b;
    assert b[..0] + data + b[|data|..] == data + b[|data|..];
  }

  /** Truncation lets an offset run ahead of the content. If another file truncates the device and f then
      writes at its old offset p, the gap below p shows the memory behind it, the first byte cleared: what
      was there before, or under line 226 as written whatever the new block holds. */
  lemma TruncationOpensAGap(policy: Policy, s: Sys, f: nat, g: nat, flags: Flags, grant: Option<seq<byte>>, data: seq<byte>, len: int)
    requires SysInv(s, len) && Inside(s) && f in s.fpos && Callable(s.fpos, len, Open(g, flags, grant))
    requires flags.writable && flags.trunc && !flags.append && (policy.FirstUse? || grant.Some?)
    requires var p := s.fpos[f]; 0 < p && p + |data| <= len
    ensures var s1 := DriverStep(policy, s, Open(g, flags, grant)).0;
            var p := s.fpos[f];
            && f in s1.fpos && s1.fpos[f] == p && Content(s1.dev) == []
            && var (s2, o) := DriverStep(policy, s1, Write(f, data));
               && o == Wrote(Some(|data|))
               && Content(s2.dev) == [0] + (if policy.FirstUse? then Content(s.dev) else grant.value)[1..p] + data
  {
    var b, p := if policy.FirstUse? then s.dev.block.value else grant.value, s.fpos[f];
    var c := b[0 := 0];
    assert (c[..p] + data + c[p + |data|..])[..p + |data|] == [0] + b[1..p] + data;
    if policy.FirstUse? {
      assert b[..s.dev.counter][1..p] == b[1..p];
    }
  }

  /** A positional write beyond the end opens one without any truncation, and shows the same memory. */
  lemma PositionalWriteOpensAGap(policy: Policy, s: Sys, f: nat, data: seq<byte>, pos: int, len: int)
    requires SysInv(s, len) && f in s.fpos && !s.dev.append && s.dev.counter <= pos && pos + |data| <= len
    ensures var (s', o) := DriverStep(policy, s, WriteAt(f, data, pos));
            o == Wrote(Some(|data|)) && Content(s'.dev) == Content(s.dev) + s.dev.block.value[s.dev.counter..pos] + data
  {
    var b := s.dev.block.value;
    assert (b[..pos] + data + b[pos + |data|..])[..pos + |data|] == b[..s.dev.counter] + b[s.dev.counter..pos] + data;
  }

  // -------------------------------------------------- chunks out and back

  function Flatten(chunks: seq<seq<byte>>): seq<byte> {
    if chunks == [] then [] else chunks[0] + Flatten(chunks[1..])
  }

  function Sum(sizes: seq<int>): int {
    if sizes == [] then 0 else sizes[0] + Sum(sizes[1..])
  }

  /** Write the chunks one after the other through one file. */
  function WriteAll(d: Dev, fpos: int, chunks: seq<seq<byte>>): (Dev, int)
    decreases |chunks|
  {
    if chunks == [] then (d, fpos)
    else
      var ok := InBuffer(WritePos(d, fpos), |chunks[0]|, d.allocLen);
      WriteAll(WriteSection(d, fpos, chunks[0]), if ok then fpos + |chunks[0]| else fpos, chunks[1..])
  }

  /** Read with the given sizes one after the other through one file, concatenating the answers. */
  function ReadAll(d: Dev, fpos: int, sizes: seq<int>): (seq<byte>, int)
    decreases |sizes|
  {
    if sizes == [] then ([], fpos)
    else
      var data := ReadSlice(d, fpos, sizes[0]);
      var (rest, end) := ReadAll(d, fpos + |data|, sizes[1..]);
      (data + rest, end)
  }

  lemma {:induction false} WriteAllAppends(d: Dev, fpos: int, chunks: seq<seq<byte>>, len: int)
    requires Sound(d, len) && d.block.Some? && 0 <= fpos
    requires d.append || fpos == d.counter
    requires d.counter + |Flatten(chunks)| <= len
    ensures var (e, end) := WriteAll(d, fpos, chunks);
            && Sound(e, len) && e.block.Some? && Content(e) == Content(d) + Flatten(chunks)
            && end == fpos + |Flatten(chunks)|
            && e.counter == d.counter + |Flatten(chunks)|
    decreases |chunks|
  {
    if chunks == [] {
      assert Content(d) + [] == Content(d);
    } else {
      var c := chunks[0];
      var d' := WriteSection(d, fpos, c);
      assert WritePos(d, fpos) == d.counter;
      assert Content(d') == Content(d) + c;
      WriteAllAppends(d', fpos + |c|, chunks[1..], len);
      assert Content(d) + c + Flatten(chunks[1..]) == Content(d) + Flatten(chunks);
    }
  }

  /** Reads of any positive sizes deliver the content in order without loss or repetition and advance
      by what they deliver. */
  lemma {:induction false} ReadAllDrains(d: Dev, fpos: int, sizes: seq<int>, len: int)
    requires Sound(d, len) && d.block.Some? && 0 <= fpos <= d.counter
    requires forall k | 0 <= k < |sizes| :: 0 < sizes[k]
    ensures var (data, end) := ReadAll(d, fpos, sizes);
            && end == Min(fpos + Sum(sizes), d.counter)
            && fpos <= end && data == Content(d)[fpos..end]
    decreases |sizes|
  {
    if sizes == [] {
    } else {
      var n, rest := sizes[0], sizes[1..];
      SumPositive(rest);
      OneRead(d, fpos, n, len);
      var mid := fpos + |ReadSlice(d, fpos, n)|;
      ReadAllDrains(d, mid, rest, len);
      var (data, end) := ReadAll(d, mid, rest);
      MinChain(fpos, n, Sum(rest), d.counter);
      SliceJoin(Content(d), fpos, mid, end);
      assert ReadAll(d, fpos, sizes) == (ReadSlice(d, fpos, n) + data, end);
    }
  }

  lemma OneRead(d: Dev, fpos: int, n: int, len: int)
    requires Sound(d, len) && d.block.Some? && 0 <= fpos <= d.counter && 0 < n
    ensures |Content(d)| == d.counter
    ensures var mid := Min(fpos + n, d.counter);
            ReadSlice(d, fpos, n) == Content(d)[fpos..mid] && fpos + |ReadSlice(d, fpos, n)| == mid
  {
  }

  lemma MinChain(from: int, n: nat, m: nat, top: int)
    requires from <= top
    ensures Min(Min(from + n, top) + m, top) == Min(from + (n + m), top)
    ensures from <= Min(from + n, top) <= Min(from + (n + m), top)
  {
  }

  lemma SliceJoin(c: seq<byte>, i: nat, j: nat, k: nat)
    requires i <= j <= k <= |c|
    ensures c[i..j] + c[j..k] == c[i..k]
  {
  }

  /** A read of positive size answers 0 exactly at the end of the content. */
  lemma ZeroMeansEnd(d: Dev, fpos: int, n: int, len: int)
    requires Sound(d, len) && d.block.Some? && 0 <= fpos <= d.counter && 0 < n
    ensures ReadSlice(d, fpos, n) == [] <==> fpos == d.counter
  {
    assert |ReadSlice(d, fpos, n)| == Min(n, d.counter - fpos);
  }

  lemma {:induction false} SumPositive(sizes: seq<int>)
    requires forall k | 0 <= k < |sizes| :: 0 < sizes[k]
    ensures Sum(sizes) >= |sizes|
  {
    if sizes != [] {
      SumPositive(sizes[1..]);
    }
  }

  /** Chunks written in append mode, or at the end of the content, then read back from offset 0 with
      any positive sizes until a read returns nothing: the old content followed by the chunks. */
  lemma RoundTrip(d: Dev, fpos: int, chunks: seq<seq<byte>>, sizes: seq<int>, last: int, len: int)
    requires Sound(d, len) && d.block.Some? && 0 <= fpos && (d.append || fpos == d.counter)
    requires d.counter + |Flatten(chunks)| <= len
    requires (forall k | 0 <= k < |sizes| :: 0 < sizes[k]) && 0 < last
    requires var e := WriteAll(d, fpos, chunks).0; ReadSlice(e, ReadAll(e, 0, sizes).1, last) == []
    ensures var e := WriteAll(d, fpos, chunks).0;
            && SeekResult(SeekSet, WriteAll(d, fpos, chunks).1, 0, e.counter) == Some(0)
            && ReadAll(e, 0, sizes).0 == Content(d) + Flatten(chunks)
  {
    WriteAllAppends(d, fpos, chunks, len);
    var e := WriteAll(d, fpos, chunks).0;
    ReadAllDrains(e, 0, sizes, len);
    ZeroMeansEnd(e, ReadAll(e, 0, sizes).1, last, len);
    assert Content(e)[0..|Content(e)|] == Content(e);
  }

  /** With a positive read size the remaining length falls at every read before the end, so at most
      as many reads as there are bytes left are needed, and that many always suffice. */
  lemma EnoughReads(d: Dev, fpos: int, sizes: seq<int>, len: int)
    requires Sound(d, len) && d.block.Some? && 0 <= fpos <= d.counter
    requires forall k | 0 <= k < |sizes| :: 0 < sizes[k]
    requires |sizes| >= d.counter - fpos
    ensures ReadAll(d, fpos, sizes).0 == Content(d)[fpos..] && ReadAll(d, fpos, sizes).1 == d.counter
  {
    SumPositive(sizes);
    ReadAllDrains(d, fpos, sizes, len);
    var (data, end) := ReadAll(d, fpos, sizes);
    assert end == d.counter == |Content(d)|;
    assert data == Content(d)[fpos..end];
  }
}
