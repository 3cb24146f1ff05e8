/** What a call means to its caller: for every call that has returned, where it started, how it was
    answered and where it left its file, in terms of the history and of the calls that returned before
    it. No program counter occurs in the meaning; the second half says what holds at each of them. */
module BlockingOpenCalls {
  import opened CInt
  import opened Options
  import opened DeviceSpec
  import opened BlockingOpen
  import opened BlockingOpenInv

  // ---------------------------------------------------- meaning of a record

  predicate Succeeded(r: Record) {
    r.call.CallOpen? && r.outcome == Answered(Opened)
  }

  /** Whether thread t has a file, after these calls. */
  function IsOpen(log: seq<Record>, t: nat): bool {
    if log == [] then false
    else
      var r := log[|log| - 1];
      if r.t == t && Succeeded(r) then true
      else if r.t == t && r.call.CallClose? then false
      else IsOpen(log[..|log| - 1], t)
  }

  /** The calls that work on the file's own offset. */
  predicate MovesOffset(r: Record) {
    r.call.CallRead? || r.call.CallWrite? || r.call.CallSeek? || Succeeded(r)
  }

  /** The offset of thread t's file after these calls: where the last of its own that uses the offset
      left it. */
  function FileOffset(log: seq<Record>, t: nat): int {
    if log == [] then 0
    else
      var r := log[|log| - 1];
      if r.t == t && MovesOffset(r) then r.to else FileOffset(log[..|log| - 1], t)
  }

  /** An open enters its first section with its flags and what the allocator will answer; only one that
      may wait enters more. */
  predicate OpenedBy(sec: Section, flags: Flags, grant: Option<seq<byte>>) {
    sec == OpenSec(flags, grant) || (sec == ReopenSec(flags) && !flags.nonblock)
  }

  /** It returns what its last section answered; if that was to wait, it has given up: at once if it is
      not to block, interrupted otherwise. If it never got the lock it says so. */
  predicate OpenReturned(hist: seq<Section>, answers: seq<Answer>, r: Record, flags: Flags, grant: Option<seq<byte>>) {
    match r.section
    case None => r.outcome == Restart
    case Some(k) =>
      && k < |answers| <= |hist| && OpenedBy(hist[k], flags, grant)
      && r.outcome == (if !answers[k].MustWait? then Answered(answers[k]) else if flags.nonblock then Again else Restart)
      && (answers[k].Opened? ==> r.to == 0)
  }

  /** A read returns the slice at its position of one state of the serial run, and moves past it. */
  predicate ReadReturned(policy: Policy, hist: seq<Section>, r: Record, count: int) {
    && r.outcome.Got? && r.outcome.seen <= |hist|
    && r.outcome.data == ReadSlice(Replay(policy, hist[..r.outcome.seen]), r.from, count)
    && r.to == r.from + |r.outcome.data|
  }

  /** A write's section is its data at its position. It returns what the section answered, and moves past
      the data exactly if that was success. */
  predicate WriteReturned(hist: seq<Section>, answers: seq<Answer>, r: Record, data: seq<byte>) {
    match r.section
    case None => r.outcome == Restart && r.to == r.from
    case Some(k) =>
      && k < |answers| <= |hist| && hist[k] == WriteSec(r.from, data) && r.outcome == Answered(answers[k])
      && r.to == r.from + (if answers[k].Wrote? then |data| else 0)
  }

  /** c is the fill counter of some state of the serial run. */
  ghost predicate SerialCounter(policy: Policy, hist: seq<Section>, c: int) {
    0 <= c < TWO_31 && exists i :: 0 <= i <= |hist| && Replay(policy, hist[..i]).counter == c
  }

  /** A seek goes to its base, by the first value of counter, plus the offset, cut to int, if that is not
      beyond the second value; otherwise nowhere. */
  ghost predicate SeekReturned(policy: Policy, hist: seq<Section>, r: Record, off: int, whence: Whence) {
    if whence.SeekOther? then r.outcome == Invalid && r.to == r.from
    else
      && r.outcome.Sought?
      && SerialCounter(policy, hist, r.outcome.first) && SerialCounter(policy, hist, r.outcome.second)
      && var target := ToInt(SeekBase(whence, r.from, r.outcome.first) + off);
         && (r.outcome.ok <==> 0 <= target <= r.outcome.second)
         && r.to == if r.outcome.ok then target else r.from
  }

  /** The call did what it should, after those that returned before it. */
  ghost predicate Faithful(policy: Policy, hist: seq<Section>, answers: seq<Answer>, before: seq<Record>, r: Record) {
    && r.call.t == r.t
    && (r.call.CallOpen? <==> !IsOpen(before, r.t))
    && (r.call.CallRead? || r.call.CallWrite? || r.call.CallSeek? ==> r.from == FileOffset(before, r.t))
    && match r.call
       case CallOpen(_, flags, grant) => OpenReturned(hist, answers, r, flags, grant)
       case CallRead(_, count) => ReadReturned(policy, hist, r, count)
       case CallWrite(_, data) => WriteReturned(hist, answers, r, data)
       case CallReadAt(_, count, pos) => r.from == pos && ReadReturned(policy, hist, r, count)
       case CallWriteAt(_, data, pos) => r.from == pos && WriteReturned(hist, answers, r, data)
       case CallSeek(_, off, whence) => SeekReturned(policy, hist, r, off, whence)
       case CallClose(_) => r.outcome == Released
       case _ => false
  }

  // ----------------------------------------- at each program counter

  predicate Transfers(pc: Pc) {
    InRead(pc) || (InWrite(pc) && !pc.WriteWake?)
  }

  /** How far past its starting position a transfer has moved. */
  function Moved(pc: Pc): int {
    match pc
    case ReadUnlock(_, buf) => |buf|
    case WriteUnlock(retval) => if retval.Some? then retval.value else 0
    case _ => 0
  }

  /** The file's offset is where the calls before left it, or a transfer of its own is moving it. */
  predicate OffsetFine(log: seq<Record>, t: nat, th: Thread) {
    && (FileOpen(th.pc) <==> IsOpen(log, t))
    && (FileOpen(th.pc) && (Transfers(th.pc) ==> th.ppos.Some?) ==> th.fpos == FileOffset(log, t))
    && (Transfers(th.pc) && th.ppos.None? ==> th.from == FileOffset(log, t))
    && (Transfers(th.pc) ==> Offset(th) == th.from + Moved(th.pc))
    && (th.pc.SeekRead? || th.pc.SeekStore? ==> th.ppos.None? && th.from == th.fpos)
    && (InOpen(th.pc) ==> th.ppos.None?)
  }

  predicate IsRead(th: Thread, t: nat, count: int) {
    th.call == if th.ppos.None? then CallRead(t, count) else CallReadAt(t, count, th.from)
  }

  predicate IsWrite(th: Thread, t: nat, data: seq<byte>) {
    th.call == if th.ppos.None? then CallWrite(t, data) else CallWriteAt(t, data, th.from)
  }

  /** The locals are what the call asked for. */
  ghost predicate ArgsFine(policy: Policy, hist: seq<Section>, t: nat, th: Thread) {
    match th.pc
    case Closed => true
    case Idle => true
    case ReadLock(count) => IsRead(th, t, count)
    case ReadCheck(count) => IsRead(th, t, count)
    case ReadCopy(count, _, _) => IsRead(th, t, count)
    case ReadAdvance(count, _) => IsRead(th, t, count)
    case ReadUnlock(count, _) => IsRead(th, t, count)
    case WriteTry(data) => IsWrite(th, t, data)
    case WriteGuard(data) => IsWrite(th, t, data)
    case WriteCopy(_, data, _) => IsWrite(th, t, data)
    case WriteCounter(_, data) => IsWrite(th, t, data)
    case WriteAdvance(data) => IsWrite(th, t, data)
    case WriteUnlock(retval) =>
      && (th.call.CallWrite? || th.call.CallWriteAt?) && IsWrite(th, t, th.call.data)
      && (retval.Some? ==> retval.value == |th.call.data|)
    case WriteWake => true
    case SeekRead(off, whence) => th.call == CallSeek(t, off, whence)
    case SeekStore(target, first) =>
      && th.call.CallSeek? && th.call.t == t && !th.call.whence.SeekOther? && SerialCounter(policy, hist, first)
      && target == ToInt(SeekBase(th.call.whence, th.from, first) + th.call.off)
    case _ => th.call == CallOpen(t, th.flags, th.grant)
  }

  predicate EnteredBy(sec: Section, th: Thread) {
    if InOpen(th.pc) then OpenedBy(sec, th.flags, th.grant)
    else (th.call.CallWrite? || th.call.CallWriteAt?) && sec == WriteSec(th.from, th.call.data)
  }

  /** Which section of the history is the call's: the last one, while it holds the write lock; the one
      that answered it must wait, while it does; none before the first. */
  predicate SectionFine(hist: seq<Section>, answers: seq<Answer>, th: Thread) {
    if th.pc.OpenTry? || th.pc.WriteTry? then th.section.None?
    else if HoldsWrite(th.pc) then
      th.section.Some? && th.section.value + 1 == |hist| && EnteredBy(hist[th.section.value], th)
    else if Waiting(th.pc) then
      && th.section.Some? && th.section.value < |answers| <= |hist| && answers[th.section.value].MustWait?
      && OpenedBy(hist[th.section.value], th.flags, th.grant)
      && (!th.pc.OpenQueue? ==> !th.flags.nonblock)
    else true
  }

  ghost predicate CallFine(policy: Policy, hist: seq<Section>, answers: seq<Answer>, log: seq<Record>, t: nat, th: Thread) {
    OffsetFine(log, t, th) && ArgsFine(policy, hist, t, th) && SectionFine(hist, answers, th)
  }

  /** An unlocked look at counter sees a state of the serial run: the one with the section that is being
      executed, or the one before it. */
  predicate CounterInv(s: State) {
    || s.dev.counter == Replay(s.policy, s.hist).counter
    || (s.writer.Some? && s.hist != [] && s.dev.counter == Replay(s.policy, s.hist[..|s.hist| - 1]).counter)
  }

  ghost predicate CallsInv(s: State) {
    && CounterInv(s)
    && (forall t | 0 <= t < |s.threads| :: CallFine(s.policy, s.hist, s.answers, s.log, t, s.threads[t]))
    && (forall k | 0 <= k < |s.log| :: Faithful(s.policy, s.hist, s.answers, s.log[..k], s.log[k]))
  }

  // ------------------------------------------------------------- one step

  predicate Extends<T(==)>(a: seq<T>, b: seq<T>) {
    |a| <= |b| && b[..|a|] == a
  }

  /** A step of thread t that adds to the history and the answers, and leaves t as it should. */
  ghost predicate CallMove(s: State, s': State, t: nat)
    requires t < |s.threads| == |s'.threads|
  {
    && s'.policy == s.policy
    && Extends(s.hist, s'.hist) && Extends(s.answers, s'.answers)
    && (s'.hist == s.hist || s.writer.None?)
    && CallFine(s'.policy, s'.hist, s'.answers, s'.log, t, s'.threads[t])
  }

  /** It returns nothing, */
  ghost predicate QuietMove(s: State, s': State, t: nat)
    requires t < |s.threads| == |s'.threads|
  {
    CallMove(s, s', t) && s'.log == s.log
  }

  /** or it returns, as it should. */
  ghost predicate ReturnMove(s: State, s': State, t: nat)
    requires t < |s.threads| == |s'.threads|
  {
    && CallMove(s, s', t) && |s'.log| == |s.log| + 1 && s'.log[..|s.log|] == s.log && s'.log[|s.log|].t == t
    && Faithful(s'.policy, s'.hist, s'.answers, s.log, s'.log[|s.log|])
  }

  lemma SerialCounterKept(policy: Policy, hist: seq<Section>, hist': seq<Section>, c: int)
    requires Extends(hist, hist') && SerialCounter(policy, hist, c)
    ensures SerialCounter(policy, hist', c)
  {
    var i :| 0 <= i <= |hist| && Replay(policy, hist[..i]).counter == c;
    assert hist'[..i] == hist[..i];
  }

  /** What was true of a returned call stays true as the run goes on. */
  lemma FaithfulKept(policy: Policy, hist: seq<Section>, hist': seq<Section>, answers: seq<Answer>, answers': seq<Answer>,
                     before: seq<Record>, r: Record)
    requires Extends(hist, hist') && Extends(answers, answers') && |answers| <= |hist| && |answers'| <= |hist'|
    requires Faithful(policy, hist, answers, before, r)
    ensures Faithful(policy, hist', answers', before, r)
  {
    if r.outcome.Got? && r.outcome.seen <= |hist| {
      assert hist'[..r.outcome.seen] == hist[..r.outcome.seen];
    }
    if r.outcome.Sought? && r.call.CallSeek? && !r.call.whence.SeekOther? {
      SerialCounterKept(policy, hist, hist', r.outcome.first);
      SerialCounterKept(policy, hist, hist', r.outcome.second);
    }
    if r.section.Some? && r.section.value < |answers| {
      assert hist'[r.section.value] == hist[r.section.value] && answers'[r.section.value] == answers[r.section.value];
    }
  }

  /** A call of another thread leaves t's file alone. */
  lemma OthersFile(log: seq<Record>, log': seq<Record>, t: nat, i: nat)
    requires log' == log || (|log'| == |log| + 1 && log'[..|log|] == log && log'[|log|].t == t)
    requires i != t
    ensures IsOpen(log', i) == IsOpen(log, i) && FileOffset(log', i) == FileOffset(log, i)
  {
  }

  lemma OtherArgsFine(policy: Policy, hist: seq<Section>, hist': seq<Section>, t: nat, th: Thread, asleep: bool)
    requires Extends(hist, hist') && ArgsFine(policy, hist, t, th)
    ensures ArgsFine(policy, hist', t, th.(asleep := asleep))
  {
    if th.pc.SeekStore? {
      SerialCounterKept(policy, hist, hist', th.pc.first);
    }
  }

  lemma OtherSectionFine(hist: seq<Section>, hist': seq<Section>, answers: seq<Answer>, answers': seq<Answer>, th: Thread, asleep: bool)
    requires Extends(hist, hist') && Extends(answers, answers') && |answers'| <= |hist'|
    requires SectionFine(hist, answers, th) && (HoldsWrite(th.pc) ==> hist' == hist)
    ensures SectionFine(hist', answers', th.(asleep := asleep))
  {
    if Waiting(th.pc) && !HoldsWrite(th.pc) {
      var k := th.section.value;
      assert answers'[k] == answers[k] && hist'[k] == hist[k];
    }
  }

  lemma OtherThreadFine(s: State, s': State, t: nat, i: nat)
    requires LockInv(s) && AnswerInv(s') && Local(s, s', t) && (QuietMove(s, s', t) || ReturnMove(s, s', t))
    requires i < |s.threads| && i != t && CallFine(s.policy, s.hist, s.answers, s.log, i, s.threads[i])
    ensures CallFine(s'.policy, s'.hist, s'.answers, s'.log, i, s'.threads[i])
  {
    var th, asleep := s.threads[i], s'.threads[i].asleep;
    OthersFile(s.log, s'.log, t, i);
    OtherArgsFine(s.policy, s.hist, s'.hist, i, th, asleep);
    OtherSectionFine(s.hist, s'.hist, s.answers, s'.answers, th, asleep);
  }

  lemma OtherThreadsFine(s: State, s': State, t: nat)
    requires LockInv(s) && AnswerInv(s') && CallsInv(s) && Local(s, s', t) && (QuietMove(s, s', t) || ReturnMove(s, s', t))
    ensures forall i | 0 <= i < |s'.threads| :: CallFine(s'.policy, s'.hist, s'.answers, s'.log, i, s'.threads[i])
  {
    forall i | 0 <= i < |s'.threads| ensures CallFine(s'.policy, s'.hist, s'.answers, s'.log, i, s'.threads[i]) {
      if i != t {
        OtherThreadFine(s, s', t, i);
      }
    }
  }

  lemma RecordsFine(s: State, s': State, t: nat)
    requires AnswerInv(s) && AnswerInv(s') && CallsInv(s) && t < |s.threads| == |s'.threads| && (QuietMove(s, s', t) || ReturnMove(s, s', t))
    ensures forall k | 0 <= k < |s'.log| :: Faithful(s'.policy, s'.hist, s'.answers, s'.log[..k], s'.log[k])
  {
    forall k | 0 <= k < |s'.log| ensures Faithful(s'.policy, s'.hist, s'.answers, s'.log[..k], s'.log[k]) {
      if k < |s.log| {
        assert s'.log[..k] == s.log[..k] && s'.log[k] == s.log[k];
        FaithfulKept(s.policy, s.hist, s'.hist, s.answers, s'.answers, s.log[..k], s.log[k]);
      }
    }
  }

  lemma MoveKeepsCalls(s: State, s': State, t: nat)
    requires LockInv(s) && AnswerInv(s) && AnswerInv(s') && CallsInv(s) && Local(s, s', t) && CounterInv(s')
    requires QuietMove(s, s', t) || ReturnMove(s, s', t)
    ensures CallsInv(s')
  {
    OtherThreadsFine(s, s', t);
    RecordsFine(s, s', t);
  }
}
