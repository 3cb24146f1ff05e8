/** basic_ops.c as a step machine: any number of threads, each with one open file, execute the lines
    of CDD_open, wait_for_content, CDD_read, CDD_write and CDD_llseek in any interleaving. One step is
    one line that touches shared state (a copy moves one byte a step), and memory is sequentially
    consistent. The reader/writer semaphore, the wait queue and signals are modelled by the steps the
    driver takes on them. */
module BlockingOpen {
  import opened CInt
  import opened Options
  import opened DeviceSpec

  /** Where a thread is. Numbers are lines of basic_ops.c; arguments are the call's locals. */
  datatype Pc =
    | Closed
    | OpenTry            // 221
    | OpenAlloc          // 226
    | OpenCheck          // 88
    | OpenUnlock         // 92
    | OpenQueue          // 95-100
    | OpenRecheck        // 101
    | OpenSleep          // 108
    | OpenDequeue        // 112
    | OpenSignal         // 113
    | OpenRelock         // 116
    | OpenCount          // 246
    | OpenAppendOff      // 248
    | OpenTruncByte      // 255
    | OpenTruncCounter   // 256
    | OpenAppendOn       // 262
    | OpenRelease(ok: bool)                                    // 271
    | Idle
    | ReadLock(count: int)                                     // 292
    | ReadCheck(count: int)                                    // 296-300
    | ReadCopy(count: int, n: int, buf: seq<byte>)             // 303
    | ReadAdvance(count: int, buf: seq<byte>)                  // 307
    | ReadUnlock(count: int, buf: seq<byte>)                   // 310
    | WriteTry(data: seq<byte>)                                // 321
    | WriteGuard(data: seq<byte>)                              // 325-335
    | WriteCopy(pos: int, data: seq<byte>, i: nat)             // 337
    | WriteCounter(pos: int, data: seq<byte>)                  // 341-342
    | WriteAdvance(data: seq<byte>)                            // 343
    | WriteUnlock(retval: Option<nat>)                         // 348
    | WriteWake                                                // 351
    | SeekRead(off: int, whence: Whence)                       // 361-375
    | SeekStore(target: int, first: int)                       // 379-382

  /** `flags` and `grant` belong to the latest open call: its f_flags and what the allocator will
      answer it. `ppos` is the position handed to the latest read or write; None is the file's own
      offset, `fpos`. `asleep` is the task state TASK_INTERRUPTIBLE, set by prepare_to_wait and cleared by a
      wake-up. `epoch` is the number of truncations when the file was opened.
      The last three record the latest call: what was asked, the position it started from, and the
      write section it entered last, if any. */
  datatype Thread = Thread(pc: Pc, flags: Flags, grant: Option<seq<byte>>, fpos: int,
                           ppos: Option<int>, epoch: nat, asleep: bool, signal: bool,
                           call: Action, from: int, section: Option<nat>)

  /** What the holder of a freshly acquired write lock is going to do. */
  datatype Section =
    | OpenSec(flags: Flags, grant: Option<seq<byte>>)
    | ReopenSec(flags: Flags)
    | WriteSec(fpos: int, data: seq<byte>)

  /** What a write section answers: the outcome of an open, or the count of a write. */
  datatype Answer = Opened | NoMemory | MustWait | Wrote(n: nat) | Fault

  /** How a call returns: -ERESTARTSYS, -EAGAIN, -EINVAL for an unknown whence, as its write section
      answered, with the bytes read (and how many write sections had been entered by then), with a seek
      made or refused (and the values of counter it looked at), or from a close. */
  datatype Outcome =
    | Restart
    | Again
    | Invalid
    | Answered(answer: Answer)
    | Got(data: seq<byte>, seen: nat)
    | Sought(first: int, second: int, ok: bool)
    | Released

  /** A call that has returned, with the position it started from and the one it left. */
  datatype Record = Record(t: nat, call: Action, from: int, to: int, section: Option<nat>, outcome: Outcome)

  /** `hist` has the write sections in the order in which they were entered, `answers` what those that
      have been left answered, `log` the calls that have returned. */
  datatype State = State(
    policy: Policy, len: int,
    dev: Dev, writer: Option<nat>, readers: set<nat>, queue: set<nat>, threads: seq<Thread>,
    truncs: nat, hist: seq<Section>, answers: seq<Answer>, log: seq<Record>)

  datatype Action =
    | CallOpen(t: nat, flags: Flags, grant: Option<seq<byte>>)
    | CallRead(t: nat, count: int)
    | CallWrite(t: nat, data: seq<byte>)
    | CallReadAt(t: nat, count: int, pos: int)
    | CallWriteAt(t: nat, data: seq<byte>, pos: int)
    | CallSeek(t: nat, off: int, whence: Whence)
    | CallClose(t: nat)
    | Signal(t: nat)
    | Deliver(t: nat)
    | Tick(t: nat)

  // ------------------------------------------------------- the machine

  predicate Free(s: State) {
    s.writer.None? && s.readers == {}
  }

  function Put(s: State, t: nat, th: Thread): State
    requires t < |s.threads|
  {
    s.(threads := s.threads[t := th])
  }

  function Goto(s: State, t: nat, pc: Pc): State
    requires t < |s.threads|
  {
    Put(s, t, s.threads[t].(pc := pc))
  }

  /** *ppos, and `*ppos += n`. */
  function Offset(th: Thread): int {
    if th.ppos.Some? then th.ppos.value else th.fpos
  }

  function Advance(th: Thread, n: int): Thread {
    if th.ppos.Some? then th.(ppos := Some(th.ppos.value + n)) else th.(fpos := th.fpos + n)
  }

  function WriteAnswer(retval: Option<nat>): Answer {
    if retval.Some? then Wrote(retval.value) else Fault
  }

  /** up_write, leaving a section with an answer. */
  function Leave(s: State, answer: Answer): State {
    s.(writer := None, answers := s.answers + [answer])
  }

  /** A call of thread t returns. */
  function Finish(s: State, t: nat, outcome: Outcome): State
    requires t < |s.threads|
  {
    s.(log := s.log + [Returned(t, s.threads[t], outcome)])
  }

  function Returned(t: nat, th: Thread, outcome: Outcome): Record {
    Record(t, th.call, th.from, Offset(th), th.section, outcome)
  }

  /** down_write_trylock, entering section `sec` on success and giving up otherwise. */
  function TryWrite(s: State, t: nat, sec: Section, got: Pc, missed: Pc): State
    requires t < |s.threads|
  {
    if Free(s) then
      Put(s, t, s.threads[t].(pc := got, section := Some(|s.hist|))).(writer := Some(t), hist := s.hist + [sec])
    else Finish(Goto(s, t, missed), t, Restart)
  }

  function AfterTrunc(f: Flags): Pc {
    if f.append then OpenAppendOn else OpenRelease(true)
  }

  /** Lines 221-271: CDD_open, with wait_for_content between OpenCheck and OpenRelock. */
  function TickOpen(s: State, t: nat): State
    requires t < |s.threads|
  {
    var th := s.threads[t];
    var f := th.flags;
    match th.pc
    case OpenTry => TryWrite(s, t, OpenSec(f, th.grant), OpenAlloc, Closed)
    case OpenAlloc =>
      var d := AllocStep(s.policy, s.dev, th.grant);
      Goto(s, t, if d.block.None? then OpenRelease(false) else OpenCheck).(dev := d)
    case OpenCheck => Goto(s, t, if Unavailable(s.dev.counter, f) != 0 then OpenUnlock else OpenCount)
    case OpenUnlock => Leave(Goto(s, t, OpenQueue), MustWait)
    case OpenQueue =>
      if f.nonblock then Finish(Goto(s, t, Closed), t, Again)
      else Put(s, t, th.(pc := OpenRecheck, asleep := true)).(queue := s.queue + {t})
    case OpenRecheck =>
      var ret := Unavailable(s.dev.counter, f);
      if ret < 0 then Finish(Goto(s, t, Closed), t, Restart)
      else Goto(s, t, if ret > 0 then OpenSleep else OpenDequeue)
    case OpenSleep => Put(s, t, th.(pc := OpenDequeue, asleep := false))
    case OpenDequeue => Put(s, t, th.(pc := OpenSignal, asleep := false)).(queue := s.queue - {t})
    case OpenSignal => if th.signal then Finish(Goto(s, t, Closed), t, Restart) else Goto(s, t, OpenRelock)
    case OpenRelock => TryWrite(s, t, ReopenSec(f), OpenCheck, Closed)
    case OpenCount => Goto(s, t, OpenAppendOff).(dev := s.dev.(opens := ToUInt(s.dev.opens + 1)))
    case OpenAppendOff => Goto(s, t, if f.trunc then OpenTruncByte else AfterTrunc(f)).(dev := s.dev.(append := false))
    case OpenTruncByte => Goto(s, t, OpenTruncCounter).(dev := s.dev.(block := ClearFirst(s.dev.block)))
    case OpenTruncCounter => Goto(s, t, AfterTrunc(f)).(dev := s.dev.(counter := 0), truncs := s.truncs + 1)
    case OpenAppendOn => Goto(s, t, OpenRelease(true)).(dev := s.dev.(append := true))
    case OpenRelease(ok) =>
      if ok then Leave(Finish(Put(s, t, th.(pc := Idle, fpos := 0, epoch := s.truncs)), t, Answered(Opened)), Opened)
      else Leave(Finish(Goto(s, t, Closed), t, Answered(NoMemory)), NoMemory)
    case _ => s
  }

  /** Lines 292-310: CDD_read. */
  function TickRead(s: State, t: nat): State
    requires t < |s.threads|
  {
    var th := s.threads[t];
    match th.pc
    case ReadLock(count) => Goto(s, t, ReadCheck(count)).(readers := s.readers + {t})
    case ReadCheck(count) =>
      var n := ReadCount(Offset(th), count, s.dev.counter);
      Goto(s, t, if n <= 0 then ReadUnlock(count, []) else ReadCopy(count, n, []))
    case ReadCopy(count, n, buf) =>
      if |buf| >= n then Goto(s, t, ReadAdvance(count, buf))
      else if MayTouch(s.dev, Offset(th) + |buf|) then Goto(s, t, ReadCopy(count, n, buf + [s.dev.block.value[Offset(th) + |buf|]]))
      else s
    case ReadAdvance(count, buf) => Put(s, t, Advance(th, |buf|).(pc := ReadUnlock(count, buf)))
    case ReadUnlock(count, buf) =>
      Finish(Goto(s, t, Idle), t, Got(buf, |s.hist|)).(readers := s.readers - {t})
    case _ => s
  }

  /** Lines 321-351: CDD_write. */
  function TickWrite(s: State, t: nat): State
    requires t < |s.threads|
  {
    var th := s.threads[t];
    match th.pc
    case WriteTry(data) => TryWrite(s, t, WriteSec(Offset(th), data), WriteGuard(data), Idle)
    case WriteGuard(data) =>
      var pos := WritePos(s.dev, Offset(th));
      Goto(s, t, if WriteGuardsPass(pos, WriteEnd(pos, |data|), s.dev.allocLen) then WriteCopy(pos, data, 0) else WriteUnlock(None))
    case WriteCopy(pos, data, i) =>
      if i >= |data| then Goto(s, t, WriteCounter(pos, data))
      else if MayTouch(s.dev, pos + i)
      then Goto(s, t, WriteCopy(pos, data, i + 1)).(dev := s.dev.(block := Some(s.dev.block.value[pos + i := data[i]])))
      else s
    case WriteCounter(pos, data) =>
      var end := ToUInt(WriteEnd(pos, |data|));
      Goto(s, t, WriteAdvance(data)).(dev := if end > s.dev.counter then s.dev.(counter := end) else s.dev)
    case WriteAdvance(data) => Put(s, t, Advance(th, |data|).(pc := WriteUnlock(Some(|data|))))
    case WriteUnlock(retval) =>
      var answer := WriteAnswer(retval);
      Leave(Finish(Goto(s, t, if retval.Some? then WriteWake else Idle), t, Answered(answer)), answer)
    case WriteWake =>
      Goto(s.(threads := Woken(s.threads, s.queue), queue := {}), t, Idle)
    case _ => s
  }

  /** wake_up_interruptible: every queued task becomes runnable and leaves the queue. */
  function Woken(threads: seq<Thread>, queue: set<nat>): (r: seq<Thread>)
    ensures |r| == |threads|
  {
    seq(|threads|, i requires 0 <= i < |threads| =>
      if i in queue then threads[i].(asleep := false) else threads[i])
  }

  /** Lines 361-383: CDD_llseek, which takes no lock and reads counter twice. */
  function TickSeek(s: State, t: nat): State
    requires t < |s.threads|
  {
    var th := s.threads[t];
    match th.pc
    case SeekRead(off, whence) =>
      if whence.SeekOther? then Finish(Goto(s, t, Idle), t, Invalid)
      else Goto(s, t, SeekStore(SeekSum(SeekFrom(whence, th.fpos, s.dev.counter), off), s.dev.counter))
    case SeekStore(target, first) =>
      if target < 0 || target > s.dev.counter then Finish(Goto(s, t, Idle), t, Sought(first, s.dev.counter, false))
      else Finish(Put(s, t, th.(pc := Idle, fpos := target)), t, Sought(first, s.dev.counter, true))
    case _ => s
  }

  predicate MayTouch(d: Dev, k: int) {
    d.block.Some? && 0 <= k < |d.block.value|
  }

  /** A thread can move unless no call is in progress, it waits for readers' access, it sleeps, or it
      dereferences a block that is not there. */
  predicate CanTick(s: State, t: nat) {
    && t < |s.threads|
    && var th := s.threads[t];
       match th.pc
       case Closed => false
       case Idle => false
       case OpenSleep => !th.asleep || th.signal
       case OpenTruncByte => MayTouch(s.dev, 0)
       case ReadLock(_) => s.writer.None?
       case ReadCopy(_, n, buf) => |buf| < n ==> MayTouch(s.dev, Offset(th) + |buf|)
       case WriteCopy(pos, data, i) => i < |data| ==> MayTouch(s.dev, pos + i)
       case _ => true
  }

  predicate InOpen(pc: Pc) {
    || pc.OpenTry? || pc.OpenAlloc? || pc.OpenCheck? || pc.OpenUnlock? || pc.OpenQueue? || pc.OpenRecheck?
    || pc.OpenSleep? || pc.OpenDequeue? || pc.OpenSignal? || pc.OpenRelock? || pc.OpenCount?
    || pc.OpenAppendOff? || pc.OpenTruncByte? || pc.OpenTruncCounter? || pc.OpenAppendOn? || pc.OpenRelease?
  }

  predicate InRead(pc: Pc) {
    pc.ReadLock? || pc.ReadCheck? || pc.ReadCopy? || pc.ReadAdvance? || pc.ReadUnlock?
  }

  predicate InWrite(pc: Pc) {
    || pc.WriteTry? || pc.WriteGuard? || pc.WriteCopy? || pc.WriteCounter?
    || pc.WriteAdvance? || pc.WriteUnlock? || pc.WriteWake?
  }

  function DoTick(s: State, t: nat): State
    requires t < |s.threads|
  {
    var pc := s.threads[t].pc;
    if InOpen(pc) then TickOpen(s, t)
    else if InRead(pc) then TickRead(s, t)
    else if InWrite(pc) then TickWrite(s, t)
    else TickSeek(s, t)
  }

  /** What the kernel guarantees before it calls the driver: a read, write or seek is on an open file,
      with a bounded transfer and a position that stays in 64 bits. */
  predicate Enabled(s: State, a: Action) {
    && a.t < |s.threads|
    && var th := s.threads[a.t];
       match a
       case CallOpen(_, _, grant) => th.pc.Closed? && (grant.Some? ==> |grant.value| == s.len)
       case CallRead(_, count) => th.pc.Idle? && Position(th.fpos, count)
       case CallWrite(_, data) => th.pc.Idle? && Position(th.fpos, |data|)
       case CallReadAt(_, count, pos) => th.pc.Idle? && Position(pos, count)
       case CallWriteAt(_, data, pos) => th.pc.Idle? && Position(pos, |data|)
       case CallSeek(_, off, _) => th.pc.Idle? && -TWO_63 <= off < TWO_63
       case CallClose(_) => th.pc.Idle?
       case Signal(_) => true
       case Deliver(_) => th.pc.Closed? || th.pc.Idle?
       case Tick(t) => CanTick(s, t)
  }

  /** A call begins, at a position of its own or at the file's. */
  function Begin(th: Thread, pc: Pc, ppos: Option<int>, a: Action): Thread {
    th.(pc := pc, ppos := ppos, call := a, from := if ppos.Some? then ppos.value else th.fpos, section := None)
  }

  function Apply(s: State, a: Action): State
    requires Enabled(s, a)
  {
    var th := s.threads[a.t];
    match a
    case CallOpen(t, flags, grant) => Put(s, t, Begin(th, OpenTry, None, a).(flags := flags, grant := grant))
    case CallRead(t, count) => Put(s, t, Begin(th, ReadLock(count), None, a))
    case CallWrite(t, data) => Put(s, t, Begin(th, WriteTry(data), None, a))
    case CallReadAt(t, count, pos) => Put(s, t, Begin(th, ReadLock(count), Some(pos), a))
    case CallWriteAt(t, data, pos) => Put(s, t, Begin(th, WriteTry(data), Some(pos), a))
    case CallSeek(t, off, whence) => Put(s, t, Begin(th, SeekRead(off, whence), None, a))
    case CallClose(t) => Finish(Put(s, t, Begin(th, Closed, None, a)), t, Released)
    case Signal(t) => Put(s, t, th.(signal := true))
    case Deliver(t) => Put(s, t, th.(signal := false))
    case Tick(t) => DoTick(s, t)
  }

  const UNBORN :=
    Thread(Closed, Flags(false, false, false, false), None, 0, None, 0, false, false, CallClose(0), 0, None)

  function Init(policy: Policy, len: int, n: nat): State {
    State(policy, len, UNTOUCHED, None, {}, {}, seq(n, i => UNBORN), 0, [], [], [])
  }

  /** The state after a schedule, if every action of it was possible. */
  function Exec(s: State, acts: seq<Action>): Option<State> {
    if acts == [] then Some(s)
    else
      var m := Exec(s, acts[..|acts| - 1]);
      if m.Some? && Enabled(m.value, acts[|acts| - 1]) then Some(Apply(m.value, acts[|acts| - 1])) else None
  }

  ghost predicate Reachable(s: State) {
    exists policy, len, n, acts ::
      0 < len < TWO_31 && Exec(Init(policy, len, n), acts) == Some(s)
  }
}
