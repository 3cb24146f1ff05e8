/** The invariant of the step machine and its preservation. Each line of the driver is shown to make a
    Move (a summary of what one thread may do to the shared state), and every Move keeps the invariant. */
module BlockingOpenInv {
  import opened CInt
  import opened Options
  import opened DeviceSpec
  import opened BlockingOpen

  // ------------------------------------------------- program counters

  predicate HoldsWrite(pc: Pc) {
    || pc.OpenAlloc? || pc.OpenCheck? || pc.OpenUnlock? || pc.OpenCount? || pc.OpenAppendOff?
    || pc.OpenTruncByte? || pc.OpenTruncCounter? || pc.OpenAppendOn? || pc.OpenRelease?
    || pc.WriteGuard? || pc.WriteCopy? || pc.WriteCounter? || pc.WriteAdvance? || pc.WriteUnlock?
  }

  predicate HoldsRead(pc: Pc) {
    pc.ReadCheck? || pc.ReadCopy? || pc.ReadAdvance? || pc.ReadUnlock?
  }

  /** Between prepare_to_wait and finish_wait. */
  predicate Queued(pc: Pc) {
    pc.OpenRecheck? || pc.OpenSleep? || pc.OpenDequeue?
  }

  /** Inside the waiting loop, where only a read-only opener can be. */
  predicate Waiting(pc: Pc) {
    pc.OpenUnlock? || pc.OpenQueue? || Queued(pc) || pc.OpenSignal? || pc.OpenRelock?
  }

  /** Past the waiting loop, still under the lock of the successful open. */
  predicate Committing(pc: Pc) {
    || pc.OpenCount? || pc.OpenAppendOff? || pc.OpenTruncByte? || pc.OpenTruncCounter? || pc.OpenAppendOn?
    || pc == OpenRelease(true)
  }

  predicate FileOpen(pc: Pc) {
    pc.Idle? || InRead(pc) || InWrite(pc) || pc.SeekRead? || pc.SeekStore?
  }

  predicate HasStorage(pc: Pc) {
    !pc.Closed? && !pc.OpenTry? && !pc.OpenAlloc? && pc != OpenRelease(false)
  }

  /** The writer has raised counter, or may have, and will still issue its wake-up. */
  predicate WakePending(pc: Pc) {
    pc.WriteAdvance? || (pc.WriteUnlock? && pc.retval.Some?) || pc.WriteWake?
  }

  // -------------------------------------------------------- invariants

  /** The semaphore agrees with the program counters; a writer excludes everyone. */
  ghost predicate LockInv(s: State) {
    && (forall i | 0 <= i < |s.threads| :: HoldsWrite(s.threads[i].pc) <==> s.writer == Some(i))
    && (forall i | 0 <= i < |s.threads| :: HoldsRead(s.threads[i].pc) <==> i in s.readers)
    && (s.writer.Some? ==> s.writer.value < |s.threads| && s.readers == {})
    && (forall i | i in s.readers :: i < |s.threads|)
  }

  /** Only a thread between prepare_to_wait and finish_wait is queued, and only a queued one sleeps. */
  ghost predicate QueueInv(s: State) {
    && (forall i | i in s.queue :: i < |s.threads|)
    && (forall i | 0 <= i < |s.threads| ::
          && (i in s.queue ==> Queued(s.threads[i].pc))
          && (s.threads[i].asleep ==> i in s.queue))
  }

  predicate Stuck(th: Thread) {
    th.pc.OpenSleep? && th.asleep && !th.flags.trunc
  }

  /** No lost wake-up. */
  ghost predicate WakeInv(s: State) {
    forall i | 0 <= i < |s.threads| && Stuck(s.threads[i]) ::
      s.dev.counter == 0 || exists w :: 0 <= w < |s.threads| && WakePending(s.threads[w].pc)
  }

  /** What each thread knows at its program counter, given the device and the truncation count. */
  predicate Fine(policy: Policy, d: Dev, len: int, truncs: nat, th: Thread) {
    && (InOpen(th.pc) && th.grant.Some? ==> |th.grant.value| == len)
    && (policy.FirstUse? && HasStorage(th.pc) ==> d.block.Some?)
    && OpenFine(d, th)
    && (th.ppos.Some? ==> 0 <= th.ppos.value)
    && (FileOpen(th.pc) ==> 0 <= th.fpos && th.epoch <= truncs)
    && (FileOpen(th.pc) && th.epoch == truncs ==> th.fpos <= d.counter)
    && ReadFine(d, th)
    && WriteFine(d, truncs, th)
  }

  predicate OpenFine(d: Dev, th: Thread) {
    var f := th.flags;
    && (Waiting(th.pc) ==> !f.writable)
    && (Committing(th.pc) || FileOpen(th.pc) ==> f.writable || !f.trunc)
    && (Committing(th.pc) && !f.writable ==> d.counter > 0)
    && (th.pc.OpenCheck? && f.writable ==> d.block.Some?)
    && ((th.pc.OpenCount? || th.pc.OpenAppendOff?) && f.trunc ==> d.block.Some?)
    && (th.pc.OpenTruncByte? ==> f.trunc && !d.append && d.block.Some?)
    && (th.pc.OpenTruncCounter? ==> f.trunc && !d.append)
    && (th.pc.OpenAppendOn? ==> f.append)
  }

  predicate ReadFine(d: Dev, th: Thread) {
    match th.pc
    case ReadLock(count) => Position(Offset(th), count)
    case ReadCheck(count) => Position(Offset(th), count)
    case ReadCopy(count, n, buf) =>
      0 < n == Min(count, d.counter - Offset(th)) && |buf| <= n && buf == ReadSlice(d, Offset(th), |buf|)
    case ReadAdvance(count, buf) => buf == ReadSlice(d, Offset(th), count)
    case ReadUnlock(count, buf) => |buf| <= Offset(th) && buf == ReadSlice(d, Offset(th) - |buf|, count)
    case _ => true
  }

  predicate WriteFine(d: Dev, truncs: nat, th: Thread) {
    match th.pc
    case WriteTry(data) => |data| <= MAX_RW_COUNT
    case WriteGuard(data) => |data| <= MAX_RW_COUNT
    case WriteCopy(pos, data, i) => i <= |data| <= MAX_RW_COUNT && Placed(d, th, pos, |data|)
    case WriteCounter(pos, data) => |data| <= MAX_RW_COUNT && Placed(d, th, pos, |data|)
    case WriteAdvance(data) => th.epoch == truncs && th.ppos.None? ==> th.fpos + |data| <= d.counter
    case _ => true
  }

  /** An accepted write lies in the block, at the place the position handed in asks for. */
  predicate Placed(d: Dev, th: Thread, pos: int, count: int) {
    pos == WritePos(d, Offset(th)) && InBuffer(pos, count, d.allocLen)
  }

  ghost predicate ThreadsInv(s: State) {
    && Sound(s.dev, s.len)
    && forall i | 0 <= i < |s.threads| :: Fine(s.policy, s.dev, s.len, s.truncs, s.threads[i])
  }

  // ------------------------------------------------ one section at a time

  function RunSection(policy: Policy, d: Dev, sec: Section): Dev {
    match sec
    case OpenSec(f, grant) => OpenSection(policy, d, f, grant)
    case ReopenSec(f) => WaitSection(d, f)
    case WriteSec(fpos, data) => WriteSection(d, fpos, data)
  }

  /** The device after running write sections one at a time, in the order given. */
  function Replay(policy: Policy, hist: seq<Section>): Dev {
    if hist == [] then UNTOUCHED
    else RunSection(policy, Replay(policy, hist[..|hist| - 1]), hist[|hist| - 1])
  }

  /** The device as it will be when the holder of the write lock, now at th.pc, lets go of it. */
  function Rest(policy: Policy, d: Dev, th: Thread): Dev {
    var f := th.flags;
    match th.pc
    case OpenAlloc => OpenSection(policy, d, f, th.grant)
    case OpenCheck => WaitSection(d, f)
    case OpenCount => Commit(d, f)
    case OpenAppendOff => Cut(d, f).(append := f.append)
    case OpenTruncByte => Cut(d, f).(append := f.append)
    case OpenTruncCounter => d.(counter := 0, append := f.append)
    case OpenAppendOn => d.(append := true)
    case WriteGuard(data) => WriteSection(d, Offset(th), data)
    case WriteCopy(pos, data, i) =>
      d.(block := if i <= |data| then Overwrite(d.block, pos + i, data[i..]) else d.block, counter := Max(d.counter, pos + |data|))
    case WriteCounter(pos, data) => d.(counter := Max(d.counter, pos + |data|))
    case _ => d
  }

  function Cut(d: Dev, f: Flags): Dev {
    if f.trunc then d.(block := ClearFirst(d.block), counter := 0) else d
  }

  /** The shared device is the serial replay of the sections entered so far, up to what the current
      holder of the write lock has still to do. */
  ghost predicate SerialInv(s: State) {
    && (s.writer.None? ==> s.dev == Replay(s.policy, s.hist))
    && (s.writer.Some? ==> s.writer.value < |s.threads|
                           && Rest(s.policy, s.dev, s.threads[s.writer.value]) == Replay(s.policy, s.hist))
  }

  /** What a section answers when it runs on device d with nothing in between. */
  function SectionAnswer(policy: Policy, d: Dev, sec: Section): Answer {
    match sec
    case OpenSec(f, grant) =>
      var a := AllocStep(policy, d, grant);
      if a.block.None? then NoMemory else WaitAnswer(a, f)
    case ReopenSec(f) => WaitAnswer(d, f)
    case WriteSec(fpos, data) => if InBuffer(WritePos(d, fpos), |data|, d.allocLen) then Wrote(|data|) else Fault
  }

  function WaitAnswer(d: Dev, f: Flags): Answer {
    if Unavailable(d.counter, f) != 0 then MustWait else Opened
  }

  /** What the holder of the write lock, now at th.pc, will answer when it lets go of it. */
  function RestAnswer(policy: Policy, d: Dev, th: Thread): Answer {
    match th.pc
    case OpenAlloc => SectionAnswer(policy, d, OpenSec(th.flags, th.grant))
    case OpenCheck => WaitAnswer(d, th.flags)
    case OpenUnlock => MustWait
    case OpenRelease(ok) => if ok then Opened else NoMemory
    case WriteGuard(data) => SectionAnswer(policy, d, WriteSec(Offset(th), data))
    case WriteCopy(_, data, _) => Wrote(|data|)
    case WriteCounter(_, data) => Wrote(|data|)
    case WriteAdvance(data) => Wrote(|data|)
    case WriteUnlock(retval) => WriteAnswer(retval)
    case _ => Opened
  }

  /** What section k of the history answers in the serial run. */
  function SerialAnswer(policy: Policy, hist: seq<Section>, k: nat): Answer
    requires k < |hist|
  {
    SectionAnswer(policy, Replay(policy, hist[..k]), hist[k])
  }

  /** Every section that has been left gave the answer it gives in the serial run; and the one that has
      not, if a writer is inside, is on its way to it. */
  ghost predicate AnswerInv(s: State) {
    && (s.writer.None? ==> |s.answers| == |s.hist|)
    && (s.writer.Some? ==>
          && s.writer.value < |s.threads| && |s.answers| + 1 == |s.hist|
          && RestAnswer(s.policy, s.dev, s.threads[s.writer.value]) == SerialAnswer(s.policy, s.hist, |s.answers|))
    && (forall k | 0 <= k < |s.answers| :: k < |s.hist| && s.answers[k] == SerialAnswer(s.policy, s.hist, k))
  }

  ghost predicate Inv(s: State) {
    LockInv(s) && QueueInv(s) && WakeInv(s) && ThreadsInv(s) && SerialInv(s) && AnswerInv(s)
  }

  // ------------------------------------------------------------- moves

  /** A step of thread t changes no other thread, except that a wake-up may end its sleep. */
  ghost predicate Local(s: State, s': State, t: nat) {
    && t < |s.threads| == |s'.threads|
    && s'.policy == s.policy && s'.len == s.len
    && (forall i | 0 <= i < |s.threads| && i != t ::
          && s'.threads[i] == s.threads[i].(asleep := s'.threads[i].asleep)
          && (s'.threads[i].asleep ==> s.threads[i].asleep))
  }

  ghost predicate LockMove(s: State, s': State, t: nat)
    requires t < |s.threads| == |s'.threads|
  {
    var pc, pc' := s.threads[t].pc, s'.threads[t].pc;
    || (s'.writer == s.writer && s'.readers == s.readers
        && HoldsWrite(pc) == HoldsWrite(pc') && HoldsRead(pc) == HoldsRead(pc'))
    || (Free(s) && s'.writer == Some(t) && s'.readers == s.readers && HoldsWrite(pc') && !HoldsRead(pc'))
    || (HoldsWrite(pc) && s'.writer == None && s'.readers == s.readers && !HoldsWrite(pc') && !HoldsRead(pc'))
    || (s.writer == None && s'.writer == None && s'.readers == s.readers + {t} && !HoldsWrite(pc') && HoldsRead(pc'))
    || (HoldsRead(pc) && s'.writer == s.writer && s'.readers == s.readers - {t} && !HoldsWrite(pc') && !HoldsRead(pc'))
  }

  ghost predicate QueueMove(s: State, s': State, t: nat)
    requires t < |s.threads| == |s'.threads|
  {
    var th, th' := s.threads[t], s'.threads[t];
    || (s'.queue == s.queue && (t in s.queue ==> Queued(th'.pc)) && (th'.asleep ==> th.asleep))
    || (s'.queue == s.queue + {t} && Queued(th'.pc))
    || (s'.queue == s.queue - {t} && !th'.asleep)
    || (s'.queue == {} && forall i | 0 <= i < |s'.threads| :: !s'.threads[i].asleep)
  }

  ghost predicate WakeMove(s: State, s': State, t: nat)
    requires t < |s.threads| == |s'.threads|
  {
    && (s'.dev.counter == 0 || s'.dev.counter == s.dev.counter || WakePending(s'.threads[t].pc))
    && (WakePending(s.threads[t].pc) ==>
          WakePending(s'.threads[t].pc) || forall i | 0 <= i < |s'.threads| :: !s'.threads[i].asleep)
    && (Stuck(s'.threads[t]) ==> Stuck(s.threads[t]) || s'.dev.counter == 0)
  }

  ghost predicate DevMove(s: State, s': State, t: nat)
    requires t < |s.threads| == |s'.threads|
  {
    && Sound(s'.dev, s'.len)
    && Fine(s'.policy, s'.dev, s'.len, s'.truncs, s'.threads[t])
    && (|| (s'.dev == s.dev && s'.truncs == s.truncs)
        || (&& HoldsWrite(s.threads[t].pc) && s.truncs <= s'.truncs
            && (s'.truncs == s.truncs ==> s.dev.counter <= s'.dev.counter)
            && (s.policy.FirstUse? && s.dev.block.Some? ==> s'.dev.block.Some?)))
  }

  ghost predicate SerialMove(s: State, s': State, t: nat)
    requires t < |s.threads| == |s'.threads|
  {
    var th, th' := s.threads[t], s'.threads[t];
    || (s'.hist == s.hist
        && (HoldsWrite(th.pc) ==> Rest(s.policy, s'.dev, th') == Rest(s.policy, s.dev, th))
        && (!HoldsWrite(th'.pc) ==> Rest(s.policy, s'.dev, th') == s'.dev)
        && (!HoldsWrite(th.pc) ==> s'.dev == s.dev && !HoldsWrite(th'.pc)))
    || (|s'.hist| == |s.hist| + 1 && s'.hist[..|s.hist|] == s.hist && s'.dev == s.dev && Free(s) && s'.writer == Some(t)
        && Rest(s.policy, s'.dev, th') == RunSection(s.policy, s.dev, s'.hist[|s.hist|]))
  }

  ghost predicate AnswerMove(s: State, s': State, t: nat)
    requires t < |s.threads| == |s'.threads|
  {
    var th, th' := s.threads[t], s'.threads[t];
    || (s'.hist == s.hist && s'.answers == s.answers && s'.writer == s.writer
        && (if HoldsWrite(th.pc) then RestAnswer(s.policy, s'.dev, th') == RestAnswer(s.policy, s.dev, th) else s'.dev == s.dev))
    || (|s'.hist| == |s.hist| + 1 && s'.hist[..|s.hist|] == s.hist && s'.answers == s.answers && Free(s) && s'.writer == Some(t)
        && RestAnswer(s.policy, s'.dev, th') == SectionAnswer(s.policy, s.dev, s'.hist[|s.hist|]))
    || (s'.hist == s.hist && HoldsWrite(th.pc) && s'.writer == None
        && s'.answers == s.answers + [RestAnswer(s.policy, s.dev, th)])
  }

  /** What a step does to the semaphore, the wait queue and sleeping threads. */
  ghost predicate ControlMove(s: State, s': State, t: nat) {
    Local(s, s', t) && LockMove(s, s', t) && QueueMove(s, s', t) && WakeMove(s, s', t)
  }

  /** What it does to the device and the history. */
  ghost predicate DataMove(s: State, s': State, t: nat)
    requires t < |s.threads| == |s'.threads|
  {
    DevMove(s, s', t) && SerialMove(s, s', t)
  }

  lemma MoveKeepsLock(s: State, s': State, t: nat)
    requires LockInv(s) && Local(s, s', t) && LockMove(s, s', t)
    ensures LockInv(s')
  {
  }

  lemma MoveKeepsQueue(s: State, s': State, t: nat)
    requires QueueInv(s) && Local(s, s', t) && QueueMove(s, s', t)
    ensures QueueInv(s')
  {
  }

  lemma MoveKeepsWake(s: State, s': State, t: nat)
    requires WakeInv(s) && Local(s, s', t) && WakeMove(s, s', t)
    ensures WakeInv(s')
  {
    forall i | 0 <= i < |s'.threads| && Stuck(s'.threads[i])
      ensures s'.dev.counter == 0 || exists w :: 0 <= w < |s'.threads| && WakePending(s'.threads[w].pc)
    {
      if s'.dev.counter != 0 && !WakePending(s'.threads[t].pc) {
        assert Stuck(s.threads[i]);
        var w :| 0 <= w < |s.threads| && WakePending(s.threads[w].pc);
        assert WakePending(s'.threads[w].pc);
      }
    }
  }

  lemma MoveKeepsThreads(s: State, s': State, t: nat)
    requires LockInv(s) && ThreadsInv(s) && Local(s, s', t) && DevMove(s, s', t)
    ensures ThreadsInv(s')
  {
    forall i | 0 <= i < |s'.threads| ensures Fine(s'.policy, s'.dev, s'.len, s'.truncs, s'.threads[i]) {
      if i != t {
        var th := s.threads[i];
        assert Fine(s.policy, s.dev, s.len, s.truncs, th);
        if s'.dev != s.dev || s'.truncs != s.truncs {
          assert !HoldsWrite(th.pc) && !HoldsRead(th.pc);
        }
      }
    }
  }

  lemma ReplayStep(policy: Policy, hist: seq<Section>, hist': seq<Section>)
    requires |hist'| == |hist| + 1 && hist'[..|hist|] == hist
    ensures Replay(policy, hist') == RunSection(policy, Replay(policy, hist), hist'[|hist|])
  {
  }

  lemma MoveKeepsSerial(s: State, s': State, t: nat)
    requires LockInv(s) && LockInv(s') && SerialInv(s) && Local(s, s', t) && SerialMove(s, s', t)
    ensures SerialInv(s')
  {
    if s'.hist != s.hist {
      ReplayStep(s.policy, s.hist, s'.hist);
    } else if s'.writer.Some? && s'.writer.value != t {
      var w := s'.writer.value;
      assert HoldsWrite(s.threads[w].pc);
    }
  }

  lemma SerialAnswerKept(policy: Policy, hist: seq<Section>, hist': seq<Section>, k: nat)
    requires k < |hist| <= |hist'| && hist'[..|hist|] == hist
    ensures SerialAnswer(policy, hist', k) == SerialAnswer(policy, hist, k)
  {
    assert hist'[..k] == hist[..k];
    assert hist'[k] == hist'[..|hist|][k];
  }

  lemma MoveKeepsAnswers(s: State, s': State, t: nat)
    requires LockInv(s) && SerialInv(s) && AnswerInv(s) && Local(s, s', t) && AnswerMove(s, s', t)
    ensures AnswerInv(s')
  {
    if s'.hist != s.hist {
      assert s'.hist[..|s.hist|] == s.hist;
      forall k: nat | k < |s.hist| ensures SerialAnswer(s.policy, s'.hist, k) == SerialAnswer(s.policy, s.hist, k) {
        SerialAnswerKept(s.policy, s.hist, s'.hist, k);
      }
    } else if s'.writer.Some? && s'.writer.value != t {
      assert HoldsWrite(s.threads[s'.writer.value].pc);
    }
  }

  lemma MoveKeepsInv(s: State, s': State, t: nat)
    requires Inv(s) && ControlMove(s, s', t) && DataMove(s, s', t) && AnswerMove(s, s', t)
    ensures Inv(s')
  {
    MoveKeepsLock(s, s', t);
    MoveKeepsQueue(s, s', t);
    MoveKeepsWake(s, s', t);
    MoveKeepsThreads(s, s', t);
    MoveKeepsSerial(s, s', t);
    MoveKeepsAnswers(s, s', t);
  }
}
