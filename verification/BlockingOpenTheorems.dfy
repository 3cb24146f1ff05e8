/** The properties of every run of the step machine. */
module BlockingOpenTheorems {
  import opened CInt
  import opened Options
  import opened DeviceSpec
  import opened BlockingOpen
  import opened BlockingOpenInv
  import opened BlockingOpenRuns
  import opened BlockingOpenCallTheorems

  // ---------------------------------------------------------- lock and queue

  /** In every run a writer excludes everyone, and a thread outside the driver holds no lock and is in
      no queue: every way out of open, read, write and llseek has released what it took. */
  lemma LockDiscipline(s: State, t: nat, u: nat)
    requires Reachable(s) && t < |s.threads| && u < |s.threads| && t != u
    ensures HoldsWrite(s.threads[t].pc) ==> !HoldsWrite(s.threads[u].pc) && !HoldsRead(s.threads[u].pc)
    ensures s.threads[t].pc.Closed? || s.threads[t].pc.Idle? ==>
              s.writer != Some(t) && t !in s.readers && t !in s.queue && !s.threads[t].asleep
  {
    ReachableInv(s);
  }

  /** counter, append, active_opens, the block and its length change only in a step of the thread that
      holds the write lock. */
  lemma DeviceChangesUnderTheWriteLock(s: State, a: Action)
    requires Reachable(s) && Enabled(s, a)
    ensures Apply(s, a).dev == s.dev || (a.Tick? && s.writer == Some(a.t) && s.readers == {})
  {
    if a.Tick? {
      ReachableInv(s);
      TickChangesUnderLock(s, a.t);
    } else {
      CallsLeaveTheDevice(s, a);
    }
  }

  lemma CallsLeaveTheDevice(s: State, a: Action)
    requires Enabled(s, a) && !a.Tick?
    ensures Apply(s, a).dev == s.dev
  {
  }

  lemma TickChangesUnderLock(s: State, t: nat)
    requires t < |s.threads|
    ensures DoTick(s, t).dev != s.dev ==> HoldsWrite(s.threads[t].pc)
  {
    var pc := s.threads[t].pc;
    if InOpen(pc) {
      TickOpenChangesUnderLock(s, t);
    } else if InRead(pc) {
      TickReadChangesNothing(s, t);
    } else if InWrite(pc) {
      TickWriteChangesUnderLock(s, t);
    }
  }

  lemma TickReadChangesNothing(s: State, t: nat)
    requires t < |s.threads|
    ensures TickRead(s, t).dev == s.dev
  {
  }

  lemma TickOpenChangesUnderLock(s: State, t: nat)
    requires t < |s.threads|
    ensures TickOpen(s, t).dev != s.dev ==> HoldsWrite(s.threads[t].pc)
  {
  }

  lemma TickWriteChangesUnderLock(s: State, t: nat)
    requires t < |s.threads|
    ensures TickWrite(s, t).dev != s.dev ==> HoldsWrite(s.threads[t].pc)
  {
  }

  /** The early return on a negative answer, which would leave the caller on the wait queue, is never
      taken: after the recheck a thread is asleep in the queue or about to leave it properly. */
  lemma EarlyReturnIsDead(s: State, t: nat)
    requires Reachable(s) && CanTick(s, t) && s.threads[t].pc.OpenRecheck?
    ensures var pc := Apply(s, Tick(t)).threads[t].pc; pc.OpenSleep? || pc.OpenDequeue?
  {
    UnavailableIsZeroOrOne(s.dev.counter, s.threads[t].flags);
  }

  // ---------------------------------------------------------- blocking open

  /** A read-only opener that queued itself, looked again and went to sleep is still asleep only if the
      device is empty or some writer has yet to issue its wake-up. */
  lemma NoLostWakeup(s: State, i: nat)
    requires Reachable(s) && i < |s.threads| && s.threads[i].pc.OpenSleep? && s.threads[i].asleep
    requires !s.threads[i].flags.trunc
    ensures s.dev.counter == 0 || exists w: nat :: w < |s.threads| && WakePending(s.threads[w].pc)
  {
    ReachableInv(s);
    assert Stuck(s.threads[i]);
  }

  /** A read-only open gets past the waiting loop only while it holds the lock on a device with
      content, and a read-only truncating open never does. */
  lemma ReadOnlyOpenSeesContent(s: State, t: nat)
    requires Reachable(s) && t < |s.threads| && !s.threads[t].flags.writable
    ensures Committing(s.threads[t].pc) ==> s.writer == Some(t) && s.dev.counter > 0
    ensures Committing(s.threads[t].pc) || FileOpen(s.threads[t].pc) ==> !s.threads[t].flags.trunc
  {
    ReachableInv(s);
    assert Fine(s.policy, s.dev, s.len, s.truncs, s.threads[t]);
  }

  /** Hence the device shrinks only when an opener with write access truncates it, to nothing. */
  lemma OnlyWritersShrinkTheDevice(s: State, a: Action)
    requires Reachable(s) && Enabled(s, a)
    ensures var s' := Apply(s, a);
            s.dev.counter <= s'.dev.counter
            || (&& a.Tick? && s.threads[a.t].pc.OpenTruncCounter? && s.threads[a.t].flags.writable
                && s.writer == Some(a.t) && s'.dev.counter == 0)
  {
    ReachableInv(s);
    assert Fine(s.policy, s.dev, s.len, s.truncs, s.threads[a.t]);
    DeviceChangesUnderTheWriteLock(s, a);
    if a.Tick? {
      if InOpen(s.threads[a.t].pc) {
        TickOpenShrinks(s, a.t);
      } else if InWrite(s.threads[a.t].pc) {
        TickWriteShrinks(s, a.t);
      }
    }
  }

  lemma TickOpenShrinks(s: State, t: nat)
    requires t < |s.threads|
    ensures TickOpen(s, t).dev.counter == s.dev.counter
         || (s.threads[t].pc.OpenTruncCounter? && TickOpen(s, t).dev.counter == 0)
  {
  }

  lemma TickWriteShrinks(s: State, t: nat)
    requires t < |s.threads|
    ensures TickWrite(s, t).dev.counter >= s.dev.counter
  {
  }

  // -------------------------------------------------------- serialisability

  /** Whenever no writer is inside, the device is what running the entered write sections one at a
      time, in the order in which they took the lock, makes of the untouched device; every section that
      has been left answered (the outcome of the open, the count or the fault of the write) what it
      answers in that serial run; and every read ever completed is a slice of the state after some
      prefix of it. */
  lemma Serialisable(s: State)
    requires Reachable(s)
    ensures s.writer.None? ==> s.dev == Replay(s.policy, s.hist)
    ensures |s.hist| == |s.answers| + if s.writer.Some? then 1 else 0
    ensures forall k | 0 <= k < |s.answers| ::
              s.answers[k] == SectionAnswer(s.policy, Replay(s.policy, s.hist[..k]), s.hist[k])
    ensures forall k | 0 <= k < |s.log| && s.log[k].outcome.Got? ::
              var r := s.log[k];
              && (r.call.CallRead? || r.call.CallReadAt?) && r.outcome.seen <= |s.hist|
              && r.outcome.data == ReadSlice(Replay(s.policy, s.hist[..r.outcome.seen]), r.from, r.call.count)
  {
    ReachableInv(s);
    forall k | 0 <= k < |s.answers|
      ensures s.answers[k] == SectionAnswer(s.policy, Replay(s.policy, s.hist[..k]), s.hist[k])
    {
      assert s.answers[k] == SerialAnswer(s.policy, s.hist, k);
    }
    forall k | 0 <= k < |s.log| && s.log[k].outcome.Got?
      ensures var r := s.log[k];
              && (r.call.CallRead? || r.call.CallReadAt?) && r.outcome.seen <= |s.hist|
              && r.outcome.data == ReadSlice(Replay(s.policy, s.hist[..r.outcome.seen]), r.from, r.call.count)
    {
      EveryCallIsFaithful(s, k);
    }
  }

  /** The answers grow exactly when a thread gives the write lock back, by what its own call makes of it:
      an open that must wait, has no memory or succeeds, a write with its return value. */
  lemma AnswersAreReturned(s: State, a: Action)
    requires Reachable(s) && Enabled(s, a)
    ensures var s' := Apply(s, a);
            if s.writer.Some? && s'.writer.None? then
              && a.Tick? && s.writer == Some(a.t)
              && var pc' := s'.threads[a.t].pc;
                 match s.threads[a.t].pc
                 case OpenUnlock => s'.answers == s.answers + [MustWait] && pc'.OpenQueue?
                 case OpenRelease(ok) => s'.answers == s.answers + [if pc'.Idle? then Opened else NoMemory] && (pc'.Idle? || pc'.Closed?)
                 case WriteUnlock(retval) => s'.answers == s.answers + [WriteAnswer(retval)] && (retval.Some? <==> pc'.WriteWake?)
                 case _ => false
            else s'.answers == s.answers
  {
    if a.Tick? {
      var pc := s.threads[a.t].pc;
      LockHolder(s, a.t);
      if InOpen(pc) {
        TickOpenAnswers(s, a.t);
      } else if InRead(pc) {
        TickReadRecords(s, a.t);
      } else if InWrite(pc) {
        TickWriteAnswers(s, a.t);
      }
    }
  }

  lemma LockHolder(s: State, t: nat)
    requires Reachable(s) && t < |s.threads|
    ensures HoldsWrite(s.threads[t].pc) <==> s.writer == Some(t)
  {
    ReachableInv(s);
  }

  lemma TickOpenAnswers(s: State, t: nat)
    requires t < |s.threads|
    ensures var s', pc' := TickOpen(s, t), TickOpen(s, t).threads[t].pc;
            match s.threads[t].pc
            case OpenUnlock => s'.writer == None && s'.answers == s.answers + [MustWait] && pc'.OpenQueue?
            case OpenRelease(ok) => s'.writer == None && s'.answers == s.answers + [if pc'.Idle? then Opened else NoMemory] && (pc'.Idle? || pc'.Closed?)
            case _ => s'.answers == s.answers && (s.writer.Some? ==> s'.writer == s.writer)
  {
  }

  lemma TickReadRecords(s: State, t: nat)
    requires t < |s.threads|
    ensures var s' := TickRead(s, t); s'.hist == s.hist && s'.answers == s.answers && s'.writer == s.writer
  {
  }

  lemma TickWriteAnswers(s: State, t: nat)
    requires t < |s.threads|
    ensures var s', pc' := TickWrite(s, t), TickWrite(s, t).threads[t].pc;
            match s.threads[t].pc
            case WriteUnlock(retval) => s'.writer == None && s'.answers == s.answers + [WriteAnswer(retval)] && (retval.Some? <==> pc'.WriteWake?)
            case _ => s'.answers == s.answers && (s.writer.Some? ==> s'.writer == s.writer)
  {
  }

  /** The history grows exactly when a thread takes the write lock, by the section that thread's own
      call is about to run. */
  lemma HistoryIsLockOrder(s: State, a: Action)
    requires Reachable(s) && Enabled(s, a)
    ensures var s' := Apply(s, a);
            if s.writer.None? && s'.writer.Some? then
              && a.Tick? && s'.writer == Some(a.t) && s.readers == {}
              && var th := s.threads[a.t];
                 match th.pc
                 case OpenTry => s'.hist == s.hist + [OpenSec(th.flags, th.grant)]
                 case OpenRelock => s'.hist == s.hist + [ReopenSec(th.flags)]
                 case WriteTry(data) => s'.hist == s.hist + [WriteSec(Offset(th), data)]
                 case _ => false
            else s'.hist == s.hist
  {
    if a.Tick? {
      var pc := s.threads[a.t].pc;
      if InOpen(pc) {
        TickOpenHistory(s, a.t);
      } else if InRead(pc) {
        TickReadRecords(s, a.t);
      } else if InWrite(pc) {
        TickWriteHistory(s, a.t);
      }
    }
  }

  lemma TickOpenHistory(s: State, t: nat)
    requires t < |s.threads|
    ensures var s' := TickOpen(s, t);
            var th := s.threads[t];
            if (th.pc.OpenTry? || th.pc.OpenRelock?) && Free(s) then
              s'.writer == Some(t) && s'.hist == s.hist + [if th.pc.OpenTry? then OpenSec(th.flags, th.grant) else ReopenSec(th.flags)]
            else s'.hist == s.hist && (s'.writer == s.writer || s'.writer == None)
  {
  }

  lemma TickWriteHistory(s: State, t: nat)
    requires t < |s.threads|
    ensures var s' := TickWrite(s, t);
            var th := s.threads[t];
            if th.pc.WriteTry? && Free(s) then s'.writer == Some(t) && s'.hist == s.hist + [WriteSec(Offset(th), th.pc.data)]
            else s'.hist == s.hist && (s'.writer == s.writer || s'.writer == None)
  {
  }

  /** A read that completes has seen every section entered so far, each of them finished; so reads and
      writes that do not overlap are ordered as they happened. */
  lemma ReadSeesEverythingBefore(s: State, t: nat)
    requires Reachable(s) && CanTick(s, t) && s.threads[t].pc.ReadUnlock?
    ensures var s' := Apply(s, Tick(t));
            && s.writer.None? && s.dev == Replay(s.policy, s.hist)
            && |s'.log| == |s.log| + 1 && s'.log[..|s.log|] == s.log
            && s'.log[|s.log|].t == t && s'.log[|s.log|].outcome == Got(s.threads[t].pc.buf, |s.hist|)
  {
    NoWriterBesideReader(s, t);
    ReadUnlockRecords(s, t);
  }

  lemma NoWriterBesideReader(s: State, t: nat)
    requires Reachable(s) && t < |s.threads| && HoldsRead(s.threads[t].pc)
    ensures s.writer.None? && s.dev == Replay(s.policy, s.hist)
  {
    ReachableInv(s);
  }

  lemma ReadUnlockRecords(s: State, t: nat)
    requires t < |s.threads| && s.threads[t].pc.ReadUnlock?
    ensures var log := TickRead(s, t).log;
            && |log| == |s.log| + 1 && log[..|s.log|] == s.log
            && log[|s.log|].t == t && log[|s.log|].outcome == Got(s.threads[t].pc.buf, |s.hist|)
  {
  }

  // ---------------------------------------------------------------- offsets

  /** Until the first truncation after it was opened, a file's own offset stays within the content, also
      while unlocked seeks race with writers and in append mode. */
  lemma OffsetsStayInside(s: State, t: nat)
    requires Reachable(s) && t < |s.threads| && FileOpen(s.threads[t].pc)
    ensures 0 <= s.threads[t].fpos && 0 <= s.dev.counter <= s.dev.allocLen
    ensures s.threads[t].epoch == s.truncs ==> s.threads[t].fpos <= s.dev.counter
  {
    ReachableInv(s);
    assert Fine(s.policy, s.dev, s.len, s.truncs, s.threads[t]);
  }

  /** A write past its guards leaves no gap (all that it will add to the content is its own range) exactly
      if the device is in append mode or the position handed in is not beyond the end; and at the file's own
      offset, with no truncation since the open, that is always so. */
  lemma WriteLeavesNoGapIff(s: State, t: nat)
    requires Reachable(s) && t < |s.threads| && s.threads[t].pc.WriteCopy?
    ensures var th, d := s.threads[t], s.dev;
            var end := Rest(s.policy, d, th).counter;
            && ((forall k | d.counter <= k < end :: Covers(th.pc.pos, |th.pc.data|, k))
                <==> d.append || ToInt(Offset(th)) <= d.counter)
            && (th.ppos.None? && th.epoch == s.truncs ==> Offset(th) <= d.counter)
  {
    ReachableInv(s);
    assert Fine(s.policy, s.dev, s.len, s.truncs, s.threads[t]);
    PlacedNoGapIff(s.policy, s.dev, s.len, s.truncs, s.threads[t]);
  }

  lemma PlacedNoGapIff(policy: Policy, d: Dev, len: int, truncs: nat, th: Thread)
    requires Sound(d, len) && Fine(policy, d, len, truncs, th) && th.pc.WriteCopy?
    ensures (forall k | d.counter <= k < Rest(policy, d, th).counter :: Covers(th.pc.pos, |th.pc.data|, k))
            <==> d.append || ToInt(Offset(th)) <= d.counter
    ensures th.ppos.None? && th.epoch == truncs ==> Offset(th) <= d.counter
  {
    if th.pc.pos > d.counter {
      assert !Covers(th.pc.pos, |th.pc.data|, d.counter);
    }
  }

  // --------------------------------------------------------------- progress

  /** A thread inside a critical section can always move, except into a block that is not there; and
      under the allocation policy the driver describes there always is one. */
  lemma HolderMovesIff(s: State, t: nat)
    requires Reachable(s) && t < |s.threads| && (HoldsWrite(s.threads[t].pc) || HoldsRead(s.threads[t].pc))
    ensures CanTick(s, t) <==> !(Copying(s.threads[t].pc) && s.dev.block.None?)
    ensures s.policy.FirstUse? ==> CanTick(s, t)
  {
    ReachableInv(s);
    assert Fine(s.policy, s.dev, s.len, s.truncs, s.threads[t]);
    HolderMoves(s, t);
  }

  /** At a byte of a copy that is not finished. */
  predicate Copying(pc: Pc) {
    || (pc.ReadCopy? && |pc.buf| < pc.n)
    || (pc.WriteCopy? && pc.i < |pc.data|)
  }

  lemma HolderMoves(s: State, t: nat)
    requires t < |s.threads| && Sound(s.dev, s.len) && Fine(s.policy, s.dev, s.len, s.truncs, s.threads[t])
    requires HoldsWrite(s.threads[t].pc) || HoldsRead(s.threads[t].pc)
    ensures CanTick(s, t) <==> !(Copying(s.threads[t].pc) && s.dev.block.None?)
    ensures s.policy.FirstUse? ==> s.dev.block.Some? || !Copying(s.threads[t].pc)
  {
  }

  /** How many more steps, at most, a thread spends inside its critical section. */
  function Work(pc: Pc): nat {
    match pc
    case OpenAlloc => 8
    case OpenCheck => 7
    case OpenCount => 6
    case OpenAppendOff => 5
    case OpenTruncByte => 4
    case OpenTruncCounter => 3
    case OpenAppendOn => 2
    case OpenUnlock => 1
    case OpenRelease(_) => 1
    case ReadCheck(count) => 4 + Max(0, count)
    case ReadCopy(_, n, buf) => 3 + Max(0, n - |buf|)
    case ReadAdvance(_, _) => 2
    case ReadUnlock(_, _) => 1
    case WriteGuard(data) => 5 + |data|
    case WriteCopy(_, data, i) => 4 + Max(0, |data| - i)
    case WriteCounter(_, _) => 3
    case WriteAdvance(_) => 2
    case WriteUnlock(_) => 1
    case _ => 0
  }

  lemma OpenWorkShrinks(s: State, t: nat)
    requires CanTick(s, t) && InOpen(s.threads[t].pc) && HoldsWrite(s.threads[t].pc)
    ensures Work(TickOpen(s, t).threads[t].pc) < Work(s.threads[t].pc)
  {
  }

  lemma ReadCheckShrinks(s: State, t: nat)
    requires CanTick(s, t) && s.threads[t].pc.ReadCheck?
    requires Sound(s.dev, s.len) && Fine(s.policy, s.dev, s.len, s.truncs, s.threads[t])
    ensures Work(TickRead(s, t).threads[t].pc) < Work(s.threads[t].pc)
  {
    ReadCountExact(Offset(s.threads[t]), s.threads[t].pc.count, s.dev.counter);
  }

  lemma ReadCopyShrinks(s: State, t: nat)
    requires CanTick(s, t) && HoldsRead(s.threads[t].pc) && !s.threads[t].pc.ReadCheck?
    ensures Work(TickRead(s, t).threads[t].pc) < Work(s.threads[t].pc)
  {
  }

  lemma WriteCopyShrinks(s: State, t: nat)
    requires CanTick(s, t) && s.threads[t].pc.WriteCopy?
    ensures Work(TickWrite(s, t).threads[t].pc) < Work(s.threads[t].pc)
  {
  }

  lemma WriteWorkShrinks(s: State, t: nat)
    requires CanTick(s, t) && InWrite(s.threads[t].pc) && HoldsWrite(s.threads[t].pc) && !s.threads[t].pc.WriteCopy?
    ensures Work(TickWrite(s, t).threads[t].pc) < Work(s.threads[t].pc)
  {
  }

  predicate HoldsLock(pc: Pc) {
    HoldsWrite(pc) || HoldsRead(pc)
  }

  /** Whoever is inside a critical section gets out of it on its own: with the described allocation
      policy, stepping that one thread at most Work times makes it release its lock. */
  lemma {:induction false} HolderLetsGo(s: State, t: nat) returns (acts: seq<Action>)
    requires Inv(s) && s.policy.FirstUse? && t < |s.threads| && HoldsLock(s.threads[t].pc)
    ensures |acts| <= Work(s.threads[t].pc) && (forall k | 0 <= k < |acts| :: acts[k] == Tick(t))
    ensures Exec(s, acts).Some? && Inv(Exec(s, acts).value)
    ensures var s' := Exec(s, acts).value; t < |s'.threads| && !HoldsLock(s'.threads[t].pc)
    decreases Work(s.threads[t].pc)
  {
    HolderTick(s, t);
    var s' := Apply(s, Tick(t));
    var rest := [];
    if HoldsLock(s'.threads[t].pc) {
      rest := HolderLetsGo(s', t);
    }
    acts := [Tick(t)] + rest;
    TickFirst(s, t, rest);
  }

  lemma HolderTick(s: State, t: nat)
    requires Inv(s) && s.policy.FirstUse? && t < |s.threads| && HoldsLock(s.threads[t].pc)
    ensures CanTick(s, t)
    ensures var s' := Apply(s, Tick(t));
            && Inv(s') && s'.policy == s.policy && |s'.threads| == |s.threads|
            && Work(s'.threads[t].pc) < Work(s.threads[t].pc)
  {
    assert Fine(s.policy, s.dev, s.len, s.truncs, s.threads[t]);
    HolderMoves(s, t);
    HolderStep(s, t);
    StepKeepsInv(s, Tick(t));
  }

  lemma HolderStep(s: State, t: nat)
    requires CanTick(s, t) && HoldsLock(s.threads[t].pc)
    requires Sound(s.dev, s.len) && Fine(s.policy, s.dev, s.len, s.truncs, s.threads[t])
    ensures var s' := DoTick(s, t);
            && s'.policy == s.policy && |s'.threads| == |s.threads|
            && Work(s'.threads[t].pc) < Work(s.threads[t].pc)
  {
    var pc := s.threads[t].pc;
    if InOpen(pc) {
      OpenWorkShrinks(s, t);
    } else if InRead(pc) {
      if pc.ReadCheck? {
        ReadCheckShrinks(s, t);
      } else {
        ReadCopyShrinks(s, t);
      }
    } else if pc.WriteCopy? {
      WriteCopyShrinks(s, t);
    } else {
      WriteWorkShrinks(s, t);
    }
  }

  /** A sleeper on a device with content is woken: the writer that owes the wake-up delivers it within
      three steps of its own. */
  lemma WakeupArrives(s: State, i: nat) returns (w: nat, acts: seq<Action>)
    requires Reachable(s) && i < |s.threads| && s.threads[i].pc.OpenSleep? && s.threads[i].asleep
    requires !s.threads[i].flags.trunc && s.dev.counter > 0
    ensures |acts| <= 3 && forall k | 0 <= k < |acts| :: acts[k] == Tick(w)
    ensures Exec(s, acts).Some?
    ensures var s' := Exec(s, acts).value;
            i < |s'.threads| && s'.threads[i].pc.OpenSleep? && !s'.threads[i].asleep && CanTick(s', i)
  {
    ReachableInv(s);
    NoLostWakeup(s, i);
    w :| w < |s.threads| && WakePending(s.threads[w].pc);
    acts := DeliverWake(s, i, w);
  }

  lemma DeliverWake(s: State, i: nat, w: nat) returns (acts: seq<Action>)
    requires Inv(s) && i < |s.threads| && s.threads[i].pc.OpenSleep? && s.threads[i].asleep
    requires w < |s.threads| && WakePending(s.threads[w].pc)
    ensures |acts| <= WakeDistance(s.threads[w].pc) && forall k | 0 <= k < |acts| :: acts[k] == Tick(w)
    ensures Exec(s, acts).Some?
    ensures var s' := Exec(s, acts).value;
            i < |s'.threads| && s'.threads[i].pc.OpenSleep? && !s'.threads[i].asleep
    decreases WakeDistance(s.threads[w].pc)
  {
    var s' := Apply(s, Tick(w));
    StepKeepsInv(s, Tick(w));
    WakeTick(s, i, w);
    var rest := [];
    if !s.threads[w].pc.WriteWake? {
      rest := DeliverWake(s', i, w);
    }
    acts := [Tick(w)] + rest;
    TickFirst(s, w, rest);
  }

  lemma WakeTick(s: State, i: nat, w: nat)
    requires i < |s.threads| && s.threads[i].pc.OpenSleep? && s.threads[i].asleep && i in s.queue
    requires w < |s.threads| && WakePending(s.threads[w].pc)
    ensures CanTick(s, w)
    ensures var s' := Apply(s, Tick(w));
            && |s'.threads| == |s.threads| && s'.threads[i].pc.OpenSleep?
            && if s.threads[w].pc.WriteWake? then !s'.threads[i].asleep
               else s'.threads[i].asleep && WakePending(s'.threads[w].pc)
                    && WakeDistance(s'.threads[w].pc) < WakeDistance(s.threads[w].pc)
  {
  }

  function WakeDistance(pc: Pc): nat {
    match pc
    case WriteAdvance(_) => 3
    case WriteUnlock(_) => 2
    case WriteWake => 1
    case _ => 0
  }

  /** Between raising counter and waking the queue a writer leaves sleepers behind on a device that
      already has content. */
  lemma CounterRisesBeforeWake(s: State, i: nat, w: nat)
    requires Reachable(s) && i < |s.threads| && s.threads[i].pc.OpenSleep? && s.threads[i].asleep
    requires CanTick(s, w) && s.threads[w].pc.WriteCounter? && s.dev.counter == 0 && s.threads[w].pc.data != []
    ensures var s' := Apply(s, Tick(w));
            s'.dev.counter > 0 && s'.threads[i] == s.threads[i] && |s'.threads| == |s.threads| && WakePending(s'.threads[w].pc)
  {
    WriterPlaced(s, w);
    var pc := s.threads[w].pc;
    WriteGuardsExact(pc.pos, |pc.data|, s.dev.allocLen);
  }

  lemma WriterPlaced(s: State, w: nat)
    requires Reachable(s) && w < |s.threads| && s.threads[w].pc.WriteCounter?
    ensures var pc := s.threads[w].pc;
            Placed(s.dev, s.threads[w], pc.pos, |pc.data|) && |pc.data| <= MAX_RW_COUNT && Sound(s.dev, s.len)
  {
    ReachableInv(s);
    assert Fine(s.policy, s.dev, s.len, s.truncs, s.threads[w]);
  }

  /** A read-only opener on its way out of the waiting loop: it has been woken, there is content, no
      signal is pending, and either the lock is free or the opener has it. */
  ghost predicate OnItsWay(s: State, i: nat) {
    && Inv(s) && i < |s.threads| && s.dev.counter > 0
    && var th := s.threads[i];
       && !th.flags.writable && !th.flags.trunc && !th.signal
       && (|| th.pc.OpenCheck? || Committing(th.pc)
           || (Free(s) && ((th.pc.OpenSleep? && !th.asleep) || th.pc.OpenDequeue? || th.pc.OpenSignal? || th.pc.OpenRelock?)))
  }

  function StepsToOpen(pc: Pc): nat {
    match pc
    case OpenSleep => 9
    case OpenDequeue => 8
    case OpenSignal => 7
    case OpenRelock => 6
    case OpenCheck => 5
    case OpenCount => 4
    case OpenAppendOff => 3
    case OpenTruncByte => 3
    case OpenTruncCounter => 3
    case OpenAppendOn => 2
    case OpenRelease(_) => 1
    case _ => 0
  }

  lemma OnItsWayStep(s: State, i: nat)
    requires OnItsWay(s, i)
    ensures CanTick(s, i)
    ensures var s' := Apply(s, Tick(i));
            && StepsToOpen(s'.threads[i].pc) < StepsToOpen(s.threads[i].pc)
            && (OnItsWay(s', i) || s'.threads[i].pc.Idle?)
  {
    var th := s.threads[i];
    assert Fine(s.policy, s.dev, s.len, s.truncs, th);
    StepKeepsInv(s, Tick(i));
    OnItsWayTick(s, i);
  }

  lemma OnItsWayTick(s: State, i: nat)
    requires CanTick(s, i) && s.dev.counter > 0
    requires var th := s.threads[i];
       && !th.flags.writable && !th.flags.trunc && !th.signal
       && (|| th.pc.OpenCheck? || (Committing(th.pc) && !th.pc.OpenTruncByte? && !th.pc.OpenTruncCounter?)
           || (Free(s) && ((th.pc.OpenSleep? && !th.asleep) || th.pc.OpenDequeue? || th.pc.OpenSignal? || th.pc.OpenRelock?)))
    ensures var s', th' := TickOpen(s, i), TickOpen(s, i).threads[i];
            && |s'.threads| == |s.threads| && s'.dev.counter == s.dev.counter
            && StepsToOpen(th'.pc) < StepsToOpen(s.threads[i].pc)
            && th'.flags == s.threads[i].flags && !th'.signal
            && (|| th'.pc.OpenCheck? || Committing(th'.pc) || th'.pc.Idle?
                || (Free(s') && (th'.pc.OpenDequeue? || th'.pc.OpenSignal? || th'.pc.OpenRelock?)))
  {
  }

  /** Left alone, a woken opener that finds the lock free and no signal pending completes its open. */
  lemma {:induction false} WokenOpenerOpens(s: State, i: nat) returns (acts: seq<Action>)
    requires OnItsWay(s, i)
    ensures |acts| <= 9 && forall k | 0 <= k < |acts| :: acts[k] == Tick(i)
    ensures Exec(s, acts).Some? && i < |Exec(s, acts).value.threads| && Exec(s, acts).value.threads[i].pc.Idle?
    ensures |acts| <= StepsToOpen(s.threads[i].pc)
    decreases StepsToOpen(s.threads[i].pc)
  {
    OnItsWayStep(s, i);
    var s' := Apply(s, Tick(i));
    var rest := [];
    if !s'.threads[i].pc.Idle? {
      rest := WokenOpenerOpens(s', i);
    }
    acts := [Tick(i)] + rest;
    TickFirst(s, i, rest);
  }
}
