/** Every line of the driver is a Move of the invariant proof. */
module BlockingOpenSteps {
  import opened CInt
  import opened Options
  import opened DeviceSpec
  import opened BlockingOpen
  import opened BlockingOpenInv

  /** The part of the invariant that concerns the thread about to move. */
  ghost predicate Ready(s: State, t: nat) {
    && CanTick(s, t)
    && Sound(s.dev, s.len)
    && Fine(s.policy, s.dev, s.len, s.truncs, s.threads[t])
    && (HoldsWrite(s.threads[t].pc) <==> s.writer == Some(t))
    && (HoldsRead(s.threads[t].pc) <==> t in s.readers)
    && (s.writer.Some? ==> s.readers == {})
    && (t in s.queue ==> Queued(s.threads[t].pc))
    && (s.threads[t].asleep ==> t in s.queue)
  }

  // ------------------------- semaphore, queue and sleep, line by line

  lemma TakeLockControl(s: State, t: nat)
    requires Ready(s, t)
    requires var pc := s.threads[t].pc; pc.OpenTry? || pc.OpenRelock?
    ensures ControlMove(s, TickOpen(s, t), t)
  {
  }

  lemma HoldControl(s: State, t: nat)
    requires Ready(s, t)
    requires var pc := s.threads[t].pc; pc.OpenAlloc? || pc.OpenCheck? || pc.OpenCount?
    ensures ControlMove(s, TickOpen(s, t), t)
  {
  }

  lemma CommitControl(s: State, t: nat)
    requires Ready(s, t)
    requires var pc := s.threads[t].pc; pc.OpenAppendOff? || pc.OpenTruncByte? || pc.OpenTruncCounter? || pc.OpenAppendOn?
    ensures ControlMove(s, TickOpen(s, t), t)
  {
  }

  lemma GiveUpControl(s: State, t: nat)
    requires Ready(s, t) && s.threads[t].pc.OpenUnlock?
    ensures ControlMove(s, TickOpen(s, t), t)
  {
  }

  lemma ReleaseControl(s: State, t: nat)
    requires Ready(s, t) && s.threads[t].pc.OpenRelease?
    ensures ControlMove(s, TickOpen(s, t), t)
  {
  }

  lemma QueueControl(s: State, t: nat)
    requires Ready(s, t) && s.threads[t].pc.OpenQueue?
    ensures ControlMove(s, TickOpen(s, t), t)
  {
  }

  lemma SleepControl(s: State, t: nat)
    requires Ready(s, t) && s.threads[t].pc.OpenRecheck?
    ensures ControlMove(s, TickOpen(s, t), t)
  {
  }

  lemma WokenControl(s: State, t: nat)
    requires Ready(s, t) && s.threads[t].pc.OpenSleep?
    ensures ControlMove(s, TickOpen(s, t), t)
  {
  }

  lemma WakeControl(s: State, t: nat)
    requires Ready(s, t)
    requires var pc := s.threads[t].pc; pc.OpenDequeue? || pc.OpenSignal?
    ensures ControlMove(s, TickOpen(s, t), t)
  {
  }

  lemma ReadControl(s: State, t: nat)
    requires Ready(s, t)
    requires var pc := s.threads[t].pc; pc.ReadLock? || pc.ReadCheck? || pc.ReadCopy?
    ensures ControlMove(s, TickRead(s, t), t)
  {
  }

  lemma ReadDoneControl(s: State, t: nat)
    requires Ready(s, t)
    requires var pc := s.threads[t].pc; pc.ReadAdvance? || pc.ReadUnlock?
    ensures ControlMove(s, TickRead(s, t), t)
  {
  }

  lemma WriteEnterControl(s: State, t: nat)
    requires Ready(s, t) && s.threads[t].pc.WriteTry?
    ensures ControlMove(s, TickWrite(s, t), t)
  {
  }

  lemma WriteControl(s: State, t: nat)
    requires Ready(s, t)
    requires var pc := s.threads[t].pc; pc.WriteGuard? || pc.WriteCopy?
    ensures ControlMove(s, TickWrite(s, t), t)
  {
  }

  lemma WriteDoneControl(s: State, t: nat)
    requires Ready(s, t)
    requires var pc := s.threads[t].pc; pc.WriteCounter? || pc.WriteAdvance? || pc.WriteUnlock?
    ensures ControlMove(s, TickWrite(s, t), t)
  {
  }

  lemma WakeAllQueue(s: State, t: nat)
    requires Ready(s, t) && QueueInv(s) && s.threads[t].pc.WriteWake?
    ensures var s' := TickWrite(s, t);
            && |s'.threads| == |s.threads| && s'.queue == {} && s'.threads[t] == s.threads[t].(pc := Idle)
            && (forall i | 0 <= i < |s.threads| :: !s'.threads[i].asleep)
            && (forall i | 0 <= i < |s.threads| && i != t :: s'.threads[i] == s.threads[i].(asleep := false))
  {
  }

  lemma WakeAllControl(s: State, t: nat)
    requires Ready(s, t) && QueueInv(s) && s.threads[t].pc.WriteWake?
    ensures ControlMove(s, TickWrite(s, t), t)
  {
    WakeAllQueue(s, t);
  }

  lemma SeekControl(s: State, t: nat)
    requires Ready(s, t)
    requires var pc := s.threads[t].pc; pc.SeekRead? || pc.SeekStore?
    ensures ControlMove(s, TickSeek(s, t), t)
  {
  }

  // -------------------------- what sections answer, line by line

  /** Lines outside every write section. */
  predicate Outside(pc: Pc) {
    !HoldsWrite(pc) && !pc.OpenTry? && !pc.OpenRelock? && !pc.WriteTry?
  }

  lemma OpenEntryAnswers(s: State, t: nat)
    requires Ready(s, t)
    requires var pc := s.threads[t].pc; pc.OpenTry? || pc.OpenRelock?
    ensures AnswerMove(s, TickOpen(s, t), t)
  {
  }

  lemma OpenHoldAnswers(s: State, t: nat)
    requires Ready(s, t)
    requires var pc := s.threads[t].pc; pc.OpenAlloc? || pc.OpenCheck?
    ensures AnswerMove(s, TickOpen(s, t), t)
  {
  }

  lemma OpenCommitAnswers(s: State, t: nat)
    requires Ready(s, t)
    requires var pc := s.threads[t].pc; pc.OpenCount? || pc.OpenAppendOff? || pc.OpenTruncByte? || pc.OpenTruncCounter? || pc.OpenAppendOn?
    ensures AnswerMove(s, TickOpen(s, t), t)
  {
  }

  lemma OpenExitAnswers(s: State, t: nat)
    requires Ready(s, t)
    requires var pc := s.threads[t].pc; pc.OpenUnlock? || pc.OpenRelease?
    ensures AnswerMove(s, TickOpen(s, t), t)
  {
  }

  lemma WriteEntryAnswers(s: State, t: nat)
    requires Ready(s, t)
    requires var pc := s.threads[t].pc; pc.WriteTry? || pc.WriteUnlock?
    ensures AnswerMove(s, TickWrite(s, t), t)
  {
  }

  lemma WriteGuardAnswers(s: State, t: nat)
    requires Ready(s, t) && s.threads[t].pc.WriteGuard?
    ensures AnswerMove(s, TickWrite(s, t), t)
  {
    WriteGuardsExact(WritePos(s.dev, Offset(s.threads[t])), |s.threads[t].pc.data|, s.dev.allocLen);
  }

  lemma WriteHoldAnswers(s: State, t: nat)
    requires Ready(s, t)
    requires var pc := s.threads[t].pc; pc.WriteCopy? || pc.WriteCounter? || pc.WriteAdvance?
    ensures AnswerMove(s, TickWrite(s, t), t)
  {
  }

  lemma OpenOutsideAnswers(s: State, t: nat)
    requires Ready(s, t) && InOpen(s.threads[t].pc) && Outside(s.threads[t].pc)
    ensures AnswerMove(s, TickOpen(s, t), t)
  {
  }

  lemma ReadAnswers(s: State, t: nat)
    requires Ready(s, t) && InRead(s.threads[t].pc)
    ensures AnswerMove(s, TickRead(s, t), t)
  {
  }

  lemma WriteOutsideAnswers(s: State, t: nat)
    requires Ready(s, t) && s.threads[t].pc.WriteWake?
    ensures AnswerMove(s, TickWrite(s, t), t)
  {
  }

  lemma SeekAnswers(s: State, t: nat)
    requires Ready(s, t)
    requires var pc := s.threads[t].pc; pc.SeekRead? || pc.SeekStore?
    ensures AnswerMove(s, TickSeek(s, t), t)
  {
  }

  // ----------------------------------- device and record, line by line

  /** Copying one byte and then the rest is copying all of it. */
  lemma CopyOneByte(b: seq<byte>, pos: int, data: seq<byte>, i: nat)
    requires i < |data| && InBuffer(pos, |data|, |b|)
    ensures Overwrite(Some(b), pos + i, data[i..]) == Overwrite(Some(b[pos + i := data[i]]), pos + i + 1, data[i + 1..])
  {
    var c := b[pos + i := data[i]];
    assert b[..pos + i] + data[i..] + b[pos + |data|..] == c[..pos + i + 1] + data[i + 1..] + c[pos + |data|..];
  }

  lemma CopyOneByteRest(policy: Policy, d: Dev, th: Thread)
    requires th.pc.WriteCopy? && th.pc.i < |th.pc.data|
    requires d.block.Some? && InBuffer(th.pc.pos, |th.pc.data|, |d.block.value|)
    ensures var pc := th.pc;
            var d' := d.(block := Some(d.block.value[pc.pos + pc.i := pc.data[pc.i]]));
            Rest(policy, d', th.(pc := WriteCopy(pc.pos, pc.data, pc.i + 1))) == Rest(policy, d, th)
  {
    CopyOneByte(d.block.value, th.pc.pos, th.pc.data, th.pc.i);
  }

  lemma CopyDoneRest(policy: Policy, d: Dev, th: Thread)
    requires th.pc.WriteCopy? && th.pc.i == |th.pc.data|
    ensures Rest(policy, d, th.(pc := WriteCounter(th.pc.pos, th.pc.data))) == Rest(policy, d, th)
  {
    var pos := th.pc.pos + th.pc.i;
    assert th.pc.data[th.pc.i..] == [];
    if d.block.Some? && 0 <= pos <= |d.block.value| {
      assert d.block.value[..pos] + [] + d.block.value[pos..] == d.block.value;
    }
  }

  lemma ReadOneByte(d: Dev, fpos: int, k: nat)
    requires d.block.Some? && 0 <= d.counter <= |d.block.value| && 0 <= fpos && fpos + k < d.counter
    ensures ReadSlice(d, fpos, k + 1) == ReadSlice(d, fpos, k) + [d.block.value[fpos + k]]
  {
  }

  /** Moving about in the waiting loop, outside the lock, and leaving it. */
  lemma WaitingFine(policy: Policy, d: Dev, len: int, truncs: nat, th: Thread, th': Thread)
    requires Fine(policy, d, len, truncs, th) && Waiting(th.pc)
    requires th' == th.(pc := th'.pc, asleep := th'.asleep, signal := th'.signal)
    requires (Waiting(th'.pc) && !th'.pc.OpenUnlock?) || th'.pc.Closed?
    ensures Fine(policy, d, len, truncs, th')
    ensures Rest(policy, d, th') == d && !HoldsWrite(th'.pc)
  {
  }

  /** The open has succeeded, or there is no memory. */
  lemma ReleasedFine(policy: Policy, d: Dev, len: int, truncs: nat, th: Thread, th': Thread)
    requires Sound(d, len) && Fine(policy, d, len, truncs, th) && th.pc.OpenRelease?
    requires th' == if th.pc.ok then th.(pc := Idle, fpos := 0, epoch := truncs) else th.(pc := Closed)
    ensures Fine(policy, d, len, truncs, th')
    ensures Rest(policy, d, th) == d == Rest(policy, d, th') && !HoldsWrite(th'.pc)
  {
  }

  /** A seek computes its target without a lock. */
  lemma SeekFine(policy: Policy, d: Dev, len: int, truncs: nat, th: Thread, th': Thread)
    requires Sound(d, len) && Fine(policy, d, len, truncs, th) && th.pc.SeekRead?
    requires th' == th.(pc := th'.pc) && (th'.pc.Idle? || th'.pc.SeekStore?)
    ensures Fine(policy, d, len, truncs, th')
    ensures Rest(policy, d, th') == d && !HoldsWrite(th'.pc)
  {
  }

  /** It stores the target, or does not. */
  lemma SeekStoredFine(policy: Policy, d: Dev, len: int, truncs: nat, th: Thread, th': Thread)
    requires Sound(d, len) && Fine(policy, d, len, truncs, th) && th.pc.SeekStore?
    requires th' == th.(pc := Idle, fpos := th'.fpos) && (th'.fpos == th.fpos || 0 <= th'.fpos <= d.counter)
    ensures Fine(policy, d, len, truncs, th')
    ensures Rest(policy, d, th') == d && !HoldsWrite(th'.pc)
  {
  }

  /** A byte of the copy, or its end, leaves what the writer knows. */
  lemma WriteCopyFine(policy: Policy, d: Dev, d': Dev, len: int, truncs: nat, th: Thread, th': Thread)
    requires Sound(d, len) && Fine(policy, d, len, truncs, th) && th.pc.WriteCopy?
    requires d' == d.(block := d'.block) && d'.block.Some? && |d'.block.value| == d.allocLen
    requires th' == th.(pc := if th.pc.i < |th.pc.data| then WriteCopy(th.pc.pos, th.pc.data, th.pc.i + 1) else WriteCounter(th.pc.pos, th.pc.data))
    ensures Fine(policy, d', len, truncs, th')
  {
  }

  /** Steps of a reader, which leave the device alone. */
  lemma ReadCopyStep(policy: Policy, d: Dev, len: int, truncs: nat, th: Thread, th': Thread)
    requires Sound(d, len) && Fine(policy, d, len, truncs, th) && th.pc.ReadCopy?
    requires |th.pc.buf| < th.pc.n && MayTouch(d, Offset(th) + |th.pc.buf|)
    requires th' == th.(pc := ReadCopy(th.pc.count, th.pc.n, th.pc.buf + [d.block.value[Offset(th) + |th.pc.buf|]]))
    ensures Fine(policy, d, len, truncs, th')
  {
    ReadOneByte(d, Offset(th), |th.pc.buf|);
  }

  lemma ReadCopyDone(policy: Policy, d: Dev, len: int, truncs: nat, th: Thread)
    requires Sound(d, len) && Fine(policy, d, len, truncs, th) && th.pc.ReadCopy? && |th.pc.buf| >= th.pc.n
    ensures Fine(policy, d, len, truncs, th.(pc := ReadAdvance(th.pc.count, th.pc.buf)))
  {
  }

  lemma ReadAdvanceStep(policy: Policy, d: Dev, len: int, truncs: nat, th: Thread)
    requires Sound(d, len) && Fine(policy, d, len, truncs, th) && th.pc.ReadAdvance?
    ensures Fine(policy, d, len, truncs, Advance(th, |th.pc.buf|).(pc := ReadUnlock(th.pc.count, th.pc.buf)))
  {
  }

  lemma ReadCheckStep(policy: Policy, d: Dev, len: int, truncs: nat, th: Thread, n: int)
    requires Sound(d, len) && Fine(policy, d, len, truncs, th) && th.pc.ReadCheck?
    requires n == Max(0, Min(th.pc.count, d.counter - Offset(th)))
    ensures var th' := th.(pc := if n <= 0 then ReadUnlock(th.pc.count, []) else ReadCopy(th.pc.count, n, []));
            Fine(policy, d, len, truncs, th') && Rest(policy, d, th') == d
  {
  }

  lemma WriteCounterStep(policy: Policy, d: Dev, len: int, truncs: nat, th: Thread)
    requires Sound(d, len) && Fine(policy, d, len, truncs, th) && th.pc.WriteCounter?
    ensures var end := ToUInt(WriteEnd(th.pc.pos, |th.pc.data|));
            var d' := if end > d.counter then d.(counter := end) else d;
            var th' := th.(pc := WriteAdvance(th.pc.data));
            && Sound(d', len) && d.counter <= d'.counter && d'.block == d.block
            && Fine(policy, d', len, truncs, th') && Rest(policy, d', th') == Rest(policy, d, th)
  {
    WriteGuardsExact(th.pc.pos, |th.pc.data|, d.allocLen);
  }

  lemma OpenTryEntersData(s: State, t: nat)
    requires Ready(s, t) && s.threads[t].pc.OpenTry? && Free(s)
    ensures DataMove(s, TickOpen(s, t), t)
  {
  }

  lemma OpenTryData(s: State, t: nat)
    requires Ready(s, t) && s.threads[t].pc.OpenTry?
    ensures DataMove(s, TickOpen(s, t), t)
  {
    if Free(s) {
      OpenTryEntersData(s, t);
    }
  }

  lemma OpenAllocData(s: State, t: nat)
    requires Ready(s, t) && s.threads[t].pc.OpenAlloc?
    ensures DataMove(s, TickOpen(s, t), t)
  {
  }

  lemma OpenCheckData(s: State, t: nat)
    requires Ready(s, t) && s.threads[t].pc.OpenCheck?
    ensures DataMove(s, TickOpen(s, t), t)
  {
  }

  lemma OpenUnlockData(s: State, t: nat)
    requires Ready(s, t) && s.threads[t].pc.OpenUnlock?
    ensures DataMove(s, TickOpen(s, t), t)
  {
  }

  lemma OpenQueueData(s: State, t: nat)
    requires Ready(s, t) && s.threads[t].pc.OpenQueue?
    ensures DataMove(s, TickOpen(s, t), t)
  {
    WaitingFine(s.policy, s.dev, s.len, s.truncs, s.threads[t], TickOpen(s, t).threads[t]);
  }

  lemma OpenRecheckData(s: State, t: nat)
    requires Ready(s, t) && s.threads[t].pc.OpenRecheck?
    ensures DataMove(s, TickOpen(s, t), t)
  {
    WaitingFine(s.policy, s.dev, s.len, s.truncs, s.threads[t], TickOpen(s, t).threads[t]);
  }

  lemma OpenSleepData(s: State, t: nat)
    requires Ready(s, t) && s.threads[t].pc.OpenSleep?
    ensures DataMove(s, TickOpen(s, t), t)
  {
    WaitingFine(s.policy, s.dev, s.len, s.truncs, s.threads[t], TickOpen(s, t).threads[t]);
  }

  lemma OpenDequeueData(s: State, t: nat)
    requires Ready(s, t) && s.threads[t].pc.OpenDequeue?
    ensures DataMove(s, TickOpen(s, t), t)
  {
    WaitingFine(s.policy, s.dev, s.len, s.truncs, s.threads[t], TickOpen(s, t).threads[t]);
  }

  lemma OpenSignalData(s: State, t: nat)
    requires Ready(s, t) && s.threads[t].pc.OpenSignal?
    ensures DataMove(s, TickOpen(s, t), t)
  {
    WaitingFine(s.policy, s.dev, s.len, s.truncs, s.threads[t], TickOpen(s, t).threads[t]);
  }

  lemma OpenRelockEntersData(s: State, t: nat)
    requires Ready(s, t) && s.threads[t].pc.OpenRelock? && Free(s)
    ensures DataMove(s, TickOpen(s, t), t)
  {
  }

  lemma OpenRelockData(s: State, t: nat)
    requires Ready(s, t) && s.threads[t].pc.OpenRelock?
    ensures DataMove(s, TickOpen(s, t), t)
  {
    if Free(s) {
      OpenRelockEntersData(s, t);
    }
  }

  lemma OpenCountData(s: State, t: nat)
    requires Ready(s, t) && s.threads[t].pc.OpenCount?
    ensures DataMove(s, TickOpen(s, t), t)
  {
  }

  lemma OpenAppendOffData(s: State, t: nat)
    requires Ready(s, t) && s.threads[t].pc.OpenAppendOff?
    ensures DataMove(s, TickOpen(s, t), t)
  {
  }

  lemma OpenTruncByteData(s: State, t: nat)
    requires Ready(s, t) && s.threads[t].pc.OpenTruncByte?
    ensures DataMove(s, TickOpen(s, t), t)
  {
  }

  lemma OpenTruncCounterData(s: State, t: nat)
    requires Ready(s, t) && s.threads[t].pc.OpenTruncCounter?
    ensures DataMove(s, TickOpen(s, t), t)
  {
  }

  lemma OpenAppendOnData(s: State, t: nat)
    requires Ready(s, t) && s.threads[t].pc.OpenAppendOn?
    ensures DataMove(s, TickOpen(s, t), t)
  {
  }

  lemma OpenReleaseData(s: State, t: nat)
    requires Ready(s, t) && s.threads[t].pc.OpenRelease?
    ensures DataMove(s, TickOpen(s, t), t)
  {
    ReleasedFine(s.policy, s.dev, s.len, s.truncs, s.threads[t], TickOpen(s, t).threads[t]);
  }

  lemma ReadLockData(s: State, t: nat)
    requires Ready(s, t) && s.threads[t].pc.ReadLock?
    ensures DataMove(s, TickRead(s, t), t)
  {
  }

  lemma ReadCheckData(s: State, t: nat)
    requires Ready(s, t) && s.threads[t].pc.ReadCheck?
    ensures DataMove(s, TickRead(s, t), t)
  {
    var th := s.threads[t];
    var n := ReadCount(Offset(th), th.pc.count, s.dev.counter);
    ReadCountExact(Offset(th), th.pc.count, s.dev.counter);
    ReadCheckStep(s.policy, s.dev, s.len, s.truncs, th, n);
  }

  lemma ReadCopyData(s: State, t: nat)
    requires Ready(s, t) && s.threads[t].pc.ReadCopy?
    ensures DataMove(s, TickRead(s, t), t)
  {
    var th := s.threads[t];
    if |th.pc.buf| < th.pc.n {
      ReadCopyStep(s.policy, s.dev, s.len, s.truncs, th, TickRead(s, t).threads[t]);
    } else {
      ReadCopyDone(s.policy, s.dev, s.len, s.truncs, th);
    }
  }

  lemma ReadAdvanceData(s: State, t: nat)
    requires Ready(s, t) && s.threads[t].pc.ReadAdvance?
    ensures DataMove(s, TickRead(s, t), t)
  {
    ReadAdvanceStep(s.policy, s.dev, s.len, s.truncs, s.threads[t]);
  }

  lemma ReadUnlockData(s: State, t: nat)
    requires Ready(s, t) && s.threads[t].pc.ReadUnlock?
    ensures DataMove(s, TickRead(s, t), t)
  {
  }

  lemma WriteTryEntersData(s: State, t: nat)
    requires Ready(s, t) && s.threads[t].pc.WriteTry? && Free(s)
    ensures DataMove(s, TickWrite(s, t), t)
  {
  }

  lemma WriteTryData(s: State, t: nat)
    requires Ready(s, t) && s.threads[t].pc.WriteTry?
    ensures DataMove(s, TickWrite(s, t), t)
  {
    if Free(s) {
      WriteTryEntersData(s, t);
    }
  }

  lemma WriteGuardData(s: State, t: nat)
    requires Ready(s, t) && s.threads[t].pc.WriteGuard?
    ensures DataMove(s, TickWrite(s, t), t)
  {
    var pos, count := WritePos(s.dev, Offset(s.threads[t])), |s.threads[t].pc.data|;
    WriteGuardsExact(pos, count, s.dev.allocLen);
  }

  lemma WriteCopyData(s: State, t: nat)
    requires Ready(s, t) && s.threads[t].pc.WriteCopy?
    ensures DataMove(s, TickWrite(s, t), t)
  {
    var th := s.threads[t];
    var pos, data, i := th.pc.pos, th.pc.data, th.pc.i;
    if i < |data| {
      var s' := TickWrite(s, t);
      WriteCopyFine(s.policy, s.dev, s'.dev, s.len, s.truncs, th, s'.threads[t]);
      CopyOneByteRest(s.policy, s.dev, th);
    } else {
      CopyDoneRest(s.policy, s.dev, th);
    }
  }

  lemma WriteCounterData(s: State, t: nat)
    requires Ready(s, t) && s.threads[t].pc.WriteCounter?
    ensures DataMove(s, TickWrite(s, t), t)
  {
    WriteCounterStep(s.policy, s.dev, s.len, s.truncs, s.threads[t]);
  }

  lemma WriteAdvanceData(s: State, t: nat)
    requires Ready(s, t) && s.threads[t].pc.WriteAdvance?
    ensures DataMove(s, TickWrite(s, t), t)
  {
  }

  lemma WriteUnlockData(s: State, t: nat)
    requires Ready(s, t) && s.threads[t].pc.WriteUnlock?
    ensures DataMove(s, TickWrite(s, t), t)
  {
  }

  lemma WriteWakeData(s: State, t: nat)
    requires Ready(s, t) && s.threads[t].pc.WriteWake?
    ensures DataMove(s, TickWrite(s, t), t)
  {
  }

  lemma SeekReadData(s: State, t: nat)
    requires Ready(s, t) && s.threads[t].pc.SeekRead?
    ensures DataMove(s, TickSeek(s, t), t)
  {
    SeekFine(s.policy, s.dev, s.len, s.truncs, s.threads[t], TickSeek(s, t).threads[t]);
  }

  lemma SeekStoreData(s: State, t: nat)
    requires Ready(s, t) && s.threads[t].pc.SeekStore?
    ensures DataMove(s, TickSeek(s, t), t)
  {
    SeekStoredFine(s.policy, s.dev, s.len, s.truncs, s.threads[t], TickSeek(s, t).threads[t]);
  }

}
