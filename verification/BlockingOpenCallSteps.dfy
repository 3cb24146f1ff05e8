/** Every line of the driver leaves its own call as BlockingOpenCalls says, and every call that returns
    did what it should. */
module BlockingOpenCallSteps {
  import opened Options
  import opened DeviceSpec
  import opened BlockingOpen
  import opened BlockingOpenInv
  import opened BlockingOpenCalls

  /** What is known of a thread that is about to take a step. */
  ghost predicate Calling(s: State, t: nat) {
    && CanTick(s, t)
    && CallFine(s.policy, s.hist, s.answers, s.log, t, s.threads[t])
    && |s.hist| == |s.answers| + (if s.writer.Some? then 1 else 0)
    && (HoldsWrite(s.threads[t].pc) <==> s.writer == Some(t))
    && ReadFine(s.dev, s.threads[t])
    && (HoldsRead(s.threads[t].pc) ==> s.dev == Replay(s.policy, s.hist))
    && SerialCounter(s.policy, s.hist, s.dev.counter)
  }

  lemma ReadyToCall(s: State, t: nat)
    requires Inv(s) && CallsInv(s) && CanTick(s, t)
    ensures Calling(s, t)
  {
    assert Fine(s.policy, s.dev, s.len, s.truncs, s.threads[t]);
    CounterIsSerial(s);
  }

  lemma CounterIsSerial(s: State)
    requires CounterInv(s) && Sound(s.dev, s.len)
    ensures SerialCounter(s.policy, s.hist, s.dev.counter)
  {
    assert s.hist[..|s.hist|] == s.hist;
    if s.dev.counter != Replay(s.policy, s.hist).counter {
      assert Replay(s.policy, s.hist[..|s.hist| - 1]).counter == s.dev.counter;
    }
  }

  // --------------------------------------- one thread, without the others

  /** Program counters between which an open moves without changing what is known of it, */
  predicate SameOpen(pc: Pc, pc': Pc) {
    || (InOpen(pc) && InOpen(pc') && HoldsWrite(pc) && HoldsWrite(pc'))
    || (Queued(pc) && (Queued(pc') || pc'.OpenSignal?))
    || (pc.OpenSignal? && pc'.OpenRelock?)
  }

  /** and a read or a write. */
  predicate SameTransfer(pc: Pc, pc': Pc) {
    || (pc.ReadLock? && pc' == ReadCheck(pc.count))
    || (pc.ReadCheck? && (pc' == ReadUnlock(pc.count, []) || (pc'.ReadCopy? && pc'.count == pc.count)))
    || (pc.ReadCopy? && (pc'.ReadCopy? || pc'.ReadAdvance?) && pc'.count == pc.count)
    || (pc.WriteGuard? && (pc' == WriteUnlock(None) || (pc'.WriteCopy? && pc'.data == pc.data)))
    || (pc.WriteCopy? && (pc'.WriteCopy? || pc'.WriteCounter?) && pc'.data == pc.data)
    || (pc.WriteCounter? && pc' == WriteAdvance(pc.data))
  }

  lemma SameOpenFine(policy: Policy, hist: seq<Section>, answers: seq<Answer>, log: seq<Record>, t: nat, th: Thread, th': Thread)
    requires CallFine(policy, hist, answers, log, t, th) && SameOpen(th.pc, th'.pc)
    requires th' == th.(pc := th'.pc, asleep := th'.asleep)
    ensures CallFine(policy, hist, answers, log, t, th')
  {
  }

  lemma SameTransferFine(policy: Policy, hist: seq<Section>, answers: seq<Answer>, log: seq<Record>, t: nat, th: Thread, th': Thread)
    requires CallFine(policy, hist, answers, log, t, th) && SameTransfer(th.pc, th'.pc)
    requires th' == th.(pc := th'.pc)
    ensures CallFine(policy, hist, answers, log, t, th')
  {
  }

  lemma ReadAdvanceFine(policy: Policy, hist: seq<Section>, answers: seq<Answer>, log: seq<Record>, t: nat, th: Thread)
    requires CallFine(policy, hist, answers, log, t, th) && th.pc.ReadAdvance?
    ensures CallFine(policy, hist, answers, log, t, Advance(th, |th.pc.buf|).(pc := ReadUnlock(th.pc.count, th.pc.buf)))
  {
  }

  lemma WriteAdvanceFine(policy: Policy, hist: seq<Section>, answers: seq<Answer>, log: seq<Record>, t: nat, th: Thread)
    requires CallFine(policy, hist, answers, log, t, th) && th.pc.WriteAdvance?
    ensures CallFine(policy, hist, answers, log, t, Advance(th, |th.pc.data|).(pc := WriteUnlock(Some(|th.pc.data|))))
  {
  }

  lemma WokeFine(policy: Policy, hist: seq<Section>, answers: seq<Answer>, log: seq<Record>, t: nat, th: Thread)
    requires CallFine(policy, hist, answers, log, t, th) && th.pc.WriteWake?
    ensures CallFine(policy, hist, answers, log, t, th.(pc := Idle))
    ensures CallFine(policy, hist, answers, log, t, th.(pc := Idle, asleep := false))
  {
  }

  lemma LogSnoc(log: seq<Record>, r: Record)
    ensures IsOpen(log + [r], r.t) == (Succeeded(r) || (!r.call.CallClose? && IsOpen(log, r.t)))
    ensures FileOffset(log + [r], r.t) == if MovesOffset(r) then r.to else FileOffset(log, r.t)
  {
    assert (log + [r])[..|log|] == log;
  }

  /** An open that did not get the lock, must not block, or was interrupted. */
  lemma GaveUpFine(policy: Policy, hist: seq<Section>, answers: seq<Answer>, log: seq<Record>, t: nat, th: Thread, outcome: Outcome)
    requires CallFine(policy, hist, answers, log, t, th)
    requires || th.pc.OpenTry? || th.pc.OpenRelock? || th.pc.OpenSignal? || (th.pc.OpenQueue? && th.flags.nonblock)
    requires outcome == if th.pc.OpenQueue? then Again else Restart
    ensures var r := Returned(t, th, outcome);
            Faithful(policy, hist, answers, log, r) && CallFine(policy, hist, answers, log + [r], t, th.(pc := Closed))
  {
    LogSnoc(log, Returned(t, th, outcome));
  }

  lemma OpenedFine(policy: Policy, hist: seq<Section>, answers: seq<Answer>, log: seq<Record>, t: nat, th: Thread, th': Thread)
    requires CallFine(policy, hist, answers, log, t, th) && th.pc.OpenRelease? && |hist| == |answers| + 1
    requires th' == if th.pc.ok then th.(pc := Idle, fpos := 0, epoch := th'.epoch) else th.(pc := Closed)
    requires th.ppos.None?
    ensures var a := if th.pc.ok then Opened else NoMemory;
            var r := Returned(t, th', Answered(a));
            Faithful(policy, hist, answers + [a], log, r) && CallFine(policy, hist, answers + [a], log + [r], t, th')
  {
    LogSnoc(log, Returned(t, th', Answered(if th.pc.ok then Opened else NoMemory)));
  }

  lemma ReadFineDone(policy: Policy, hist: seq<Section>, answers: seq<Answer>, log: seq<Record>, t: nat, th: Thread, d: Dev)
    requires CallFine(policy, hist, answers, log, t, th) && th.pc.ReadUnlock? && ReadFine(d, th) && d == Replay(policy, hist)
    ensures var r := Returned(t, th, Got(th.pc.buf, |hist|));
            Faithful(policy, hist, answers, log, r) && CallFine(policy, hist, answers, log + [r], t, th.(pc := Idle))
  {
    LogSnoc(log, Returned(t, th, Got(th.pc.buf, |hist|)));
    assert hist[..|hist|] == hist;
  }

  lemma WriteMissFine(policy: Policy, hist: seq<Section>, answers: seq<Answer>, log: seq<Record>, t: nat, th: Thread)
    requires CallFine(policy, hist, answers, log, t, th) && th.pc.WriteTry?
    ensures var r := Returned(t, th, Restart);
            Faithful(policy, hist, answers, log, r) && CallFine(policy, hist, answers, log + [r], t, th.(pc := Idle))
  {
    LogSnoc(log, Returned(t, th, Restart));
  }

  lemma WriteFineDone(policy: Policy, hist: seq<Section>, answers: seq<Answer>, log: seq<Record>, t: nat, th: Thread)
    requires CallFine(policy, hist, answers, log, t, th) && th.pc.WriteUnlock? && |hist| == |answers| + 1
    ensures var a := WriteAnswer(th.pc.retval);
            var r := Returned(t, th, Answered(a));
            && Faithful(policy, hist, answers + [a], log, r)
            && CallFine(policy, hist, answers + [a], log + [r], t, th.(pc := if th.pc.retval.Some? then WriteWake else Idle))
  {
    LogSnoc(log, Returned(t, th, Answered(WriteAnswer(th.pc.retval))));
  }

  lemma SeekOtherFine(policy: Policy, hist: seq<Section>, answers: seq<Answer>, log: seq<Record>, t: nat, th: Thread)
    requires CallFine(policy, hist, answers, log, t, th) && th.pc.SeekRead? && th.pc.whence.SeekOther?
    ensures var r := Returned(t, th, Invalid);
            Faithful(policy, hist, answers, log, r) && CallFine(policy, hist, answers, log + [r], t, th.(pc := Idle))
  {
    LogSnoc(log, Returned(t, th, Invalid));
  }

  lemma SeekFineDone(policy: Policy, hist: seq<Section>, answers: seq<Answer>, log: seq<Record>, t: nat, th: Thread, counter: int)
    requires CallFine(policy, hist, answers, log, t, th) && th.pc.SeekStore? && SerialCounter(policy, hist, counter)
    ensures var ok := 0 <= th.pc.target <= counter;
            var th' := if ok then th.(pc := Idle, fpos := th.pc.target) else th.(pc := Idle);
            var r := Returned(t, th', Sought(th.pc.first, counter, ok));
            Faithful(policy, hist, answers, log, r) && CallFine(policy, hist, answers, log + [r], t, th')
  {
    var ok := 0 <= th.pc.target <= counter;
    LogSnoc(log, Returned(t, if ok then th.(pc := Idle, fpos := th.pc.target) else th.(pc := Idle), Sought(th.pc.first, counter, ok)));
  }

  // ------------------------------------------------------ open, line by line

  lemma OpenEnterCalls(s: State, t: nat)
    requires Calling(s, t) && (s.threads[t].pc.OpenTry? || s.threads[t].pc.OpenRelock?) && Free(s)
    ensures QuietMove(s, TickOpen(s, t), t)
  {
  }

  lemma OpenMissCalls(s: State, t: nat)
    requires Calling(s, t) && (s.threads[t].pc.OpenTry? || s.threads[t].pc.OpenRelock?) && !Free(s)
    ensures ReturnMove(s, TickOpen(s, t), t)
  {
    GaveUpFine(s.policy, s.hist, s.answers, s.log, t, s.threads[t], Restart);
  }

  lemma OpenInsideCalls(s: State, t: nat)
    requires Calling(s, t) && (s.threads[t].pc.OpenAlloc? || s.threads[t].pc.OpenCheck?)
    ensures QuietMove(s, TickOpen(s, t), t)
  {
    SameOpenFine(s.policy, s.hist, s.answers, s.log, t, s.threads[t], TickOpen(s, t).threads[t]);
  }

  lemma OpenCommitCalls(s: State, t: nat)
    requires Calling(s, t) && Committing(s.threads[t].pc) && !s.threads[t].pc.OpenRelease?
    ensures QuietMove(s, TickOpen(s, t), t)
  {
    SameOpenFine(s.policy, s.hist, s.answers, s.log, t, s.threads[t], TickOpen(s, t).threads[t]);
  }

  lemma OpenUnlockCalls(s: State, t: nat)
    requires Calling(s, t) && s.threads[t].pc.OpenUnlock?
    ensures QuietMove(s, TickOpen(s, t), t)
  {
  }

  lemma OpenQueueCalls(s: State, t: nat)
    requires Calling(s, t) && s.threads[t].pc.OpenQueue? && !s.threads[t].flags.nonblock
    ensures QuietMove(s, TickOpen(s, t), t)
  {
  }

  lemma OpenWaitCalls(s: State, t: nat)
    requires Calling(s, t) && Queued(s.threads[t].pc) && !s.threads[t].pc.OpenRecheck?
    ensures QuietMove(s, TickOpen(s, t), t)
  {
    SameOpenFine(s.policy, s.hist, s.answers, s.log, t, s.threads[t], TickOpen(s, t).threads[t]);
  }

  lemma OpenRecheckCalls(s: State, t: nat)
    requires Calling(s, t) && s.threads[t].pc.OpenRecheck?
    ensures QuietMove(s, TickOpen(s, t), t)
  {
    UnavailableIsZeroOrOne(s.dev.counter, s.threads[t].flags);
    SameOpenFine(s.policy, s.hist, s.answers, s.log, t, s.threads[t], TickOpen(s, t).threads[t]);
  }

  lemma OpenSignalCalls(s: State, t: nat)
    requires Calling(s, t) && s.threads[t].pc.OpenSignal? && !s.threads[t].signal
    ensures QuietMove(s, TickOpen(s, t), t)
  {
    SameOpenFine(s.policy, s.hist, s.answers, s.log, t, s.threads[t], TickOpen(s, t).threads[t]);
  }

  lemma OpenGiveUpCalls(s: State, t: nat)
    requires Calling(s, t) && ((s.threads[t].pc.OpenSignal? && s.threads[t].signal) || (s.threads[t].pc.OpenQueue? && s.threads[t].flags.nonblock))
    ensures ReturnMove(s, TickOpen(s, t), t)
  {
    GaveUpFine(s.policy, s.hist, s.answers, s.log, t, s.threads[t], if s.threads[t].pc.OpenQueue? then Again else Restart);
  }

  lemma OpenReleaseCalls(s: State, t: nat)
    requires Calling(s, t) && s.threads[t].pc.OpenRelease?
    ensures ReturnMove(s, TickOpen(s, t), t)
  {
    OpenedFine(s.policy, s.hist, s.answers, s.log, t, s.threads[t], TickOpen(s, t).threads[t]);
  }

  // ----------------------------------------------- read, write and seek

  lemma ReadStartCalls(s: State, t: nat)
    requires Calling(s, t) && (s.threads[t].pc.ReadLock? || s.threads[t].pc.ReadCheck?)
    ensures QuietMove(s, TickRead(s, t), t)
  {
    SameTransferFine(s.policy, s.hist, s.answers, s.log, t, s.threads[t], TickRead(s, t).threads[t]);
  }

  lemma ReadCopyCalls(s: State, t: nat)
    requires Calling(s, t) && s.threads[t].pc.ReadCopy?
    ensures QuietMove(s, TickRead(s, t), t)
  {
    SameTransferFine(s.policy, s.hist, s.answers, s.log, t, s.threads[t], TickRead(s, t).threads[t]);
  }

  lemma ReadAdvanceCalls(s: State, t: nat)
    requires Calling(s, t) && s.threads[t].pc.ReadAdvance?
    ensures QuietMove(s, TickRead(s, t), t)
  {
    ReadAdvanceFine(s.policy, s.hist, s.answers, s.log, t, s.threads[t]);
  }

  lemma ReadUnlockCalls(s: State, t: nat)
    requires Calling(s, t) && s.threads[t].pc.ReadUnlock?
    ensures ReturnMove(s, TickRead(s, t), t)
  {
    ReadFineDone(s.policy, s.hist, s.answers, s.log, t, s.threads[t], s.dev);
  }

  lemma WriteEnterCalls(s: State, t: nat)
    requires Calling(s, t) && s.threads[t].pc.WriteTry? && Free(s)
    ensures QuietMove(s, TickWrite(s, t), t)
  {
  }

  lemma WriteMissCalls(s: State, t: nat)
    requires Calling(s, t) && s.threads[t].pc.WriteTry? && !Free(s)
    ensures ReturnMove(s, TickWrite(s, t), t)
  {
    WriteMissFine(s.policy, s.hist, s.answers, s.log, t, s.threads[t]);
  }

  lemma WriteInsideCalls(s: State, t: nat)
    requires Calling(s, t) && (s.threads[t].pc.WriteGuard? || s.threads[t].pc.WriteCopy? || s.threads[t].pc.WriteCounter?)
    ensures QuietMove(s, TickWrite(s, t), t)
  {
    SameTransferFine(s.policy, s.hist, s.answers, s.log, t, s.threads[t], TickWrite(s, t).threads[t]);
  }

  lemma WriteAdvanceCalls(s: State, t: nat)
    requires Calling(s, t) && s.threads[t].pc.WriteAdvance?
    ensures QuietMove(s, TickWrite(s, t), t)
  {
    WriteAdvanceFine(s.policy, s.hist, s.answers, s.log, t, s.threads[t]);
  }

  lemma WriteUnlockCalls(s: State, t: nat)
    requires Calling(s, t) && s.threads[t].pc.WriteUnlock?
    ensures ReturnMove(s, TickWrite(s, t), t)
  {
    WriteFineDone(s.policy, s.hist, s.answers, s.log, t, s.threads[t]);
  }

  lemma WriteWakeCalls(s: State, t: nat)
    requires Calling(s, t) && s.threads[t].pc.WriteWake?
    ensures QuietMove(s, TickWrite(s, t), t)
  {
    WokeFine(s.policy, s.hist, s.answers, s.log, t, s.threads[t]);
  }

  lemma SeekReadCalls(s: State, t: nat)
    requires Calling(s, t) && s.threads[t].pc.SeekRead? && !s.threads[t].pc.whence.SeekOther?
    ensures QuietMove(s, TickSeek(s, t), t)
  {
    SeekSumExact(s.threads[t].pc.whence, s.threads[t].fpos, s.threads[t].pc.off, s.dev.counter);
  }

  lemma SeekOtherCalls(s: State, t: nat)
    requires Calling(s, t) && s.threads[t].pc.SeekRead? && s.threads[t].pc.whence.SeekOther?
    ensures ReturnMove(s, TickSeek(s, t), t)
  {
    SeekOtherFine(s.policy, s.hist, s.answers, s.log, t, s.threads[t]);
  }

  lemma SeekStoreCalls(s: State, t: nat)
    requires Calling(s, t) && s.threads[t].pc.SeekStore?
    ensures ReturnMove(s, TickSeek(s, t), t)
  {
    SeekFineDone(s.policy, s.hist, s.answers, s.log, t, s.threads[t], s.dev.counter);
  }

  // ------------------------------------------------ any step, any action

  lemma TickOpenCalls(s: State, t: nat)
    requires Calling(s, t) && InOpen(s.threads[t].pc)
    ensures QuietMove(s, TickOpen(s, t), t) || ReturnMove(s, TickOpen(s, t), t)
  {
    var th := s.threads[t];
    match th.pc {
      case OpenTry => if Free(s) { OpenEnterCalls(s, t); } else { OpenMissCalls(s, t); }
      case OpenRelock => if Free(s) { OpenEnterCalls(s, t); } else { OpenMissCalls(s, t); }
      case OpenAlloc => OpenInsideCalls(s, t);
      case OpenCheck => OpenInsideCalls(s, t);
      case OpenUnlock => OpenUnlockCalls(s, t);
      case OpenQueue => if th.flags.nonblock { OpenGiveUpCalls(s, t); } else { OpenQueueCalls(s, t); }
      case OpenRecheck => OpenRecheckCalls(s, t);
      case OpenSleep => OpenWaitCalls(s, t);
      case OpenDequeue => OpenWaitCalls(s, t);
      case OpenSignal => if th.signal { OpenGiveUpCalls(s, t); } else { OpenSignalCalls(s, t); }
      case OpenRelease(_) => OpenReleaseCalls(s, t);
      case _ => OpenCommitCalls(s, t);
    }
  }

  lemma TickReadCalls(s: State, t: nat)
    requires Calling(s, t) && InRead(s.threads[t].pc)
    ensures QuietMove(s, TickRead(s, t), t) || ReturnMove(s, TickRead(s, t), t)
  {
    match s.threads[t].pc {
      case ReadLock(_) => ReadStartCalls(s, t);
      case ReadCheck(_) => ReadStartCalls(s, t);
      case ReadCopy(_, _, _) => ReadCopyCalls(s, t);
      case ReadAdvance(_, _) => ReadAdvanceCalls(s, t);
      case ReadUnlock(_, _) => ReadUnlockCalls(s, t);
    }
  }

  lemma TickWriteCalls(s: State, t: nat)
    requires Calling(s, t) && InWrite(s.threads[t].pc)
    ensures QuietMove(s, TickWrite(s, t), t) || ReturnMove(s, TickWrite(s, t), t)
  {
    match s.threads[t].pc {
      case WriteTry(_) => if Free(s) { WriteEnterCalls(s, t); } else { WriteMissCalls(s, t); }
      case WriteGuard(_) => WriteInsideCalls(s, t);
      case WriteCopy(_, _, _) => WriteInsideCalls(s, t);
      case WriteCounter(_, _) => WriteInsideCalls(s, t);
      case WriteAdvance(_) => WriteAdvanceCalls(s, t);
      case WriteUnlock(_) => WriteUnlockCalls(s, t);
      case WriteWake => WriteWakeCalls(s, t);
    }
  }

  lemma TickSeekCalls(s: State, t: nat)
    requires Calling(s, t) && (s.threads[t].pc.SeekRead? || s.threads[t].pc.SeekStore?)
    ensures QuietMove(s, TickSeek(s, t), t) || ReturnMove(s, TickSeek(s, t), t)
  {
    if s.threads[t].pc.SeekStore? {
      SeekStoreCalls(s, t);
    } else if s.threads[t].pc.whence.SeekOther? {
      SeekOtherCalls(s, t);
    } else {
      SeekReadCalls(s, t);
    }
  }

  /** A call begins with what was asked, at the file's offset or at the position handed in. */
  lemma BeginFine(policy: Policy, hist: seq<Section>, answers: seq<Answer>, log: seq<Record>, t: nat, th: Thread, a: Action)
    requires CallFine(policy, hist, answers, log, t, th) && a.t == t
    requires match a
      case CallOpen(_, _, _) => th.pc.Closed?
      case CallRead(_, _) => th.pc.Idle?
      case CallWrite(_, _) => th.pc.Idle?
      case CallReadAt(_, _, _) => th.pc.Idle?
      case CallWriteAt(_, _, _) => th.pc.Idle?
      case CallSeek(_, _, _) => th.pc.Idle?
      case _ => false
    ensures var th' :=
              match a
              case CallOpen(_, flags, grant) => Begin(th, OpenTry, None, a).(flags := flags, grant := grant)
              case CallRead(_, count) => Begin(th, ReadLock(count), None, a)
              case CallWrite(_, data) => Begin(th, WriteTry(data), None, a)
              case CallReadAt(_, count, pos) => Begin(th, ReadLock(count), Some(pos), a)
              case CallWriteAt(_, data, pos) => Begin(th, WriteTry(data), Some(pos), a)
              case CallSeek(_, off, whence) => Begin(th, SeekRead(off, whence), None, a)
              case _ => th;
            CallFine(policy, hist, answers, log, t, th')
  {
  }

  lemma CloseFine(policy: Policy, hist: seq<Section>, answers: seq<Answer>, log: seq<Record>, t: nat, th: Thread, a: Action)
    requires CallFine(policy, hist, answers, log, t, th) && a == CallClose(t) && th.pc.Idle?
    ensures var th' := Begin(th, Closed, None, a);
            var r := Returned(t, th', Released);
            Faithful(policy, hist, answers, log, r) && CallFine(policy, hist, answers, log + [r], t, th')
  {
    LogSnoc(log, Returned(t, Begin(th, Closed, None, a), Released));
  }

  lemma SignalFine(policy: Policy, hist: seq<Section>, answers: seq<Answer>, log: seq<Record>, t: nat, th: Thread, signal: bool)
    requires CallFine(policy, hist, answers, log, t, th)
    ensures CallFine(policy, hist, answers, log, t, th.(signal := signal))
  {
  }

  lemma ActionCalls(s: State, a: Action)
    requires Enabled(s, a) && !a.Tick? && CallFine(s.policy, s.hist, s.answers, s.log, a.t, s.threads[a.t])
    ensures QuietMove(s, Apply(s, a), a.t) || ReturnMove(s, Apply(s, a), a.t)
  {
    if a.CallClose? {
      CloseFine(s.policy, s.hist, s.answers, s.log, a.t, s.threads[a.t], a);
    } else if a.Signal? || a.Deliver? {
      SignalFine(s.policy, s.hist, s.answers, s.log, a.t, s.threads[a.t], a.Signal?);
    } else {
      BeginFine(s.policy, s.hist, s.answers, s.log, a.t, s.threads[a.t], a);
    }
  }

  // ------------------------------------------- what unlocked looks see

  /** A step changes counter, if at all, to what it will be when the holder lets go. */
  ghost predicate CounterMove(s: State, s': State, t: nat)
    requires t < |s.threads| == |s'.threads|
  {
    || (s'.hist == s.hist
        && (s'.dev.counter == s.dev.counter
            || (s'.writer == Some(t) && Rest(s.policy, s'.dev, s'.threads[t]).counter == s'.dev.counter)))
    || (|s'.hist| == |s.hist| + 1 && s'.hist[..|s.hist|] == s.hist && s'.dev == s.dev && Free(s) && s'.writer.Some?)
  }

  lemma TruncCounterMove(s: State, t: nat)
    requires t < |s.threads| && s.threads[t].pc.OpenTruncCounter? && s.writer == Some(t)
    ensures CounterMove(s, TickOpen(s, t), t)
  {
  }

  lemma TickOpenCounter(s: State, t: nat)
    requires t < |s.threads| && !s.threads[t].pc.OpenTruncCounter?
    ensures CounterMove(s, TickOpen(s, t), t)
  {
  }

  lemma TickReadCounter(s: State, t: nat)
    requires t < |s.threads|
    ensures CounterMove(s, TickRead(s, t), t)
  {
  }

  lemma TickWriteCounter(s: State, t: nat)
    requires t < |s.threads| && (HoldsWrite(s.threads[t].pc) ==> s.writer == Some(t))
    ensures CounterMove(s, TickWrite(s, t), t)
  {
  }

  lemma TickSeekCounter(s: State, t: nat)
    requires t < |s.threads|
    ensures CounterMove(s, TickSeek(s, t), t)
  {
  }

  lemma MoveKeepsCounter(s: State, s': State, t: nat)
    requires SerialInv(s) && SerialInv(s') && CounterInv(s) && t < |s.threads| == |s'.threads|
    requires s'.policy == s.policy && CounterMove(s, s', t)
    ensures CounterInv(s')
  {
  }
}
