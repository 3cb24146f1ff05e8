/** The invariant of the step machine holds in every state of every run. */
module BlockingOpenRuns {
  import opened CInt
  import opened Options
  import opened DeviceSpec
  import opened BlockingOpen
  import opened BlockingOpenInv
  import opened BlockingOpenSteps

  lemma ReadyToTick(s: State, t: nat)
    requires Inv(s) && CanTick(s, t)
    ensures Ready(s, t)
  {
  }

  lemma TickOpenKeepsInv(s: State, t: nat)
    requires Inv(s) && CanTick(s, t) && InOpen(s.threads[t].pc)
    ensures Inv(TickOpen(s, t))
  {
    ReadyToTick(s, t);
    match s.threads[t].pc {
      case OpenTry => TakeLockControl(s, t); OpenTryData(s, t); OpenEntryAnswers(s, t);
      case OpenAlloc => HoldControl(s, t); OpenAllocData(s, t); OpenHoldAnswers(s, t);
      case OpenCheck => HoldControl(s, t); OpenCheckData(s, t); OpenHoldAnswers(s, t);
      case OpenUnlock => GiveUpControl(s, t); OpenUnlockData(s, t); OpenExitAnswers(s, t);
      case OpenQueue => QueueControl(s, t); OpenQueueData(s, t); OpenOutsideAnswers(s, t);
      case OpenRecheck => SleepControl(s, t); OpenRecheckData(s, t); OpenOutsideAnswers(s, t);
      case OpenSleep => WokenControl(s, t); OpenSleepData(s, t); OpenOutsideAnswers(s, t);
      case OpenDequeue => WakeControl(s, t); OpenDequeueData(s, t); OpenOutsideAnswers(s, t);
      case OpenSignal => WakeControl(s, t); OpenSignalData(s, t); OpenOutsideAnswers(s, t);
      case OpenRelock => TakeLockControl(s, t); OpenRelockData(s, t); OpenEntryAnswers(s, t);
      case OpenCount => HoldControl(s, t); OpenCountData(s, t); OpenCommitAnswers(s, t);
      case OpenAppendOff => CommitControl(s, t); OpenAppendOffData(s, t); OpenCommitAnswers(s, t);
      case OpenTruncByte => CommitControl(s, t); OpenTruncByteData(s, t); OpenCommitAnswers(s, t);
      case OpenTruncCounter => CommitControl(s, t); OpenTruncCounterData(s, t); OpenCommitAnswers(s, t);
      case OpenAppendOn => CommitControl(s, t); OpenAppendOnData(s, t); OpenCommitAnswers(s, t);
      case OpenRelease(_) => ReleaseControl(s, t); OpenReleaseData(s, t); OpenExitAnswers(s, t);
    }
    MoveKeepsInv(s, TickOpen(s, t), t);
  }

  lemma TickReadKeepsInv(s: State, t: nat)
    requires Inv(s) && CanTick(s, t) && InRead(s.threads[t].pc)
    ensures Inv(TickRead(s, t))
  {
    ReadyToTick(s, t);
    match s.threads[t].pc {
      case ReadLock(_) => ReadControl(s, t); ReadLockData(s, t);
      case ReadCheck(_) => ReadControl(s, t); ReadCheckData(s, t);
      case ReadCopy(_, _, _) => ReadControl(s, t); ReadCopyData(s, t);
      case ReadAdvance(_, _) => ReadDoneControl(s, t); ReadAdvanceData(s, t);
      case ReadUnlock(_, _) => ReadDoneControl(s, t); ReadUnlockData(s, t);
    }
    ReadAnswers(s, t);
    MoveKeepsInv(s, TickRead(s, t), t);
  }

  lemma TickWriteKeepsInv(s: State, t: nat)
    requires Inv(s) && CanTick(s, t) && InWrite(s.threads[t].pc)
    ensures Inv(TickWrite(s, t))
  {
    ReadyToTick(s, t);
    match s.threads[t].pc {
      case WriteTry(_) => WriteEnterControl(s, t); WriteTryData(s, t); WriteEntryAnswers(s, t);
      case WriteGuard(_) => WriteControl(s, t); WriteGuardData(s, t); WriteGuardAnswers(s, t);
      case WriteCopy(_, _, _) => WriteControl(s, t); WriteCopyData(s, t); WriteHoldAnswers(s, t);
      case WriteCounter(_, _) => WriteDoneControl(s, t); WriteCounterData(s, t); WriteHoldAnswers(s, t);
      case WriteAdvance(_) => WriteDoneControl(s, t); WriteAdvanceData(s, t); WriteHoldAnswers(s, t);
      case WriteUnlock(_) => WriteDoneControl(s, t); WriteUnlockData(s, t); WriteEntryAnswers(s, t);
      case WriteWake => WakeAllControl(s, t); WriteWakeData(s, t); WriteOutsideAnswers(s, t);
    }
    MoveKeepsInv(s, TickWrite(s, t), t);
  }

  lemma TickSeekKeepsInv(s: State, t: nat)
    requires Inv(s) && CanTick(s, t) && (s.threads[t].pc.SeekRead? || s.threads[t].pc.SeekStore?)
    ensures Inv(TickSeek(s, t))
  {
    ReadyToTick(s, t);
    match s.threads[t].pc {
      case SeekRead(_, _) => SeekControl(s, t); SeekReadData(s, t);
      case SeekStore(_, _) => SeekControl(s, t); SeekStoreData(s, t);
    }
    SeekAnswers(s, t);
    MoveKeepsInv(s, TickSeek(s, t), t);
  }

  /** A change of one thread that is outside every critical section before and after. */
  lemma OutsideKeepsInv(s: State, s': State, t: nat, th': Thread)
    requires Inv(s) && t < |s.threads| && s' == Put(s, t, th').(log := s'.log)
    requires var pc := s.threads[t].pc; pc.Idle? || pc.Closed?
    requires !HoldsWrite(th'.pc) && !HoldsRead(th'.pc) && !th'.pc.OpenSleep? && th'.asleep == s.threads[t].asleep
    requires Fine(s.policy, s.dev, s.len, s.truncs, th') && Rest(s.policy, s.dev, th') == s.dev
    ensures Inv(s')
  {
    MoveKeepsInv(s, s', t);
  }

  lemma CallKeepsInv(s: State, a: Action)
    requires Inv(s) && Enabled(s, a) && (a.CallOpen? || a.CallSeek? || a.CallClose?)
    ensures Inv(Apply(s, a))
  {
    var th, th' := s.threads[a.t], Apply(s, a).threads[a.t];
    assert Apply(s, a) == Put(s, a.t, th').(log := Apply(s, a).log);
    assert Fine(s.policy, s.dev, s.len, s.truncs, th);
    EntryData(s.policy, s.dev, s.len, s.truncs, th, th', a);
    OutsideKeepsInv(s, Apply(s, a), a.t, th');
  }

  lemma TransferKeepsInv(s: State, t: nat, th': Thread, pos: Option<int>, count: int)
    requires Inv(s) && t < |s.threads| && s.threads[t].pc.Idle?
    requires Position(if pos.Some? then pos.value else s.threads[t].fpos, count)
    requires th' == s.threads[t].(pc := th'.pc, ppos := pos, call := th'.call, from := th'.from, section := th'.section)
    requires th'.pc == ReadLock(count) || (th'.pc.WriteTry? && |th'.pc.data| == count)
    ensures Inv(Put(s, t, th'))
  {
    assert Fine(s.policy, s.dev, s.len, s.truncs, s.threads[t]);
    TransferData(s.policy, s.dev, s.len, s.truncs, s.threads[t], th', pos, count);
    OutsideKeepsInv(s, Put(s, t, th'), t, th');
  }

  lemma EntryData(policy: Policy, d: Dev, len: int, truncs: nat, th: Thread, th': Thread, a: Action)
    requires Fine(policy, d, len, truncs, th) && (th.pc.Idle? || th.pc.Closed?)
    requires match a
      case CallOpen(_, f, grant) => th' == Begin(th, OpenTry, None, a).(flags := f, grant := grant) && (grant.Some? ==> |grant.value| == len)
      case CallSeek(_, off, whence) => th.pc.Idle? && th' == Begin(th, SeekRead(off, whence), None, a)
      case CallClose(_) => th' == Begin(th, Closed, None, a)
      case _ => false
    ensures Fine(policy, d, len, truncs, th')
    ensures Rest(policy, d, th') == d
    ensures !HoldsWrite(th'.pc) && !HoldsRead(th'.pc) && !th'.pc.OpenSleep?
  {
  }

  lemma TransferData(policy: Policy, d: Dev, len: int, truncs: nat, th: Thread, th': Thread, pos: Option<int>, count: int)
    requires Fine(policy, d, len, truncs, th) && th.pc.Idle?
    requires Position(if pos.Some? then pos.value else th.fpos, count)
    requires th' == th.(pc := th'.pc, ppos := pos, call := th'.call, from := th'.from, section := th'.section)
    requires th'.pc == ReadLock(count) || (th'.pc.WriteTry? && |th'.pc.data| == count)
    ensures Fine(policy, d, len, truncs, th')
    ensures Rest(policy, d, th') == d
    ensures !HoldsWrite(th'.pc) && !HoldsRead(th'.pc) && !th'.pc.OpenSleep?
  {
  }

  /** The arrival and the delivery of a signal move no program counter. */
  lemma SignalKeepsInv(s: State, a: Action)
    requires Inv(s) && Enabled(s, a) && (a.Signal? || a.Deliver?)
    ensures Inv(Apply(s, a))
  {
    var th, th' := s.threads[a.t], Apply(s, a).threads[a.t];
    assert th' == th.(signal := a.Signal?);
    SignalData(s.policy, s.dev, s.len, s.truncs, th, th');
    MoveKeepsInv(s, Apply(s, a), a.t);
  }

  lemma SignalData(policy: Policy, d: Dev, len: int, truncs: nat, th: Thread, th': Thread)
    requires th' == th.(signal := th'.signal)
    ensures Fine(policy, d, len, truncs, th) ==> Fine(policy, d, len, truncs, th')
    ensures Rest(policy, d, th') == Rest(policy, d, th)
    ensures !HoldsWrite(th.pc) ==> Rest(policy, d, th) == d
  {
  }

  lemma ActionKeepsInv(s: State, a: Action)
    requires Inv(s) && Enabled(s, a) && !a.Tick?
    ensures Inv(Apply(s, a))
  {
    if a.Signal? || a.Deliver? {
      SignalKeepsInv(s, a);
    } else {
      var th' := Apply(s, a).threads[a.t];
      match a {
        case CallRead(t, count) => TransferKeepsInv(s, t, th', None, count);
        case CallWrite(t, data) => TransferKeepsInv(s, t, th', None, |data|);
        case CallReadAt(t, count, pos) => TransferKeepsInv(s, t, th', Some(pos), count);
        case CallWriteAt(t, data, pos) => TransferKeepsInv(s, t, th', Some(pos), |data|);
        case _ => CallKeepsInv(s, a);
      }
    }
  }

  lemma StepKeepsInv(s: State, a: Action)
    requires Inv(s) && Enabled(s, a)
    ensures Inv(Apply(s, a))
  {
    if a.Tick? {
      var pc := s.threads[a.t].pc;
      if InOpen(pc) {
        TickOpenKeepsInv(s, a.t);
      } else if InRead(pc) {
        TickReadKeepsInv(s, a.t);
      } else if InWrite(pc) {
        TickWriteKeepsInv(s, a.t);
      } else {
        TickSeekKeepsInv(s, a.t);
      }
    } else {
      ActionKeepsInv(s, a);
    }
  }

  lemma InitInv(policy: Policy, len: int, n: nat)
    requires 0 < len < TWO_31
    ensures Inv(Init(policy, len, n))
  {
  }

  lemma {:induction false} ExecKeepsInv(s: State, acts: seq<Action>)
    requires Inv(s) && Exec(s, acts).Some?
    ensures Inv(Exec(s, acts).value)
  {
    if acts != [] {
      var most := acts[..|acts| - 1];
      ExecKeepsInv(s, most);
      StepKeepsInv(Exec(s, most).value, acts[|acts| - 1]);
    }
  }

  lemma ReachableInv(s: State)
    requires Reachable(s)
    ensures Inv(s)
  {
    var policy, len, n, acts :| 0 < len < TWO_31 && Exec(Init(policy, len, n), acts) == Some(s);
    InitInv(policy, len, n);
    ExecKeepsInv(Init(policy, len, n), acts);
  }

  /** A run can go on with any action that is possible. */
  lemma ReachStep(s: State, a: Action)
    requires Reachable(s) && Enabled(s, a)
    ensures Reachable(Apply(s, a))
  {
    var policy, len, n, acts :| 0 < len < TWO_31 && Exec(Init(policy, len, n), acts) == Some(s);
    assert (acts + [a])[..|acts|] == acts;
    assert Exec(Init(policy, len, n), acts + [a]) == Some(Apply(s, a));
  }

  lemma {:induction false} ExecFirst(s: State, a: Action, acts: seq<Action>)
    requires Enabled(s, a)
    ensures Exec(s, [a] + acts) == Exec(Apply(s, a), acts)
  {
    var all := [a] + acts;
    if acts == [] {
      assert all[..|all| - 1] == [];
    } else {
      var most := acts[..|acts| - 1];
      assert all[..|all| - 1] == [a] + most && all[|all| - 1] == acts[|acts| - 1];
      ExecFirst(s, a, most);
    }
  }

  lemma TickFirst(s: State, t: nat, rest: seq<Action>)
    requires CanTick(s, t) && forall k | 0 <= k < |rest| :: rest[k] == Tick(t)
    ensures var acts := [Tick(t)] + rest;
            && (forall k | 0 <= k < |acts| :: acts[k] == Tick(t))
            && Exec(s, acts) == Exec(DoTick(s, t), rest)
  {
    ExecFirst(s, Tick(t), rest);
  }
}
