/** When a file has been overtaken by a truncation, in terms of the sections entered and answered. */
module BlockingOpenEpochs {
  import opened CInt
  import opened Options
  import opened BlockingOpen
  import opened BlockingOpenInv
  import opened BlockingOpenRuns
  import opened BlockingOpenCalls
  import opened BlockingOpenCallSteps
  import opened BlockingOpenCallTheorems

  predicate Truncates(sec: Section, answer: Answer) {
    !sec.WriteSec? && sec.flags.trunc && answer.Opened?
  }

  /** How many of the first n sections truncated the device. */
  function TruncsIn(hist: seq<Section>, answers: seq<Answer>, n: nat): nat
    requires n <= |answers| <= |hist|
  {
    if n == 0 then 0 else TruncsIn(hist, answers, n - 1) + if Truncates(hist[n - 1], answers[n - 1]) then 1 else 0
  }

  /** The section by which thread t got its file. */
  function OpenedAt(log: seq<Record>, t: nat): Option<nat> {
    if log == [] then None
    else
      var r := log[|log| - 1];
      if r.t == t && Succeeded(r) then r.section else OpenedAt(log[..|log| - 1], t)
  }

  /** The holder of the write lock has truncated the device. */
  predicate HasCut(s: State) {
    && s.writer.Some? && s.writer.value < |s.threads|
    && var th := s.threads[s.writer.value];
       th.flags.trunc && (th.pc.OpenAppendOn? || th.pc == OpenRelease(true))
  }

  predicate EpochFine(hist: seq<Section>, answers: seq<Answer>, log: seq<Record>, t: nat, th: Thread)
    requires |answers| <= |hist|
  {
    FileOpen(th.pc) ==>
      var k := OpenedAt(log, t);
      k.Some? && k.value < |answers| && th.epoch == TruncsIn(hist, answers, k.value + 1)
  }

  ghost predicate EpochInv(s: State) {
    && |s.answers| <= |s.hist|
    && s.truncs == TruncsIn(s.hist, s.answers, |s.answers|) + (if HasCut(s) then 1 else 0)
    && forall t | 0 <= t < |s.threads| :: EpochFine(s.hist, s.answers, s.log, t, s.threads[t])
  }

  lemma {:induction false} TruncsInKept(hist: seq<Section>, hist': seq<Section>, answers: seq<Answer>, answers': seq<Answer>, n: nat)
    requires n <= |answers| <= |hist| && |answers'| <= |hist'| && Extends(hist, hist') && Extends(answers, answers')
    ensures TruncsIn(hist', answers', n) == TruncsIn(hist, answers, n)
  {
    if n > 0 {
      TruncsInKept(hist, hist', answers, answers', n - 1);
      assert hist'[n - 1] == hist[n - 1] && answers'[n - 1] == answers[n - 1];
    }
  }

  // ------------------------------------------------------------- one step

  /** The records grow by at most one, which is no successful open. */
  predicate NoSuccess(log: seq<Record>, log': seq<Record>) {
    log' == log || (|log'| == |log| + 1 && log'[..|log|] == log && !Succeeded(log'[|log|]))
  }

  function Cuts(s: State): int {
    s.truncs - if HasCut(s) then 1 else 0
  }

  /** A step of thread t that opens no file and leaves no section; it may truncate. */
  ghost predicate EpochStill(s: State, s': State, t: nat)
    requires t < |s.threads| == |s'.threads|
  {
    var th, th' := s.threads[t], s'.threads[t];
    && s'.answers == s.answers && NoSuccess(s.log, s'.log) && Cuts(s') == Cuts(s)
    && th'.epoch == th.epoch && (FileOpen(th'.pc) ==> FileOpen(th.pc))
  }

  /** A step that leaves a section, with a file if that was a successful open. */
  ghost predicate EpochLeave(s: State, s': State, t: nat)
    requires t < |s.threads| == |s'.threads|
  {
    var th, th' := s.threads[t], s'.threads[t];
    && s.writer == Some(t) && HoldsWrite(th.pc) && s'.writer.None? && s'.truncs == s.truncs && s'.hist == s.hist
    && |s'.answers| == |s.answers| + 1 && s'.answers[..|s.answers|] == s.answers
    && (HasCut(s) <==> InOpen(th.pc) && th.flags.trunc && s'.answers[|s.answers|].Opened?)
    && if NoSuccess(s.log, s'.log) then th'.epoch == th.epoch && (FileOpen(th'.pc) ==> FileOpen(th.pc))
       else
         && |s'.log| == |s.log| + 1 && s'.log[..|s.log|] == s.log
         && s'.log[|s.log|].t == t && s'.log[|s.log|].section == th.section && th'.epoch == s.truncs
  }

  predicate Moves(s: State, t: nat) {
    && CanTick(s, t) && (HoldsWrite(s.threads[t].pc) <==> s.writer == Some(t))
    && (InOpen(s.threads[t].pc) ==> s.threads[t].call.CallOpen?)
  }

  predicate Leaves(pc: Pc) {
    pc.OpenUnlock? || pc.OpenRelease? || pc.WriteUnlock?
  }

  lemma TickTryEpoch(s: State, t: nat)
    requires Moves(s, t) && (s.threads[t].pc.OpenTry? || s.threads[t].pc.OpenRelock?)
    ensures EpochStill(s, TickOpen(s, t), t)
  {
  }

  lemma TickWaitEpoch(s: State, t: nat)
    requires Moves(s, t) && (s.threads[t].pc.OpenQueue? || s.threads[t].pc.OpenSignal?)
    ensures EpochStill(s, TickOpen(s, t), t)
  {
  }

  lemma TickQueuedEpoch(s: State, t: nat)
    requires Moves(s, t) && Queued(s.threads[t].pc)
    ensures EpochStill(s, TickOpen(s, t), t)
  {
  }

  lemma TickCutEpoch(s: State, t: nat)
    requires Moves(s, t) && OpenFine(s.dev, s.threads[t])
    requires var pc := s.threads[t].pc; pc.OpenTruncByte? || pc.OpenTruncCounter? || pc.OpenAppendOn?
    ensures EpochStill(s, TickOpen(s, t), t)
  {
  }

  lemma TickInsideEpoch(s: State, t: nat)
    requires Moves(s, t) && (s.threads[t].pc.OpenAlloc? || s.threads[t].pc.OpenCheck?)
    ensures EpochStill(s, TickOpen(s, t), t)
  {
  }

  lemma TickHeldEpoch(s: State, t: nat)
    requires Moves(s, t) && (s.threads[t].pc.OpenCount? || s.threads[t].pc.OpenAppendOff?)
    ensures EpochStill(s, TickOpen(s, t), t)
  {
  }

  lemma TickUnlockEpoch(s: State, t: nat)
    requires Moves(s, t) && s.threads[t].pc.OpenUnlock?
    ensures EpochLeave(s, TickOpen(s, t), t)
  {
  }

  lemma TickLeaveEpoch(s: State, t: nat)
    requires Moves(s, t) && s.threads[t].pc.OpenRelease?
    ensures EpochLeave(s, TickOpen(s, t), t)
  {
  }

  lemma TickReadEpoch(s: State, t: nat)
    requires Moves(s, t) && InRead(s.threads[t].pc)
    ensures EpochStill(s, TickRead(s, t), t)
  {
  }

  lemma TickWriteEpoch(s: State, t: nat)
    requires Moves(s, t) && InWrite(s.threads[t].pc) && !Leaves(s.threads[t].pc)
    ensures EpochStill(s, TickWrite(s, t), t)
  {
  }

  lemma WriteLeaveEpoch(s: State, t: nat)
    requires Moves(s, t) && s.threads[t].pc.WriteUnlock?
    ensures EpochLeave(s, TickWrite(s, t), t)
  {
  }

  lemma TickSeekEpoch(s: State, t: nat)
    requires Moves(s, t) && (s.threads[t].pc.SeekRead? || s.threads[t].pc.SeekStore?)
    ensures EpochStill(s, TickSeek(s, t), t)
  {
  }

  lemma TickEpoch(s: State, t: nat)
    requires Moves(s, t) && OpenFine(s.dev, s.threads[t])
    ensures |DoTick(s, t).threads| == |s.threads| && (EpochStill(s, DoTick(s, t), t) || EpochLeave(s, DoTick(s, t), t))
  {
    var pc := s.threads[t].pc;
    if InOpen(pc) {
      if pc.OpenTry? || pc.OpenRelock? {
        TickTryEpoch(s, t);
      } else if pc.OpenUnlock? {
        TickUnlockEpoch(s, t);
      } else if pc.OpenRelease? {
        TickLeaveEpoch(s, t);
      } else if pc.OpenTruncByte? || pc.OpenTruncCounter? || pc.OpenAppendOn? {
        TickCutEpoch(s, t);
      } else if Committing(pc) {
        TickHeldEpoch(s, t);
      } else if HoldsWrite(pc) {
        TickInsideEpoch(s, t);
      } else if Queued(pc) {
        TickQueuedEpoch(s, t);
      } else {
        TickWaitEpoch(s, t);
      }
    } else if InRead(pc) {
      TickReadEpoch(s, t);
    } else if pc.WriteUnlock? {
      WriteLeaveEpoch(s, t);
    } else if InWrite(pc) {
      TickWriteEpoch(s, t);
    } else {
      TickSeekEpoch(s, t);
    }
  }

  lemma ActionEpoch(s: State, a: Action)
    requires Enabled(s, a) && !a.Tick?
    ensures EpochStill(s, Apply(s, a), a.t)
  {
  }

  lemma OpenedAtSnoc(log: seq<Record>, log': seq<Record>, i: nat)
    requires |log'| == |log| + 1 && log'[..|log|] == log
    ensures OpenedAt(log', i) == if log'[|log|].t == i && Succeeded(log'[|log|]) then log'[|log|].section else OpenedAt(log, i)
  {
  }

  lemma StillKeepsEpochs(s: State, s': State, t: nat)
    requires EpochInv(s) && Local(s, s', t) && EpochStill(s, s', t) && Extends(s.hist, s'.hist)
    ensures EpochInv(s')
  {
    TruncsInKept(s.hist, s'.hist, s.answers, s'.answers, |s.answers|);
    forall i | 0 <= i < |s'.threads| ensures EpochFine(s'.hist, s'.answers, s'.log, i, s'.threads[i]) {
      if FileOpen(s'.threads[i].pc) {
        if s'.log != s.log {
          OpenedAtSnoc(s.log, s'.log, i);
        }
        assert EpochFine(s.hist, s.answers, s.log, i, s.threads[i]);
        TruncsInKept(s.hist, s'.hist, s.answers, s'.answers, OpenedAt(s.log, i).value + 1);
      }
    }
  }

  lemma LeaveKeepsEpochs(s: State, s': State, t: nat)
    requires EpochInv(s) && Local(s, s', t) && EpochLeave(s, s', t) && |s.hist| == |s.answers| + 1
    requires SectionFine(s.hist, s.answers, s.threads[t])
    ensures EpochInv(s')
  {
    var n := |s.answers|;
    assert Truncates(s'.hist[n], s'.answers[n]) <==> HasCut(s);
    TruncsInKept(s.hist, s'.hist, s.answers, s'.answers, n);
    forall i | 0 <= i < |s'.threads| ensures EpochFine(s'.hist, s'.answers, s'.log, i, s'.threads[i]) {
      if FileOpen(s'.threads[i].pc) {
        if s'.log != s.log {
          OpenedAtSnoc(s.log, s'.log, i);
        }
        if i != t || NoSuccess(s.log, s'.log) {
          assert EpochFine(s.hist, s.answers, s.log, i, s.threads[i]);
          TruncsInKept(s.hist, s'.hist, s.answers, s'.answers, OpenedAt(s.log, i).value + 1);
        }
      }
    }
  }

  lemma ReadyToMove(s: State, t: nat)
    requires Inv(s) && CallsInv(s) && CanTick(s, t)
    ensures Moves(s, t) && OpenFine(s.dev, s.threads[t]) && SectionFine(s.hist, s.answers, s.threads[t])
    ensures s.writer.Some? ==> |s.hist| == |s.answers| + 1
  {
    assert Fine(s.policy, s.dev, s.len, s.truncs, s.threads[t]);
    assert CallFine(s.policy, s.hist, s.answers, s.log, t, s.threads[t]);
  }

  lemma TickGrows(s: State, t: nat)
    requires Inv(s) && CallsInv(s) && CanTick(s, t)
    ensures Local(s, DoTick(s, t), t) && Extends(s.hist, DoTick(s, t).hist)
  {
    ReadyToCall(s, t);
    TickCalls(s, t);
  }

  lemma TickKeepsEpochs(s: State, t: nat)
    requires Inv(s) && CallsInv(s) && EpochInv(s) && CanTick(s, t)
    ensures EpochInv(DoTick(s, t))
  {
    var s' := DoTick(s, t);
    ReadyToMove(s, t);
    TickGrows(s, t);
    TickEpoch(s, t);
    if EpochStill(s, s', t) {
      StillKeepsEpochs(s, s', t);
    } else {
      LeaveKeepsEpochs(s, s', t);
    }
  }

  lemma ActionKeepsEpochs(s: State, a: Action)
    requires EpochInv(s) && Enabled(s, a) && !a.Tick?
    ensures EpochInv(Apply(s, a))
  {
    ActionLocal(s, a);
    ActionEpoch(s, a);
    StillKeepsEpochs(s, Apply(s, a), a.t);
  }

  lemma {:induction false} ExecKeepsEpochs(s: State, acts: seq<Action>)
    requires Inv(s) && CallsInv(s) && EpochInv(s) && Exec(s, acts).Some?
    ensures var s' := Exec(s, acts).value; Inv(s') && CallsInv(s') && EpochInv(s')
  {
    if acts != [] {
      var most := acts[..|acts| - 1];
      ExecKeepsEpochs(s, most);
      var m, a := Exec(s, most).value, acts[|acts| - 1];
      StepKeepsCalls(m, a);
      if a.Tick? {
        TickKeepsEpochs(m, a.t);
      } else {
        ActionKeepsEpochs(m, a);
      }
    }
  }

  lemma ReachableEpochs(s: State)
    requires Reachable(s)
    ensures EpochInv(s)
  {
    var policy, len, n, acts :| 0 < len < TWO_31 && Exec(Init(policy, len, n), acts) == Some(s);
    InitInv(policy, len, n);
    InitCalls(policy, len, n);
    ExecKeepsEpochs(Init(policy, len, n), acts);
  }

  // ---------------------------------------------------------- what it means

  lemma {:induction false} NoTruncsBetween(hist: seq<Section>, answers: seq<Answer>, k: nat, n: nat)
    requires k <= n <= |answers| <= |hist|
    requires forall j | k <= j < n :: !Truncates(hist[j], answers[j])
    ensures TruncsIn(hist, answers, n) == TruncsIn(hist, answers, k)
  {
    if k < n {
      NoTruncsBetween(hist, answers, k, n - 1);
    }
  }

  /** A file has the section that opened it; and while no section after that one has truncated the device, its
      offset is within the content, in append mode, among positional calls and with seeks racing writers. */
  lemma OffsetsFollowHistory(s: State, t: nat)
    requires Reachable(s) && t < |s.threads| && FileOpen(s.threads[t].pc)
    ensures var k := OpenedAt(s.log, t);
            && k.Some? && k.value < |s.answers| <= |s.hist|
            && (!HasCut(s) && (forall j | k.value < j < |s.answers| :: !Truncates(s.hist[j], s.answers[j]))
                ==> 0 <= s.threads[t].fpos <= s.dev.counter)
  {
    EpochKnown(s, t);
    FileKnown(s, t);
    if !HasCut(s) {
      SameEpoch(s.hist, s.answers, OpenedAt(s.log, t).value);
    }
  }

  lemma SameEpoch(hist: seq<Section>, answers: seq<Answer>, k: nat)
    requires k < |answers| <= |hist|
    ensures (forall j | k < j < |answers| :: !Truncates(hist[j], answers[j])) ==>
              TruncsIn(hist, answers, |answers|) == TruncsIn(hist, answers, k + 1)
  {
    if forall j | k < j < |answers| :: !Truncates(hist[j], answers[j]) {
      NoTruncsBetween(hist, answers, k + 1, |answers|);
    }
  }

  lemma EpochKnown(s: State, t: nat)
    requires Reachable(s) && t < |s.threads|
    ensures |s.answers| <= |s.hist| && EpochFine(s.hist, s.answers, s.log, t, s.threads[t])
    ensures s.truncs == TruncsIn(s.hist, s.answers, |s.answers|) + (if HasCut(s) then 1 else 0)
  {
    ReachableEpochs(s);
  }

  lemma FileKnown(s: State, t: nat)
    requires Reachable(s) && t < |s.threads| && FileOpen(s.threads[t].pc)
    ensures 0 <= s.threads[t].fpos && (s.threads[t].epoch == s.truncs ==> s.threads[t].fpos <= s.dev.counter)
  {
    ReachableInv(s);
    assert Fine(s.policy, s.dev, s.len, s.truncs, s.threads[t]);
  }
}
