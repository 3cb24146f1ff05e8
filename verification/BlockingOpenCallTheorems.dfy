/** What every call of every run returns, and that it returns. */
module BlockingOpenCallTheorems {
  import opened CInt
  import opened Options
  import opened DeviceSpec
  import opened BlockingOpen
  import opened BlockingOpenInv
  import opened BlockingOpenRuns
  import opened BlockingOpenCalls
  import opened BlockingOpenCallSteps

  // ------------------------------------------------------- in every run

  lemma TickOpenLocal(s: State, t: nat)
    requires t < |s.threads|
    ensures Local(s, TickOpen(s, t), t)
  {
  }

  lemma TickReadLocal(s: State, t: nat)
    requires t < |s.threads|
    ensures Local(s, TickRead(s, t), t)
  {
  }

  lemma TickWriteLocal(s: State, t: nat)
    requires t < |s.threads|
    ensures Local(s, TickWrite(s, t), t)
  {
  }

  lemma ActionLocal(s: State, a: Action)
    requires Enabled(s, a) && !a.Tick?
    ensures Local(s, Apply(s, a), a.t) && CounterMove(s, Apply(s, a), a.t)
  {
  }

  lemma TickCalls(s: State, t: nat)
    requires Calling(s, t)
    ensures Local(s, DoTick(s, t), t) && (QuietMove(s, DoTick(s, t), t) || ReturnMove(s, DoTick(s, t), t))
  {
    var pc := s.threads[t].pc;
    if InOpen(pc) {
      TickOpenLocal(s, t);
      TickOpenCalls(s, t);
    } else if InRead(pc) {
      TickReadLocal(s, t);
      TickReadCalls(s, t);
    } else if InWrite(pc) {
      TickWriteLocal(s, t);
      TickWriteCalls(s, t);
    } else {
      TickSeekCalls(s, t);
    }
  }

  lemma TickCounter(s: State, t: nat)
    requires Calling(s, t)
    ensures CounterMove(s, DoTick(s, t), t)
  {
    var pc := s.threads[t].pc;
    if pc.OpenTruncCounter? {
      TruncCounterMove(s, t);
    } else if InOpen(pc) {
      TickOpenCounter(s, t);
    } else if InRead(pc) {
      TickReadCounter(s, t);
    } else if InWrite(pc) {
      TickWriteCounter(s, t);
    } else {
      TickSeekCounter(s, t);
    }
  }

  lemma StepKeepsCalls(s: State, a: Action)
    requires Inv(s) && CallsInv(s) && Enabled(s, a)
    ensures Inv(Apply(s, a)) && CallsInv(Apply(s, a))
  {
    StepKeepsInv(s, a);
    if a.Tick? {
      ReadyToCall(s, a.t);
      TickCalls(s, a.t);
      TickCounter(s, a.t);
    } else {
      ActionLocal(s, a);
      ActionCalls(s, a);
    }
    MoveKeepsCounter(s, Apply(s, a), a.t);
    MoveKeepsCalls(s, Apply(s, a), a.t);
  }

  lemma InitCalls(policy: Policy, len: int, n: nat)
    ensures CallsInv(Init(policy, len, n))
  {
  }

  lemma {:induction false} ExecKeepsCalls(s: State, acts: seq<Action>)
    requires Inv(s) && CallsInv(s) && Exec(s, acts).Some?
    ensures Inv(Exec(s, acts).value) && CallsInv(Exec(s, acts).value)
  {
    if acts != [] {
      var most := acts[..|acts| - 1];
      ExecKeepsCalls(s, most);
      StepKeepsCalls(Exec(s, most).value, acts[|acts| - 1]);
    }
  }

  lemma ReachableCalls(s: State)
    requires Reachable(s)
    ensures Inv(s) && CallsInv(s)
  {
    var policy, len, n, acts :| 0 < len < TWO_31 && Exec(Init(policy, len, n), acts) == Some(s);
    InitInv(policy, len, n);
    InitCalls(policy, len, n);
    ExecKeepsCalls(Init(policy, len, n), acts);
  }

  // --------------------------------------------------- what calls return

  /** In every run of any number of threads, every call that has returned started at its file's offset (where
      the file's calls before it left it) or at the position handed in, worked with the arguments it was
      given, returned what its section answers in the serial run (or for a read a slice of one of its
      states), and left its position accordingly. */
  lemma EveryCallIsFaithful(s: State, k: nat)
    requires Reachable(s) && k < |s.log|
    ensures Faithful(s.policy, s.hist, s.answers, s.log[..k], s.log[k])
    ensures var r := s.log[k];
            r.section.Some? && r.outcome.Answered? ==>
              && r.section.value < |s.answers| < |s.hist| + 1
              && r.outcome.answer == SectionAnswer(s.policy, Replay(s.policy, s.hist[..r.section.value]), s.hist[r.section.value])
  {
    ReachableCalls(s);
    var r := s.log[k];
    assert Faithful(s.policy, s.hist, s.answers, s.log[..k], r);
    if r.section.Some? && r.outcome.Answered? {
      assert s.answers[r.section.value] == SerialAnswer(s.policy, s.hist, r.section.value);
    }
  }

  /** A write that succeeds has moved its position past its data, which its section put there; one that
      does not has moved nothing. */
  lemma WriteCallsAdvance(s: State, k: nat)
    requires Reachable(s) && k < |s.log| && (s.log[k].call.CallWrite? || s.log[k].call.CallWriteAt?)
    ensures var r := s.log[k];
            if r.outcome.Answered? && r.outcome.answer.Wrote? then
              && r.outcome.answer.n == |r.call.data| == r.to - r.from
              && r.section.Some? && r.section.value < |s.hist| && s.hist[r.section.value] == WriteSec(r.from, r.call.data)
            else r.to == r.from && (r.outcome == Restart || r.outcome == Answered(Fault))
  {
    EveryCallIsFaithful(s, k);
  }

  lemma {:induction false} OffsetUntouched(log: seq<Record>, t: nat, j: nat, k: nat)
    requires j < k <= |log| && log[j].t == t && MovesOffset(log[j])
    requires forall i | j < i < k :: log[i].t == t ==> !MovesOffset(log[i])
    ensures FileOffset(log[..k], t) == log[j].to
  {
    var before := log[..k];
    assert before[|before| - 1] == log[k - 1] && before[..|before| - 1] == log[..k - 1];
    if j < k - 1 {
      OffsetUntouched(log, t, j, k - 1);
    }
  }

  /** So a file's transfers and seeks join up: each starts where the file's previous one ended, whatever
      other threads and positional calls do in between. */
  lemma CallsJoinUp(s: State, j: nat, k: nat)
    requires Reachable(s) && j < k < |s.log| && s.log[j].t == s.log[k].t
    requires MovesOffset(s.log[j]) && MovesOffset(s.log[k]) && !s.log[k].call.CallOpen?
    requires forall i | j < i < k :: s.log[i].t == s.log[k].t ==> !MovesOffset(s.log[i])
    ensures s.log[k].from == s.log[j].to
    ensures Succeeded(s.log[j]) ==> s.log[k].from == 0
  {
    EveryCallIsFaithful(s, j);
    EveryCallIsFaithful(s, k);
    OffsetUntouched(s.log, s.log[k].t, j, k);
  }

  lemma SeekMeaning(policy: Policy, hist: seq<Section>, answers: seq<Answer>, before: seq<Record>, r: Record)
    requires Faithful(policy, hist, answers, before, r) && r.call.CallSeek? && !r.call.whence.SeekOther?
    ensures SeekLands(policy, hist, r)
  {
  }

  /** A seek, which takes no lock and looks at counter twice, goes where its first look and its offset say if
      that fits in int and its second look allows it; and with equal looks it does what llseek is described
      to do, exactly unless the sum leaves int and its low 32 bits fall inside the file. */
  lemma SeekCallsLand(s: State, k: nat)
    requires Reachable(s) && k < |s.log| && s.log[k].call.CallSeek? && !s.log[k].call.whence.SeekOther?
    ensures SeekLands(s.policy, s.hist, s.log[k])
  {
    EveryCallIsFaithful(s, k);
    SeekMeaning(s.policy, s.hist, s.answers, s.log[..k], s.log[k]);
  }

  ghost predicate SeekLands(policy: Policy, hist: seq<Section>, r: Record)
    requires r.call.CallSeek?
  {
    var o, off, whence := r.outcome, r.call.off, r.call.whence;
    && o.Sought? && SerialCounter(policy, hist, o.first) && SerialCounter(policy, hist, o.second)
    && var sum := SeekBase(whence, r.from, o.first) + off;
       && (FitsInt(sum) ==> (o.ok <==> 0 <= sum <= o.second) && r.to == if o.ok then sum else r.from)
       && (o.ok ==> 0 <= r.to <= o.second)
       && (!o.ok ==> r.to == r.from)
       && (o.first == o.second ==>
             ((if o.ok then Some(r.to) else None) == PlainSeek(whence, r.from, off, o.first)
              <==> FitsInt(sum) || !(0 <= ToInt(sum) <= o.first)))
  }

  /** A non-blocking open returns at once what its first section answers: success, no memory, or -EAGAIN for
      having to wait; or it did not get the lock. It is never on the wait queue and never asleep. */
  lemma NonblockingOpenNeverWaits(s: State, t: nat)
    requires Reachable(s) && t < |s.threads| && InOpen(s.threads[t].pc) && s.threads[t].flags.nonblock
    ensures var pc := s.threads[t].pc; !Queued(pc) && !pc.OpenSignal? && !pc.OpenRelock?
    ensures t !in s.queue && !s.threads[t].asleep
  {
    ReachableCalls(s);
    assert CallFine(s.policy, s.hist, s.answers, s.log, t, s.threads[t]);
  }

  /** Having found that it must wait and given the lock back, an open fails with -EAGAIN exactly if it is not
      to block, and else goes to the wait queue. */
  lemma WouldBlockIff(s: State, t: nat)
    requires Reachable(s) && t < |s.threads| && s.threads[t].pc.OpenQueue?
    ensures var s' := Apply(s, Tick(t));
            if s.threads[t].flags.nonblock then
              s'.threads[t].pc.Closed? && |s'.log| == |s.log| + 1 && s'.log[|s.log|].t == t && s'.log[|s.log|].outcome == Again
            else Queued(s'.threads[t].pc) && t in s'.queue && s'.log == s.log
  {
  }

  lemma NonblockingOpenReturns(s: State, k: nat)
    requires Reachable(s) && k < |s.log| && s.log[k].call.CallOpen? && s.log[k].call.flags.nonblock
    ensures var r := s.log[k];
            match r.section
            case None => r.outcome == Restart
            case Some(j) =>
              && j < |s.hist| && s.hist[j] == OpenSec(r.call.flags, r.call.grant)
              && var a := SectionAnswer(s.policy, Replay(s.policy, s.hist[..j]), s.hist[j]);
                 r.outcome == if a.MustWait? then Again else Answered(a)
  {
    ReachableCalls(s);
    var r := s.log[k];
    assert Faithful(s.policy, s.hist, s.answers, s.log[..k], r);
    if r.section.Some? {
      assert s.answers[r.section.value] == SerialAnswer(s.policy, s.hist, r.section.value);
    }
  }

  // ------------------------------------------ no call lost, none made up

  /** From its first line until it is recorded as returned. */
  predicate InCall(pc: Pc) {
    !pc.Closed? && !pc.Idle? && !pc.WriteWake?
  }

  predicate IsCall(a: Action) {
    !a.Signal? && !a.Deliver? && !a.Tick?
  }

  /** The calls thread t made in a schedule, */
  function CallsOf(acts: seq<Action>, t: nat): seq<Action> {
    if acts == [] then []
    else
      var a := acts[|acts| - 1];
      CallsOf(acts[..|acts| - 1], t) + if IsCall(a) && a.t == t then [a] else []
  }

  /** and those that have returned to it. */
  function ReturnsTo(log: seq<Record>, t: nat): seq<Action> {
    if log == [] then []
    else
      var r := log[|log| - 1];
      ReturnsTo(log[..|log| - 1], t) + if r.t == t then [r.call] else []
  }

  function Pending(th: Thread): seq<Action> {
    if InCall(th.pc) then [th.call] else []
  }

  /** A step of thread t neither begins a call nor ends one, or ends the one it is in. */
  ghost predicate ReturnOrNot(s: State, s': State, t: nat)
    requires t < |s.threads| == |s'.threads|
  {
    var th, th' := s.threads[t], s'.threads[t];
    || (s'.log == s.log && Pending(th') == Pending(th))
    || (InCall(th.pc) && !InCall(th'.pc) && |s'.log| == |s.log| + 1 && s'.log[..|s.log|] == s.log
        && s'.log[|s.log|].t == t && s'.log[|s.log|].call == th.call)
  }

  lemma TickCommitReturns(s: State, t: nat)
    requires t < |s.threads| && Committing(s.threads[t].pc)
    ensures ReturnOrNot(s, TickOpen(s, t), t)
  {
  }

  lemma TickOpenReturns(s: State, t: nat)
    requires t < |s.threads| && !Committing(s.threads[t].pc) && !Queued(s.threads[t].pc)
    ensures ReturnOrNot(s, TickOpen(s, t), t)
  {
  }

  lemma TickQueuedReturns(s: State, t: nat)
    requires t < |s.threads| && Queued(s.threads[t].pc)
    ensures ReturnOrNot(s, TickOpen(s, t), t)
  {
  }

  lemma TickReadReturns(s: State, t: nat)
    requires t < |s.threads|
    ensures ReturnOrNot(s, TickRead(s, t), t)
  {
  }

  lemma TickWriteCopyReturns(s: State, t: nat)
    requires t < |s.threads| && (s.threads[t].pc.WriteCopy? || s.threads[t].pc.WriteTry?)
    ensures ReturnOrNot(s, TickWrite(s, t), t)
  {
  }

  lemma TickWriteReturns(s: State, t: nat)
    requires t < |s.threads| && !s.threads[t].pc.WriteCopy? && !s.threads[t].pc.WriteTry?
    ensures ReturnOrNot(s, TickWrite(s, t), t)
  {
  }

  lemma TickReturns(s: State, t: nat)
    requires CanTick(s, t)
    ensures ReturnOrNot(s, DoTick(s, t), t) && Local(s, DoTick(s, t), t)
  {
    var pc := s.threads[t].pc;
    if InOpen(pc) {
      TickOpenLocal(s, t);
      if Committing(pc) {
        TickCommitReturns(s, t);
      } else if Queued(pc) {
        TickQueuedReturns(s, t);
      } else {
        TickOpenReturns(s, t);
      }
    } else if InRead(pc) {
      TickReadReturns(s, t);
      TickReadLocal(s, t);
    } else if InWrite(pc) {
      TickWriteLocal(s, t);
      if pc.WriteCopy? || pc.WriteTry? {
        TickWriteCopyReturns(s, t);
      } else {
        TickWriteReturns(s, t);
      }
    }
  }

  /** The books of thread t after one step, of it or of another thread. */
  lemma TickAccounted(s: State, u: nat, t: nat)
    requires CanTick(s, u) && t < |s.threads|
    ensures var s' := DoTick(s, u);
            && |s'.threads| == |s.threads|
            && ReturnsTo(s'.log, t) + Pending(s'.threads[t]) == ReturnsTo(s.log, t) + Pending(s.threads[t])
  {
    TickReturns(s, u);
    var s' := DoTick(s, u);
    if s'.log != s.log {
      assert s'.log == s.log + [s'.log[|s.log|]];
      assert ReturnsTo(s'.log, t) == ReturnsTo(s.log, t) + if u == t then [s.threads[u].call] else [];
    }
  }

  lemma CloseAccounted(s: State, u: nat, t: nat)
    requires Enabled(s, CallClose(u)) && t < |s.threads|
    ensures var s' := Apply(s, CallClose(u));
            && |s'.threads| == |s.threads|
            && ReturnsTo(s'.log, t) + Pending(s'.threads[t])
               == ReturnsTo(s.log, t) + Pending(s.threads[t]) + if u == t then [CallClose(u)] else []
  {
    var r := Returned(u, Begin(s.threads[u], Closed, None, CallClose(u)), Released);
    assert (s.log + [r])[..|s.log|] == s.log;
  }

  lemma CallAccounted(s: State, a: Action, t: nat)
    requires Enabled(s, a) && !a.Tick? && !a.CallClose? && t < |s.threads|
    ensures var s' := Apply(s, a);
            && |s'.threads| == |s.threads| && s'.log == s.log
            && Pending(s'.threads[t]) == Pending(s.threads[t]) + if IsCall(a) && a.t == t then [a] else []
  {
  }

  /** The calls a thread has made are, in order, the ones that have returned to it and the one it is in:
      each returns at most once, with its own arguments, and nothing else ever returns. */
  lemma {:induction false} CallsAreAccountedFor(s0: State, acts: seq<Action>, t: nat)
    requires t < |s0.threads| && s0.log == [] && !InCall(s0.threads[t].pc) && Exec(s0, acts).Some?
    ensures var s := Exec(s0, acts).value;
            && |s.threads| == |s0.threads|
            && CallsOf(acts, t) == ReturnsTo(s.log, t) + Pending(s.threads[t])
  {
    if acts != [] {
      var most := acts[..|acts| - 1];
      CallsAreAccountedFor(s0, most, t);
      var s, a := Exec(s0, most).value, acts[|acts| - 1];
      if a.Tick? {
        TickAccounted(s, a.t, t);
      } else if a.CallClose? {
        CloseAccounted(s, a.t, t);
      } else {
        CallAccounted(s, a, t);
      }
    }
  }
}
