/** That calls return, and what their opens are counted by. */
module BlockingOpenProgress {
  import opened CInt
  import opened Options
  import opened DeviceSpec
  import opened BlockingOpen
  import opened BlockingOpenInv
  import opened BlockingOpenRuns
  import opened BlockingOpenCallTheorems

  /** down_write_trylock succeeds exactly if nobody is inside, and otherwise the call returns at once. */
  lemma TrylockIff(s: State, t: nat)
    requires Reachable(s) && t < |s.threads| && TriesLock(s.threads[t].pc)
    ensures var s' := Apply(s, Tick(t));
            if forall u | 0 <= u < |s.threads| :: !HoldsWrite(s.threads[u].pc) && !HoldsRead(s.threads[u].pc) then
              s'.writer == Some(t) && HoldsWrite(s'.threads[t].pc) && s'.log == s.log
            else
              && s'.writer == s.writer && Out(s'.threads[t].pc)
              && |s'.log| == |s.log| + 1 && s'.log[|s.log|].t == t && s'.log[|s.log|].outcome == Restart
  {
    FreeIff(s);
    TickTries(s, t);
  }

  predicate TriesLock(pc: Pc) {
    pc.OpenTry? || pc.OpenRelock? || pc.WriteTry?
  }

  lemma TickTries(s: State, t: nat)
    requires t < |s.threads| && TriesLock(s.threads[t].pc)
    ensures var s' := DoTick(s, t);
            && t < |s'.threads|
            && if Free(s) then s'.writer == Some(t) && HoldsWrite(s'.threads[t].pc) && s'.log == s.log
               else
                 && s'.writer == s.writer && Out(s'.threads[t].pc)
                 && |s'.log| == |s.log| + 1 && s'.log[|s.log|].t == t && s'.log[|s.log|].outcome == Restart
  {
  }

  lemma FreeIff(s: State)
    requires Reachable(s)
    ensures Free(s) <==> forall u | 0 <= u < |s.threads| :: !HoldsWrite(s.threads[u].pc) && !HoldsRead(s.threads[u].pc)
  {
    ReachableInv(s);
    if s.writer.Some? {
      assert HoldsWrite(s.threads[s.writer.value].pc);
    }
    if s.readers != {} {
      var u :| u in s.readers;
      assert HoldsRead(s.threads[u].pc);
    }
  }

  /** How many more steps a thread takes, at most, until it is out of the driver. */
  function StepsToReturn(pc: Pc): nat {
    match pc
    case OpenTry => 9
    case OpenAlloc => 8
    case OpenCheck => 7
    case OpenCount => 6
    case OpenAppendOff => 5
    case OpenTruncByte => 4
    case OpenTruncCounter => 3
    case OpenAppendOn => 2
    case OpenRelease(_) => 1
    case OpenUnlock => 2
    case OpenQueue => 1
    case ReadLock(count) => 5 + Max(0, count)
    case ReadCheck(count) => 4 + Max(0, count)
    case ReadCopy(_, n, buf) => 3 + Max(0, n - |buf|)
    case ReadAdvance(_, _) => 2
    case ReadUnlock(_, _) => 1
    case WriteTry(data) => 7 + |data|
    case WriteGuard(data) => 6 + |data|
    case WriteCopy(_, data, i) => 5 + Max(0, |data| - i)
    case WriteCounter(_, _) => 4
    case WriteAdvance(_) => 3
    case WriteUnlock(_) => 2
    case WriteWake => 1
    case SeekRead(_, _) => 2
    case SeekStore(_, _) => 1
    case _ => 0
  }

  predicate Out(pc: Pc) {
    pc.Closed? || pc.Idle?
  }

  /** A call that nothing makes wait: an open that may write or must not block, a read that no writer keeps
      out, any write, any seek; and what it copies to or from is there. */
  ghost predicate Unhindered(s: State, t: nat) {
    && t < |s.threads| && !Out(s.threads[t].pc)
    && var th := s.threads[t];
       && (InOpen(th.pc) ==> th.flags.writable || th.flags.nonblock)
       && (th.pc.ReadLock? ==> s.writer.None?)
       && (InOpen(th.pc) || s.policy.FirstUse?)
  }

  lemma UnhinderedMoves(s: State, t: nat)
    requires Reachable(s) && Unhindered(s, t)
    ensures CanTick(s, t) && !Queued(s.threads[t].pc) && !s.threads[t].pc.OpenSignal? && !s.threads[t].pc.OpenRelock?
    ensures ReadFine(s.dev, s.threads[t]) && Sound(s.dev, s.len)
    ensures s.threads[t].pc.OpenUnlock? || s.threads[t].pc.OpenQueue? ==> s.threads[t].flags.nonblock
  {
    ReachableInv(s);
    assert Fine(s.policy, s.dev, s.len, s.truncs, s.threads[t]);
    if InOpen(s.threads[t].pc) && s.threads[t].flags.nonblock {
      NonblockingOpenNeverWaits(s, t);
    }
  }

  lemma OpenShrinks(s: State, t: nat)
    requires CanTick(s, t) && InOpen(s.threads[t].pc)
    requires var th := s.threads[t];
             && !Queued(th.pc) && !th.pc.OpenSignal? && !th.pc.OpenRelock?
             && (th.pc.OpenUnlock? || th.pc.OpenQueue? ==> th.flags.nonblock)
    ensures var th' := TickOpen(s, t).threads[t];
            StepsToReturn(th'.pc) < StepsToReturn(s.threads[t].pc) && (Out(th'.pc) || InOpen(th'.pc)) && th'.flags == s.threads[t].flags
    ensures TickOpen(s, t).policy == s.policy && |TickOpen(s, t).threads| == |s.threads|
  {
  }

  lemma ReadCheckShrinks(s: State, t: nat)
    requires CanTick(s, t) && s.threads[t].pc.ReadCheck? && ReadFine(s.dev, s.threads[t]) && Sound(s.dev, s.len)
    ensures var th' := TickRead(s, t).threads[t];
            StepsToReturn(th'.pc) < StepsToReturn(s.threads[t].pc) && !InOpen(th'.pc) && !th'.pc.ReadLock?
    ensures TickRead(s, t).policy == s.policy && |TickRead(s, t).threads| == |s.threads|
  {
    ReadCountExact(Offset(s.threads[t]), s.threads[t].pc.count, s.dev.counter);
  }

  lemma ReadShrinks(s: State, t: nat)
    requires CanTick(s, t) && InRead(s.threads[t].pc) && !s.threads[t].pc.ReadCheck?
    ensures var th' := TickRead(s, t).threads[t];
            StepsToReturn(th'.pc) < StepsToReturn(s.threads[t].pc) && !InOpen(th'.pc) && !th'.pc.ReadLock?
    ensures TickRead(s, t).policy == s.policy && |TickRead(s, t).threads| == |s.threads|
  {
  }

  lemma WriteEnterShrinks(s: State, t: nat)
    requires CanTick(s, t) && (s.threads[t].pc.WriteTry? || s.threads[t].pc.WriteCopy?)
    ensures var th' := TickWrite(s, t).threads[t];
            StepsToReturn(th'.pc) < StepsToReturn(s.threads[t].pc) && !InOpen(th'.pc) && !th'.pc.ReadLock?
    ensures TickWrite(s, t).policy == s.policy && |TickWrite(s, t).threads| == |s.threads|
  {
  }

  lemma WriteShrinks(s: State, t: nat)
    requires CanTick(s, t) && InWrite(s.threads[t].pc) && !s.threads[t].pc.WriteTry? && !s.threads[t].pc.WriteCopy?
    ensures var th' := TickWrite(s, t).threads[t];
            StepsToReturn(th'.pc) < StepsToReturn(s.threads[t].pc) && !InOpen(th'.pc) && !th'.pc.ReadLock?
    ensures TickWrite(s, t).policy == s.policy && |TickWrite(s, t).threads| == |s.threads|
  {
  }

  lemma SeekShrinks(s: State, t: nat)
    requires CanTick(s, t) && (s.threads[t].pc.SeekRead? || s.threads[t].pc.SeekStore?)
    ensures var th' := TickSeek(s, t).threads[t];
            StepsToReturn(th'.pc) < StepsToReturn(s.threads[t].pc) && !InOpen(th'.pc) && !th'.pc.ReadLock?
    ensures TickSeek(s, t).policy == s.policy && |TickSeek(s, t).threads| == |s.threads|
  {
  }

  lemma UnhinderedStep(s: State, t: nat)
    requires Unhindered(s, t) && CanTick(s, t) && ReadFine(s.dev, s.threads[t]) && Sound(s.dev, s.len)
    requires var th := s.threads[t];
             && !Queued(th.pc) && !th.pc.OpenSignal? && !th.pc.OpenRelock?
             && (th.pc.OpenUnlock? || th.pc.OpenQueue? ==> th.flags.nonblock)
    ensures var s' := DoTick(s, t);
            && t < |s'.threads| && StepsToReturn(s'.threads[t].pc) < StepsToReturn(s.threads[t].pc)
            && (Out(s'.threads[t].pc) || Unhindered(s', t))
  {
    var pc := s.threads[t].pc;
    if InOpen(pc) {
      OpenShrinks(s, t);
    } else if pc.ReadCheck? {
      ReadCheckShrinks(s, t);
    } else if InRead(pc) {
      ReadShrinks(s, t);
    } else if pc.WriteTry? || pc.WriteCopy? {
      WriteEnterShrinks(s, t);
    } else if InWrite(pc) {
      WriteShrinks(s, t);
    } else {
      SeekShrinks(s, t);
    }
  }

  /** Such a call, stepped alone, is over within a number of steps computed from its place; so a non-blocking
      open is over within nine. */
  lemma {:induction false} CallReturns(s: State, t: nat) returns (acts: seq<Action>)
    requires Reachable(s) && Unhindered(s, t)
    ensures |acts| <= StepsToReturn(s.threads[t].pc) && forall k | 0 <= k < |acts| :: acts[k] == Tick(t)
    ensures InOpen(s.threads[t].pc) ==> |acts| <= 9
    ensures Exec(s, acts).Some?
    ensures var s' := Exec(s, acts).value; Reachable(s') && t < |s'.threads| && Out(s'.threads[t].pc)
    decreases StepsToReturn(s.threads[t].pc)
  {
    UnhinderedMoves(s, t);
    UnhinderedStep(s, t);
    var s' := Apply(s, Tick(t));
    ReachStep(s, Tick(t));
    var rest := [];
    if !Out(s'.threads[t].pc) {
      rest := CallReturns(s', t);
    }
    acts := [Tick(t)] + rest;
    TickFirst(s, t, rest);
  }

  /** How many steps after a signal a waiting open gives up, at most. */
  function StepsToGiveUp(pc: Pc): nat {
    match pc
    case OpenRecheck => 4
    case OpenSleep => 3
    case OpenDequeue => 2
    case OpenSignal => 1
    case _ => 0
  }

  predicate Interrupted(th: Thread) {
    th.signal && (Queued(th.pc) || th.pc.OpenSignal?)
  }

  predicate LastReturned(log: seq<Record>, t: nat, outcome: Outcome) {
    log != [] && log[|log| - 1].t == t && log[|log| - 1].outcome == outcome
  }

  lemma InterruptedStep(s: State, i: nat)
    requires i < |s.threads| && Interrupted(s.threads[i])
    ensures CanTick(s, i)
    ensures var s' := Apply(s, Tick(i));
            && i < |s'.threads|
            && if s.threads[i].pc.OpenSignal? then s'.threads[i].pc.Closed? && LastReturned(s'.log, i, Restart)
               else Interrupted(s'.threads[i]) && StepsToGiveUp(s'.threads[i].pc) < StepsToGiveUp(s.threads[i].pc)
  {
    UnavailableIsZeroOrOne(s.dev.counter, s.threads[i].flags);
  }

  /** A signal ends the wait for content, asleep or about to be: stepped alone, the opener is out of the
      queue and returns -ERESTARTSYS within four steps, holding nothing. */
  lemma {:induction false} InterruptedOpenLeaves(s: State, i: nat) returns (acts: seq<Action>)
    requires Reachable(s) && i < |s.threads| && Interrupted(s.threads[i])
    ensures |acts| <= StepsToGiveUp(s.threads[i].pc) <= 4 && forall k | 0 <= k < |acts| :: acts[k] == Tick(i)
    ensures Exec(s, acts).Some?
    ensures var s' := Exec(s, acts).value;
            && Reachable(s') && i < |s'.threads| && s'.threads[i].pc.Closed? && i !in s'.queue && s'.writer != Some(i)
            && LastReturned(s'.log, i, Restart)
    decreases StepsToGiveUp(s.threads[i].pc)
  {
    InterruptedStep(s, i);
    var s' := Apply(s, Tick(i));
    ReachStep(s, Tick(i));
    var rest := [];
    if s.threads[i].pc.OpenSignal? {
      OutOfTheDriver(s', i);
    } else {
      rest := InterruptedOpenLeaves(s', i);
    }
    acts := [Tick(i)] + rest;
    TickFirst(s, i, rest);
  }

  lemma OutOfTheDriver(s: State, i: nat)
    requires Reachable(s) && i < |s.threads| && s.threads[i].pc.Closed?
    ensures i !in s.queue && s.writer != Some(i)
  {
    ReachableInv(s);
  }

  /** What a signal does to a waiting open. */
  lemma SignalInterrupts(s: State, i: nat)
    requires i < |s.threads| && (Queued(s.threads[i].pc) || s.threads[i].pc.OpenSignal?)
    ensures var s' := Apply(s, Signal(i)); i < |s'.threads| && Interrupted(s'.threads[i])
  {
  }

  // ------------------------------------------------------------- counts

  /** How many of the answers are successful opens. */
  function OpensIn(answers: seq<Answer>): nat {
    if answers == [] then 0
    else OpensIn(answers[..|answers| - 1]) + if answers[|answers| - 1].Opened? then 1 else 0
  }

  lemma SectionCounts(policy: Policy, d: Dev, sec: Section)
    ensures RunSection(policy, d, sec).opens == if SectionAnswer(policy, d, sec).Opened? then ToUInt(d.opens + 1) else d.opens
  {
  }

  lemma AnswersPrefix(policy: Policy, hist: seq<Section>, answers: seq<Answer>, n: nat)
    requires n <= |answers| == |hist| && forall k | 0 <= k < |hist| :: answers[k] == SerialAnswer(policy, hist, k)
    ensures forall k | 0 <= k < n :: answers[..n][k] == SerialAnswer(policy, hist[..n], k)
  {
    forall k | 0 <= k < n ensures answers[..n][k] == SerialAnswer(policy, hist[..n], k) {
      assert hist[..n][..k] == hist[..k];
    }
  }

  lemma ReplayOpens(policy: Policy, hist: seq<Section>)
    requires hist != []
    ensures var n := |hist| - 1;
            var opens := Replay(policy, hist[..n]).opens;
            Replay(policy, hist).opens == if SerialAnswer(policy, hist, n).Opened? then ToUInt(opens + 1) else opens
  {
    SectionCounts(policy, Replay(policy, hist[..|hist| - 1]), hist[|hist| - 1]);
  }

  lemma {:induction false} ReplayCounts(policy: Policy, hist: seq<Section>, answers: seq<Answer>)
    requires |answers| == |hist| && forall k | 0 <= k < |hist| :: answers[k] == SerialAnswer(policy, hist, k)
    ensures Replay(policy, hist).opens == ToUInt(OpensIn(answers))
  {
    if hist != [] {
      var n := |hist| - 1;
      AnswersPrefix(policy, hist, answers, n);
      ReplayCounts(policy, hist[..n], answers[..n]);
      ReplayOpens(policy, hist);
      CountUp(OpensIn(answers[..n]));
      assert answers[n] == SerialAnswer(policy, hist, n);
    }
  }

  lemma CountUp(n: nat)
    ensures ToUInt(ToUInt(n) + 1) == ToUInt(n + 1)
  {
  }

  /** active_opens counts the opens that succeeded, as far as 32 bits go. (Nothing counts it down.) */
  lemma OpensAreCounted(s: State)
    requires Reachable(s) && s.writer.None?
    ensures s.dev.opens == ToUInt(OpensIn(s.answers))
  {
    ReachableInv(s);
    ReplayCounts(s.policy, s.hist, s.answers);
  }
}
