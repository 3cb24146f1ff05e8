/** A run of two threads through the unlocked window between raising counter and waking the queue. */
module BlockingOpenWindow {
  import opened Options
  import opened DeviceSpec
  import opened BlockingOpen
  import opened BlockingOpenInv
  import opened BlockingOpenRuns
  import opened BlockingOpenTheorems

  /** A thread without its records. */
  function Bare(th: Thread): Thread {
    th.(call := UNBORN.call, from := 0, section := None)
  }

  /** A reachable state of two threads on a device of one byte, with nobody reading. */
  ghost predicate Scene(s: State, policy: Policy, writer: Option<nat>, d: Dev, queue: set<nat>, a: Thread, b: Thread) {
    && Reachable(s) && s.policy == policy && s.len == 1 && s.readers == {}
    && s.writer == writer && s.dev == d && s.queue == queue
    && |s.threads| == 2 && Bare(s.threads[0]) == a && Bare(s.threads[1]) == b
  }

  const ReaderFlags := Flags(false, false, false, false)
  const WriterFlags := Flags(true, false, false, false)
  const Blank := Dev(Some([0]), 1, 0, false, 0)
  const Filled := Dev(Some([1]), 1, 0, false, 1)
  const Reader := UNBORN.(flags := ReaderFlags, grant := Some([0]))
  const Sleeper := Reader.(pc := OpenSleep, asleep := true)
  const Writer := UNBORN.(flags := WriterFlags, grant := Some([0]))

  lemma ReaderStarts(policy: Policy) returns (s: State)
    ensures Scene(s, policy, None, UNTOUCHED, {}, Reader.(pc := OpenTry), UNBORN)
  {
    var s0 := Init(policy, 1, 2);
    assert Exec(s0, []) == Some(s0);
    ReachStep(s0, CallOpen(0, ReaderFlags, Some([0])));
    s := Apply(s0, CallOpen(0, ReaderFlags, Some([0])));
  }

  lemma ReaderLooks(policy: Policy, s0: State) returns (s: State)
    requires Scene(s0, policy, None, UNTOUCHED, {}, Reader.(pc := OpenTry), UNBORN)
    ensures Scene(s, policy, Some(0), Blank, {}, Reader.(pc := OpenUnlock), UNBORN)
  {
    ReachStep(s0, Tick(0));
    var s1 := Apply(s0, Tick(0));
    ReachStep(s1, Tick(0));
    var s2 := Apply(s1, Tick(0));
    ReachStep(s2, Tick(0));
    s := Apply(s2, Tick(0));
  }

  lemma ReaderQueues(policy: Policy, s0: State) returns (s: State)
    requires Scene(s0, policy, Some(0), Blank, {}, Reader.(pc := OpenUnlock), UNBORN)
    ensures Scene(s, policy, None, Blank, {0}, Sleeper.(pc := OpenRecheck), UNBORN)
  {
    ReachStep(s0, Tick(0));
    var s1 := Apply(s0, Tick(0));
    ReachStep(s1, Tick(0));
    s := Apply(s1, Tick(0));
  }

  lemma ReaderSleeps(policy: Policy, s0: State) returns (s: State)
    requires Scene(s0, policy, None, Blank, {0}, Sleeper.(pc := OpenRecheck), UNBORN)
    ensures Scene(s, policy, None, Blank, {0}, Sleeper, UNBORN)
  {
    ReachStep(s0, Tick(0));
    s := Apply(s0, Tick(0));
  }

  lemma WriterEnters(policy: Policy, s0: State) returns (s: State)
    requires Scene(s0, policy, None, Blank, {0}, Sleeper, UNBORN)
    ensures Scene(s, policy, Some(1), Blank, {0}, Sleeper, Writer.(pc := OpenCheck))
  {
    ReachStep(s0, CallOpen(1, WriterFlags, Some([0])));
    var s1 := Apply(s0, CallOpen(1, WriterFlags, Some([0])));
    ReachStep(s1, Tick(1));
    var s2 := Apply(s1, Tick(1));
    ReachStep(s2, Tick(1));
    s := Apply(s2, Tick(1));
  }

  lemma WriterOpens(policy: Policy, s0: State) returns (s: State)
    requires Scene(s0, policy, Some(1), Blank, {0}, Sleeper, Writer.(pc := OpenCheck))
    ensures Scene(s, policy, Some(1), Blank.(opens := 1), {0}, Sleeper, Writer.(pc := OpenRelease(true)))
  {
    ReachStep(s0, Tick(1));
    var s1 := Apply(s0, Tick(1));
    ReachStep(s1, Tick(1));
    var s2 := Apply(s1, Tick(1));
    ReachStep(s2, Tick(1));
    s := Apply(s2, Tick(1));
  }

  lemma WriterLeaves(policy: Policy, s0: State) returns (s: State)
    requires Scene(s0, policy, Some(1), Blank.(opens := 1), {0}, Sleeper, Writer.(pc := OpenRelease(true)))
    ensures Scene(s, policy, None, Blank.(opens := 1), {0}, Sleeper, Writer.(pc := Idle, epoch := s.truncs))
  {
    ReachStep(s0, Tick(1));
    s := Apply(s0, Tick(1));
  }

  lemma WriterCalls(policy: Policy, s0: State, epoch: nat) returns (s: State)
    requires Scene(s0, policy, None, Blank.(opens := 1), {0}, Sleeper, Writer.(pc := Idle, epoch := epoch))
    ensures Scene(s, policy, Some(1), Blank.(opens := 1), {0}, Sleeper, Writer.(pc := WriteGuard([1]), epoch := epoch))
  {
    ReachStep(s0, CallWrite(1, [1]));
    var s1 := Apply(s0, CallWrite(1, [1]));
    ReachStep(s1, Tick(1));
    s := Apply(s1, Tick(1));
  }

  lemma WriterPasses(policy: Policy, s0: State, epoch: nat) returns (s: State)
    requires Scene(s0, policy, Some(1), Blank.(opens := 1), {0}, Sleeper, Writer.(pc := WriteGuard([1]), epoch := epoch))
    ensures Scene(s, policy, Some(1), Blank.(opens := 1), {0}, Sleeper, Writer.(pc := WriteCopy(0, [1], 0), epoch := epoch))
  {
    ReachStep(s0, Tick(1));
    s := Apply(s0, Tick(1));
  }

  lemma WriterStores(policy: Policy, s0: State, epoch: nat) returns (s: State)
    requires Scene(s0, policy, Some(1), Blank.(opens := 1), {0}, Sleeper, Writer.(pc := WriteCopy(0, [1], 0), epoch := epoch))
    ensures Scene(s, policy, Some(1), Filled, {0}, Sleeper, Writer.(pc := WriteCopy(0, [1], 1), epoch := epoch))
  {
    ReachStep(s0, Tick(1));
    s := Apply(s0, Tick(1));
    assert s0.dev.block.value[0 := 1] == [1];
  }

  lemma WriterEndsCopy(policy: Policy, s0: State, epoch: nat) returns (s: State)
    requires Scene(s0, policy, Some(1), Filled, {0}, Sleeper, Writer.(pc := WriteCopy(0, [1], 1), epoch := epoch))
    ensures Scene(s, policy, Some(1), Filled, {0}, Sleeper, Writer.(pc := WriteCounter(0, [1]), epoch := epoch))
  {
    ReachStep(s0, Tick(1));
    s := Apply(s0, Tick(1));
  }

  lemma SleeperAndWriter(policy: Policy) returns (s: State, epoch: nat)
    ensures Scene(s, policy, Some(1), Filled, {0}, Sleeper, Writer.(pc := WriteCounter(0, [1]), epoch := epoch))
  {
    s := ReaderStarts(policy);
    s := ReaderLooks(policy, s);
    s := ReaderQueues(policy, s);
    s := ReaderSleeps(policy, s);
    s := WriterEnters(policy, s);
    s := WriterOpens(policy, s);
    s := WriterLeaves(policy, s);
    epoch := s.truncs;
    s := WriterCalls(policy, s, epoch);
    s := WriterPasses(policy, s, epoch);
    s := WriterStores(policy, s, epoch);
    s := WriterEndsCopy(policy, s, epoch);
  }

  /** The second case of NoLostWakeup occurs, under either policy: a run leads to a sleeper on a device
      that already has content, while the writer that put it there has yet to wake the queue. */
  lemma TheWindowIsReal(policy: Policy)
    ensures exists s: State, i: nat, w: nat ::
              && Reachable(s) && s.policy == policy && s.dev.counter > 0
              && i < |s.threads| && s.threads[i].pc.OpenSleep? && s.threads[i].asleep && !s.threads[i].flags.trunc
              && w < |s.threads| && WakePending(s.threads[w].pc)
  {
    var s, _ := SleeperAndWriter(policy);
    CounterRisesBeforeWake(s, 0, 1);
    ReachStep(s, Tick(1));
    var s' := Apply(s, Tick(1));
    assert s'.policy == policy && Bare(s'.threads[0]) == Sleeper;
    assert Reachable(s') && s'.threads[0].pc.OpenSleep? && WakePending(s'.threads[1].pc);
  }
}
