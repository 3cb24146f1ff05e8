/** The one-shot PID selection of /proc/myps: a write names a task, and the next session reports on it. */
module PidSelector {

  /** What ct_write makes of its text: no memory for a copy of it, not a number, too large, no such
      task, or a task's pid. */
  datatype Parsed = NoBuffer | Invalid | Overflow | NoTask | Found(pid: int)

  /** A write, or the start of a session at position 0; `granted` is whether there is memory for its
      iterator, `contended` a failed mutex_trylock. */
  datatype Event =
    | Write(parsed: Parsed, contended: bool)
    | Start(granted: bool, contended: bool)

  /** Which task's children a session lists. */
  datatype Target = Current | Pid(pid: int)

  /** A found task has a positive pid. */
  predicate Possible(e: Event) {
    e.Write? && e.parsed.Found? ==> e.parsed.pid > 0
  }

  predicate Accepted(e: Event) {
    e.Write? && !e.contended && e.parsed.Found?
  }

  /** myps_data; its mutex is free between calls. */
  class Selector {
    var testid: int

    constructor ()
      ensures testid == 0
    {
      testid := 0;
    }

    method WritePid(parsed: Parsed, contended: bool) returns (ok: bool)
      modifies this
      ensures testid == TestidAfter(old(testid), Write(parsed, contended))
      ensures ok <==> Accepted(Write(parsed, contended))
      ensures !ok ==> testid == old(testid)
    {
      if parsed.NoBuffer? || contended {
        return false;
      }
      match parsed {
        case Invalid => return false;
        case Overflow => return false;
        case NoTask => return false;
        case Found(pid) =>
          testid := pid;
          return true;
      }
    }

    /** The beginning of ct_seq_start at position 0, once it has its iterator. */
    method StartSession(contended: bool) returns (target: Target)
      modifies this
      ensures testid == TestidAfter(old(testid), Start(true, contended))
      ensures target == TargetOf(old(testid), contended)
    {
      target := Current;
      if !contended {
        if testid != 0 {
          target := Pid(testid);
          testid := 0;
        }
      }
    }
  }

  function TestidAfter(testid: int, e: Event): int {
    match e
    case Write(parsed, contended) => if !contended && parsed.Found? then parsed.pid else testid
    case Start(granted, contended) => if !granted || contended then testid else 0
  }

  function TargetOf(testid: int, contended: bool): Target {
    if !contended && testid != 0 then Pid(testid) else Current
  }

  function After(h: seq<Event>): int {
    if h == [] then 0 else TestidAfter(After(h[..|h| - 1]), h[|h| - 1])
  }

  /** Event j is the last accepted write, and no uncontended session has started after it. */
  ghost predicate Pending(h: seq<Event>, j: nat) {
    && j < |h| && Accepted(h[j])
    && forall m | j < m < |h| :: !Accepted(h[m]) && h[m] != Start(true, false)
  }

  /** Over every history of writes and session starts, contended or not: a session that gets the mutex
      lists the task of the last accepted write since the previous such session, or the current task if
      there was none; a session that does not get it lists the current task and consumes nothing, and one
      without memory consumes nothing either. */
  lemma {:induction false} SessionReportsLastAccepted(h: seq<Event>, contended: bool)
    requires forall k | 0 <= k < |h| :: Possible(h[k])
    ensures forall j: nat | Pending(h, j) :: After(h) == h[j].parsed.pid
    ensures After(h) != 0 <==> exists j: nat :: Pending(h, j)
    ensures !contended ==> forall pid :: TargetOf(After(h), contended) == Pid(pid) <==>
                             exists j: nat :: Pending(h, j) && h[j].parsed.pid == pid
    ensures After(h + [Start(false, contended)]) == After(h)
    ensures contended ==> TargetOf(After(h), contended) == Current && After(h + [Start(true, true)]) == After(h)
  {
    if h != [] {
      var most, e := h[..|h| - 1], h[|h| - 1];
      SessionReportsLastAccepted(most, contended);
      forall j: nat ensures Pending(h, j) <==> (if Accepted(e) then j == |most| else e != Start(true, false) && Pending(most, j)) {
        PendingSnoc(h, j);
      }
      if Accepted(e) {
        assert Pending(h, |most|);
      }
      if After(h) != 0 && !Accepted(e) {
        var j: nat :| Pending(most, j);
        assert Pending(h, j);
      }
    }
    assert (h + [Start(true, true)])[..|h|] == h;
    assert (h + [Start(false, contended)])[..|h|] == h;
  }

  lemma PendingSnoc(h: seq<Event>, j: nat)
    requires h != []
    ensures var most, e := h[..|h| - 1], h[|h| - 1];
            Pending(h, j) <==> if Accepted(e) then j == |most| else e != Start(true, false) && Pending(most, j)
  {
    var most := h[..|h| - 1];
    if Pending(most, j) && !Accepted(h[|most|]) && h[|most|] != Start(true, false) {
      forall m | j < m < |h| ensures !Accepted(h[m]) && h[m] != Start(true, false) {
        assert m < |most| ==> most[m] == h[m];
      }
    }
    if Pending(h, j) && j < |most| {
      forall m | j < m < |most| ensures !Accepted(most[m]) && most[m] != Start(true, false) {
        assert most[m] == h[m];
      }
    }
  }
}
