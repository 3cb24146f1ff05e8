/** CDD_init, CDD_exit and the storage routines, updating the table of minors in place. */
module Lifecycle {
  import opened Options
  import opened DeviceSpec
  import opened LifecycleSpec

  class Driver {
    const major: int
    const policy: Policy
    const recordType: bool
    const minors: array<Minor>
    var region: bool
    var myps: bool
    var cdevs: set<nat>
    var procs: set<nat>
    var live: map<nat, Block>
    var next: nat
    var freed: seq<Freed>
    var stray: nat

    ghost function State(): Sys
      reads this, minors
    {
      Sys(minors[..], region, myps, cdevs, procs, live, next, freed, stray)
    }

    /** Module data at load time is zero. */
    constructor (n: nat, major: int, policy: Policy, recordType: bool)
      ensures State() == Sys(seq(n, i => ZERO_MINOR), false, false, {}, {}, map[], 0, [], 0)
      ensures this.major == major && this.policy == policy && this.recordType == recordType && fresh(minors)
    {
      this.major, this.policy, this.recordType := major, policy, recordType;
      minors := new Minor[n](i => ZERO_MINOR);
      region, myps, cdevs, procs, live, next, freed, stray := false, false, {}, {}, map[], 0, [], 0;
      new;
      assert minors[..] == seq(n, i => ZERO_MINOR);
    }

    method Init(regionGranted: bool, os: seq<Outcome>) returns (ok: bool)
      requires |os| == minors.Length
      modifies this, minors
      ensures (State(), ok) == InitSpec(old(State()), major, regionGranted, os)
    {
      myps := true;
      if !regionGranted {
        myps := false;
        return false;
      }
      region := true;
      ForgetNumbers();
      ghost var start := State();
      ghost var whole := FirstFailure(os);
      var someDevicesOk := false;
      var i := 0;
      var err := false;
      while i < minors.Length && !err
        invariant 0 <= i <= minors.Length && |State().minors| == |os|
        invariant !err ==> BringUpFrom(State(), i, major, os) == BringUpFrom(start, 0, major, os)
        invariant err ==> State() == BringUpFrom(start, 0, major, os)
        invariant forall j | 0 <= j < i :: os[j].Added?
        invariant err ==> i < minors.Length && !os[i].Added?
        invariant someDevicesOk <==> i > 0
        invariant region && myps
        decreases minors.Length - i, !err
      {
        ghost var before := State();
        err := AddMinor(i, os[i]);
        if !err {
          someDevicesOk := true;
          i := i + 1;
        }
      }
      FirstFailureIs(os, i);
      if !err {
        return true;
      }
      DropLocks();
      if !someDevicesOk {
        region := false;
      }
      myps := false;
      return false;
    }

    /** The first loop of CDD_init. */
    method ForgetNumbers()
      modifies minors
      ensures minors[..] == Forget(old(minors[..]))
    {
      var i := 0;
      while i < minors.Length
        invariant 0 <= i <= minors.Length
        invariant forall j | 0 <= j < minors.Length ::
                    minors[j] == if j < i then old(minors[j]).(devno := 0) else old(minors[j])
      {
        minors[i] := minors[i].(devno := 0);
        i := i + 1;
      }
      assert minors[..] == Forget(old(minors[..]));
    }

    /** The body of the second loop of CDD_init: lock, slab cache, character device, /proc entry. */
    method AddMinor(i: nat, o: Outcome) returns (err: bool)
      requires i < minors.Length
      modifies this`cdevs, this`procs, minors
      ensures State() == BringUp(old(State()), i, major, o)
      ensures err <==> !o.Added?
    {
      err := false;
      minors[i] := minors[i].(sem := o != NoLock);
      if !minors[i].sem {
        err := true;
      } else {
        minors[i] := minors[i].(storage := None, allocLen := 0, allocType := AllocVmalloc);
        if o.NoCache? {
          err := true;
        } else {
          minors[i] := minors[i].(devno := MkDev(major, i));
          if o.CdevRefused? {
            err := true;
          } else {
            cdevs := cdevs + {i};
            procs := procs + {i};
          }
        }
      }
      if err {
        minors[i] := minors[i].(devno := 0);
      }
      assert minors[..] == BringUp(old(State()), i, major, o).minors;
    }

    /** The clean-up loop after a partial failure. */
    method DropLocks()
      modifies minors
      ensures minors[..] == Decommission(old(minors[..]))
    {
      var i := 0;
      while i < minors.Length
        invariant 0 <= i <= minors.Length
        invariant forall j | 0 <= j < minors.Length ::
                    minors[j] == if j < i && old(minors[j]).devno == 0 then old(minors[j]).(sem := false) else old(minors[j])
      {
        if minors[i].devno == 0 {
          if minors[i].sem {
            minors[i] := minors[i].(sem := false);
          }
        }
        i := i + 1;
      }
      assert minors[..] == Decommission(old(minors[..]));
    }

    /** The allocation at the start of CDD_open; `granted` is the allocator's answer. */
    method AllocateForOpen(i: nat, granted: bool) returns (ok: bool)
      requires i < minors.Length
      modifies this`live, this`next, minors
      ensures State() == OpenAlloc(old(State()), i, policy, recordType, granted)
      ensures ok <==> minors[i].storage.Some?
    {
      if policy.EveryOpen? || minors[i].storage.None? {
        var result: Option<nat> := None;
        var minor := MinorOf(minors[i].devno);
        var kind := StorageType(minor);
        if granted && kind.Some? {
          var length := StorageLength(minor);
          result := Some(next);
          live := live[next := NewBlock(kind.value, length)];
          next := next + 1;
          minors[i] := minors[i].(allocLen := length, allocType := if recordType then kind.value else minors[i].allocType);
        }
        minors[i] := minors[i].(storage := result);
      }
      assert minors[..] == OpenAlloc(old(State()), i, policy, recordType, granted).minors;
      return minors[i].storage.Some?;
    }

    method ReleaseStorage(i: nat)
      requires i < minors.Length
      modifies this`live, this`freed, this`stray, minors
      ensures State() == FreeStorage(old(State()), i)
    {
      var block := minors[i].storage;
      if block.Some? {
        var d := DeallocatorOf(minors[i].allocType);
        freed := freed + [Freed(block.value, d)];
        if GivesBack(live, block.value, d) {
          live := live - {block.value};
        } else {
          stray := stray + 1;
        }
        minors[i] := minors[i].(storage := None, allocLen := 0);
      }
      assert minors[..] == FreeStorage(old(State()), i).minors;
    }

    method Exit()
      modifies this, minors
      ensures State() == ExitSpec(old(State()))
    {
      myps := false;
      ghost var start := State();
      var i := 0;
      while i < minors.Length
        invariant 0 <= i <= minors.Length
        invariant TakeDownFrom(State(), i) == TakeDownFrom(start, 0)
      {
        ghost var before := State();
        if minors[i].devno != 0 {
          procs := procs - {i};
          cdevs := cdevs - {i};
          ReleaseStorage(i);
          minors[i] := minors[i].(storage := None, sem := false);
        }
        assert State().minors == TakeDown(before, i).minors;
        assert State() == TakeDown(before, i);
        i := i + 1;
      }
      region := false;
    }
  }

  lemma FirstFailureIs(os: seq<Outcome>, k: nat)
    requires k <= |os| && (forall i | 0 <= i < k :: os[i].Added?) && (k < |os| ==> !os[k].Added?)
    ensures FirstFailure(os) == k
  {
  }
}
