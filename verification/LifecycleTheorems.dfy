/** What CDD_init leaves behind whatever fails, what CDD_exit gives back, and where the storage blocks
    go in between. */
module LifecycleTheorems {
  import opened CInt
  import opened Options
  import opened DeviceSpec
  import opened LifecycleSpec

  // ------------------------------------------------- init: all or nothing

  /** Module data at load time. */
  ghost predicate Zeroed(s: Sys) {
    && (forall i | 0 <= i < |s.minors| :: s.minors[i] == ZERO_MINOR)
    && s.cdevs == {} && s.procs == {} && s.live == map[] && s.freed == [] && s.stray == 0 && !s.region
    && |s.minors| <= MINORS
  }

  ghost predicate FullyLive(s: Sys, i: nat)
    requires i < |s.minors|
  {
    s.minors[i].devno != 0 && s.minors[i].sem && i in s.cdevs && i in s.procs
  }

  ghost predicate FullyAbsent(s: Sys, i: nat)
    requires i < |s.minors|
  {
    s.minors[i].devno == 0 && !s.minors[i].sem && i !in s.cdevs && i !in s.procs
  }

  /** A device number gives the minor back, and the low twelve bits of the major. */
  lemma DeviceNumberRoundTrip(major: int, minor: nat)
    requires minor < MINORS
    ensures MinorOf(MkDev(major, minor)) == minor && MajorOf(MkDev(major, minor)) == major % 4096
  {
    var q, r := major / 4096, major % 4096;
    assert major * MINORS + minor == q * TWO_32 + (r * MINORS + minor);
    assert 0 <= r * MINORS + minor < TWO_32;
  }

  /** So two devices share a number exactly if they share the minor and those bits of the major. */
  lemma DeviceNumbersDifferIff(major: int, minor: nat, major': int, minor': nat)
    requires minor < MINORS && minor' < MINORS
    ensures MkDev(major, minor) == MkDev(major', minor') <==> minor == minor' && major % 4096 == major' % 4096
  {
    DeviceNumberRoundTrip(major, minor);
    DeviceNumberRoundTrip(major', minor');
    var d, d' := MkDev(major, minor), MkDev(major', minor');
    assert d == MajorOf(d) * MINORS + MinorOf(d) && d' == MajorOf(d') * MINORS + MinorOf(d');
  }

  /** Only minor 0 under a major that is a multiple of 4096 gets the device number 0. */
  lemma MkDevZeroIff(major: int, minor: nat)
    requires minor < MINORS
    ensures MkDev(major, minor) == 0 <==> minor == 0 && major % 4096 == 0
  {
    DeviceNumberRoundTrip(major, minor);
  }

  /** `after` is `before` with the numbers from i up to k added, or taken away. */
  ghost predicate Gained(before: set<nat>, after: set<nat>, i: nat, k: nat) {
    forall j: nat :: j in after <==> j in before || i <= j < k
  }

  ghost predicate Dropped(before: set<nat>, after: set<nat>, i: nat, k: nat) {
    forall j: nat :: j in after <==> j in before && !(i <= j < k)
  }

  lemma {:induction false} BringUpShape(s: Sys, i: nat, major: int, os: seq<Outcome>, k: nat)
    requires |os| == |s.minors| && i <= k == FirstFailure(os)
    ensures var t := BringUpFrom(s, i, major, os);
            && (forall j | 0 <= j < |os| ::
                  if j < i || k < j then t.minors[j] == s.minors[j]
                  else if j == k then t.minors[j].devno == 0
                  else t.minors[j] == Minor(MkDev(major, j), true, None, 0, AllocVmalloc))
            && Gained(s.cdevs, t.cdevs, i, k) && Gained(s.procs, t.procs, i, k)
            && t.region == s.region && t.myps == s.myps && t.live == s.live && t.freed == s.freed && t.next == s.next && t.stray == s.stray
    decreases k - i
  {
    if i < k {
      BringUpShape(BringUp(s, i, major, os[i]), i + 1, major, os, k);
    }
  }

  /** After CDD_init, at whichever minor and step it fails, every minor has all its resources or none,
      exactly unless the major number is a multiple of 4096 and minor 0 came up: then minor 0 is a live
      device whose zero device number the driver takes for a failure. */
  lemma InitAllOrNothingIff(s: Sys, major: int, regionGranted: bool, os: seq<Outcome>)
    requires Zeroed(s) && |os| == |s.minors| > 0
    ensures var t := InitSpec(s, major, regionGranted, os).0;
            (forall i | 0 <= i < |t.minors| :: FullyLive(t, i) || FullyAbsent(t, i))
            <==> !(regionGranted && major % 4096 == 0 && os[0].Added?)
  {
    if regionGranted {
      var k := FirstFailure(os);
      BringUpShape(s.(region := true, myps := true, minors := Forget(s.minors)), 0, major, os, k);
      var t := InitSpec(s, major, true, os).0;
      forall i: nat | i < |os| ensures MkDev(major, i) == 0 <==> i == 0 && major % 4096 == 0 {
        MkDevZeroIff(major, i);
      }
      if major % 4096 == 0 && os[0].Added? {
        assert 0 in t.cdevs && t.minors[0].devno == 0;
        assert !(FullyLive(t, 0) || FullyAbsent(t, 0));
      } else {
        forall i: nat | i < |os| ensures FullyLive(t, i) || FullyAbsent(t, i) {
          if i < k {
            assert FullyLive(t, i);
          } else {
            assert FullyAbsent(t, i);
          }
        }
      }
    }
  }

  /** Which minors survive, and what else is held: the minors before the first failure; the region
      exactly if there are any; /proc/myps exactly on success. */
  lemma InitHolds(s: Sys, major: int, os: seq<Outcome>)
    requires Zeroed(s) && |os| == |s.minors| > 0
    ensures var (t, ok) := InitSpec(s, major, true, os);
            && Gained({}, t.cdevs, 0, FirstFailure(os)) && t.procs == t.cdevs
            && (t.region <==> t.cdevs != {})
            && (ok <==> forall i | 0 <= i < |os| :: os[i].Added?)
            && (t.myps <==> ok) && t.live == map[]
            && (forall i | i in t.cdevs :: i < |os| && MinorOf(t.minors[i].devno) == i && MajorOf(t.minors[i].devno) == major % 4096)
    ensures InitSpec(s, major, false, os) == (s.(myps := false), false)
  {
    var k := FirstFailure(os);
    BringUpShape(s.(region := true, myps := true, minors := Forget(s.minors)), 0, major, os, k);
    if k > 0 {
      assert 0 in InitSpec(s, major, true, os).0.cdevs;
    }
    forall i: nat | i < |os|
      ensures MinorOf(MkDev(major, i)) == i && MajorOf(MkDev(major, i)) == major % 4096 && (MkDev(major, i) == 0 <==> i == 0 && major % 4096 == 0)
    {
      DeviceNumberRoundTrip(major, i);
      MkDevZeroIff(major, i);
    }
  }

  // ------------------------------------------------------ storage ownership

  /** Every minor's device number gives it back. (So only minor 0's can be 0.) */
  ghost predicate Numbered(s: Sys) {
    forall i | 0 <= i < |s.minors| :: MinorOf(s.minors[i].devno) == i
  }

  /** The block minor i asks for. */
  predicate BlockOf(i: nat, m: Minor, b: Block) {
    StorageType(i).Some? && m.allocLen == StorageLength(i) && b == NewBlock(StorageType(i).value, StorageLength(i))
  }

  /** Every block a minor points at is live, the one that minor asks for, and no other minor's. */
  ghost predicate HeapInv(s: Sys) {
    && (forall b | b in s.live :: b < s.next)
    && (forall i | 0 <= i < |s.minors| && s.minors[i].storage.Some? ::
          s.minors[i].storage.value in s.live && BlockOf(i, s.minors[i], s.live[s.minors[i].storage.value]))
    && (forall i, j | 0 <= i < j < |s.minors| && s.minors[i].storage.Some? :: s.minors[i].storage != s.minors[j].storage)
  }

  ghost function Owned(s: Sys): set<nat> {
    set i | 0 <= i < |s.minors| && s.minors[i].storage.Some? :: s.minors[i].storage.value
  }

  ghost function Lost(s: Sys): set<nat> {
    s.live.Keys - Owned(s)
  }

  /** One open of a minor, and whether the allocator would grant it a block. */
  datatype OpenEvent = OpenEvent(minor: nat, granted: bool)

  predicate Allocates(e: OpenEvent) {
    e.granted && StorageType(e.minor).Some?
  }

  function Opens(s: Sys, policy: Policy, recordType: bool, evs: seq<OpenEvent>): (r: Sys)
    requires forall k | 0 <= k < |evs| :: evs[k].minor < |s.minors|
    ensures |r.minors| == |s.minors|
  {
    if evs == [] then s
    else
      var n := |evs| - 1;
      OpenAlloc(Opens(s, policy, recordType, evs[..n]), evs[n].minor, policy, recordType, evs[n].granted)
  }

  lemma OpenKeepsHeap(s: Sys, i: nat, policy: Policy, recordType: bool, granted: bool)
    requires i < |s.minors| && HeapInv(s) && Numbered(s)
    ensures var t := OpenAlloc(s, i, policy, recordType, granted);
            && HeapInv(t) && Numbered(t)
            && t.cdevs == s.cdevs && t.procs == s.procs && t.freed == s.freed && t.stray == s.stray
            && (policy.FirstUse? && s.minors[i].storage.Some? ==> t == s)
            && s.live.Keys <= t.live.Keys
  {
  }

  /** An open loses the block the minor had, if the policy does not reuse it, and nothing else. */
  lemma OpenLoses(s: Sys, i: nat, policy: Policy, recordType: bool, granted: bool)
    requires i < |s.minors| && HeapInv(s)
    ensures var t := OpenAlloc(s, i, policy, recordType, granted);
            Lost(t) == Lost(s) + (if policy.EveryOpen? && s.minors[i].storage.Some? then {s.minors[i].storage.value} else {})
  {
    var t := OpenAlloc(s, i, policy, recordType, granted);
    if !(policy.FirstUse? && s.minors[i].storage.Some?) {
      OwnedAfter(s, t, i);
    }
  }

  /** Replacing the storage pointer of one minor replaces its block among the owned ones. */
  lemma OwnedAfter(s: Sys, t: Sys, i: nat)
    requires HeapInv(s) && i < |s.minors| == |t.minors|
    requires forall j | 0 <= j < |s.minors| && j != i :: t.minors[j].storage == s.minors[j].storage
    ensures var gone := if s.minors[i].storage.Some? then {s.minors[i].storage.value} else {};
            var come := if t.minors[i].storage.Some? then {t.minors[i].storage.value} else {};
            Owned(t) == Owned(s) - gone + come
  {
    var gone := if s.minors[i].storage.Some? then {s.minors[i].storage.value} else {};
    var come := if t.minors[i].storage.Some? then {t.minors[i].storage.value} else {};
    forall b ensures b in Owned(t) <==> b in Owned(s) - gone + come {
      if b in Owned(t) {
        var j :| 0 <= j < |t.minors| && t.minors[j].storage == Some(b);
        assert j == i || s.minors[j].storage == Some(b);
      }
      if b in Owned(s) - gone {
        var j :| 0 <= j < |s.minors| && s.minors[j].storage == Some(b);
        assert t.minors[j].storage == Some(b);
      }
      if b in come {
        assert t.minors[i].storage == Some(b);
      }
    }
  }

  /** Some minor is opened again after an open that gave it a block. */
  ghost predicate Reopened(evs: seq<OpenEvent>) {
    exists j, k :: 0 <= j < k < |evs| && evs[j].minor == evs[k].minor && Allocates(evs[j])
  }

  ghost predicate EverAllocated(evs: seq<OpenEvent>, i: nat) {
    exists j :: 0 <= j < |evs| && evs[j].minor == i && Allocates(evs[j])
  }

  /** Over any run of opens: blocks get lost exactly if line 226 reallocates and some minor is opened
      again after it got a block; and until then a minor has a block exactly if an open of it ever
      got one. */
  lemma {:induction false} LostIff(s: Sys, policy: Policy, recordType: bool, evs: seq<OpenEvent>)
    requires HeapInv(s) && Numbered(s) && s.live == map[]
    requires forall k | 0 <= k < |evs| :: evs[k].minor < |s.minors|
    ensures var t := Opens(s, policy, recordType, evs);
            && HeapInv(t) && Numbered(t) && t.freed == s.freed && t.stray == s.stray && t.cdevs == s.cdevs && t.procs == s.procs
            && (Lost(t) == {} <==> policy.FirstUse? || !Reopened(evs))
            && (Lost(t) == {} ==> forall i | 0 <= i < |t.minors| :: t.minors[i].storage.Some? <==> EverAllocated(evs, i))
  {
    if evs != [] {
      var n := |evs| - 1;
      var most, e := evs[..n], evs[n];
      LostIff(s, policy, recordType, most);
      var m := Opens(s, policy, recordType, most);
      OpenKeepsHeap(m, e.minor, policy, recordType, e.granted);
      OpenLoses(m, e.minor, policy, recordType, e.granted);
      assert evs == most + [e];
      ReopenedSnoc(most, e);
      forall i: nat | i < |s.minors| ensures EverAllocated(evs, i) <==> EverAllocated(most, i) || (e.minor == i && Allocates(e)) {
        EverAllocatedSnoc(most, e, i);
      }
    }
  }

  lemma ReopenedSnoc(evs: seq<OpenEvent>, e: OpenEvent)
    ensures Reopened(evs + [e]) <==> Reopened(evs) || EverAllocated(evs, e.minor)
  {
    var all := evs + [e];
    if Reopened(all) {
      var j, k :| 0 <= j < k < |all| && all[j].minor == all[k].minor && Allocates(all[j]);
      if k < |evs| {
        assert evs[j].minor == evs[k].minor && Allocates(evs[j]);
      } else {
        assert evs[j].minor == e.minor && Allocates(evs[j]);
      }
    }
    if Reopened(evs) {
      var j, k :| 0 <= j < k < |evs| && evs[j].minor == evs[k].minor && Allocates(evs[j]);
      assert all[j].minor == all[k].minor && Allocates(all[j]);
    }
    if EverAllocated(evs, e.minor) {
      var j :| 0 <= j < |evs| && evs[j].minor == e.minor && Allocates(evs[j]);
      assert all[j].minor == all[|evs|].minor && Allocates(all[j]);
    }
  }

  lemma EverAllocatedSnoc(evs: seq<OpenEvent>, e: OpenEvent, i: nat)
    ensures EverAllocated(evs + [e], i) <==> EverAllocated(evs, i) || (e.minor == i && Allocates(e))
  {
    var all := evs + [e];
    if EverAllocated(evs, i) {
      var j :| 0 <= j < |evs| && evs[j].minor == i && Allocates(evs[j]);
      assert all[j].minor == i && Allocates(all[j]);
    }
    if e.minor == i && Allocates(e) {
      assert all[|evs|].minor == i && Allocates(all[|evs|]);
    }
  }

  function LastOpen(evs: seq<OpenEvent>, i: nat): Option<OpenEvent> {
    if evs == [] then None
    else if evs[|evs| - 1].minor == i then Some(evs[|evs| - 1])
    else LastOpen(evs[..|evs| - 1], i)
  }

  /** Minor i has a block after these opens: with reuse if any of them got one, else if the last one did. */
  ghost predicate KeepsBlock(policy: Policy, evs: seq<OpenEvent>, i: nat) {
    if policy.FirstUse? then EverAllocated(evs, i) else LastOpen(evs, i).Some? && Allocates(LastOpen(evs, i).value)
  }

  lemma {:induction false} StorageFollowsOpens(s: Sys, policy: Policy, recordType: bool, evs: seq<OpenEvent>, i: nat)
    requires HeapInv(s) && Numbered(s) && i < |s.minors| && s.minors[i].storage.None?
    requires forall k | 0 <= k < |evs| :: evs[k].minor < |s.minors|
    ensures var t := Opens(s, policy, recordType, evs);
            HeapInv(t) && Numbered(t) && (t.minors[i].storage.Some? <==> KeepsBlock(policy, evs, i))
  {
    if evs != [] {
      var n := |evs| - 1;
      var most, e := evs[..n], evs[n];
      StorageFollowsOpens(s, policy, recordType, most, i);
      OpenKeepsHeap(Opens(s, policy, recordType, most), e.minor, policy, recordType, e.granted);
      assert evs == most + [e];
      EverAllocatedSnoc(most, e, i);
    }
  }

  // ------------------------------------------------------------------ exit

  /** The block CDD_exit frees for this minor: the one it points at, unless it takes the minor for one that
      was never added. */
  function Handed(m: Minor): Option<nat> {
    if m.devno == 0 then None else m.storage
  }

  /** The deallocations CDD_exit makes from minor i on. */
  function Frees(minors: seq<Minor>, i: nat): seq<Freed>
    requires i <= |minors|
    decreases |minors| - i
  {
    if i == |minors| then [] else FreedFor(minors[i]) + Frees(minors, i + 1)
  }

  function FreedFor(m: Minor): seq<Freed> {
    if Handed(m).Some? then [Freed(Handed(m).value, DeallocatorOf(m.allocType))] else []
  }

  /** Block b is freed for minor i or a later one. */
  ghost predicate HeldFrom(s: Sys, i: nat, b: nat) {
    exists j :: i <= j < |s.minors| && Handed(s.minors[j]) == Some(b)
  }

  lemma {:induction false} FreesSame(a: seq<Minor>, b: seq<Minor>, i: nat)
    requires |a| == |b| && i <= |a| && forall j | i <= j < |a| :: a[j] == b[j]
    ensures Frees(a, i) == Frees(b, i)
    decreases |a| - i
  {
    if i < |a| {
      FreesSame(a, b, i + 1);
    }
  }

  /** free_storage hands minor i's block to a deallocator that takes it back. */
  predicate Suited(s: Sys, i: nat)
    requires i < |s.minors| && s.minors[i].storage.Some?
  {
    GivesBack(s.live, s.minors[i].storage.value, DeallocatorOf(s.minors[i].allocType))
  }

  ghost predicate SuitedFrom(s: Sys, i: nat) {
    forall j | i <= j < |s.minors| && Handed(s.minors[j]).Some? :: Suited(s, j)
  }

  /** Minor i gives its block back. */
  predicate GivesUp(s: Sys, i: nat, b: nat)
    requires i < |s.minors|
  {
    Handed(s.minors[i]) == Some(b) && Suited(s, i)
  }

  lemma TakeDownOne(s: Sys, i: nat)
    requires i < |s.minors|
    ensures var t := TakeDown(s, i);
            && t.myps == s.myps && t.minors[i].devno == s.minors[i].devno && t.freed == s.freed + FreedFor(s.minors[i])
            && (forall j | 0 <= j < |s.minors| && j != i :: t.minors[j] == s.minors[j])
            && if s.minors[i].devno == 0 then t == s
               else
                 && !t.minors[i].sem && t.minors[i].storage.None?
                 && Dropped(s.cdevs, t.cdevs, i, i + 1) && Dropped(s.procs, t.procs, i, i + 1)
  {
  }

  lemma TakeDownHeap(s: Sys, i: nat)
    requires HeapInv(s) && i < |s.minors|
    ensures var t := TakeDown(s, i);
            && HeapInv(t)
            && (forall b: nat :: b in t.live <==> b in s.live && !GivesUp(s, i, b))
            && (forall b | b in t.live :: t.live[b] == s.live[b])
            && t.stray == s.stray + if Handed(s.minors[i]).Some? && !Suited(s, i) then 1 else 0
  {
  }

  /** Minor j is taken down by CDD_exit from minor i on. */
  predicate Taken(s: Sys, i: nat, j: nat) {
    i <= j < |s.minors| && s.minors[j].devno != 0
  }

  lemma {:induction false} TakeDownShape(s: Sys, i: nat)
    requires i <= |s.minors|
    ensures var r := TakeDownFrom(s, i);
            && (forall j | 0 <= j < |r.minors| :: if Taken(s, i, j) then !r.minors[j].sem && r.minors[j].storage.None? else r.minors[j] == s.minors[j])
            && (forall j: nat :: j in r.cdevs <==> j in s.cdevs && !Taken(s, i, j))
            && (forall j: nat :: j in r.procs <==> j in s.procs && !Taken(s, i, j))
            && r.myps == s.myps
    decreases |s.minors| - i
  {
    if i < |s.minors| {
      TakeDownOne(s, i);
      var t := TakeDown(s, i);
      TakeDownShape(t, i + 1);
      forall j: nat ensures Taken(s, i, j) <==> Taken(t, i + 1, j) || (j == i && s.minors[i].devno != 0) {
        assert i < j < |s.minors| ==> t.minors[j] == s.minors[j];
      }
    }
  }

  lemma Concat(a: seq<Freed>, b: seq<Freed>, c: seq<Freed>)
    ensures (a + b) + c == a + (b + c)
  {
  }

  lemma {:induction false} TakeDownFrees(s: Sys, i: nat)
    requires i <= |s.minors|
    ensures TakeDownFrom(s, i).freed == s.freed + Frees(s.minors, i)
    decreases |s.minors| - i
  {
    if i < |s.minors| {
      var t := TakeDown(s, i);
      TakeDownOne(s, i);
      TakeDownFrees(t, i + 1);
      FreesSame(t.minors, s.minors, i + 1);
      Concat(s.freed, FreedFor(s.minors[i]), Frees(s.minors, i + 1));
    }
  }

  /** Minor i or a later one gives block b back. */
  ghost predicate GivenBackFrom(s: Sys, i: nat, b: nat) {
    exists j :: i <= j < |s.minors| && GivesUp(s, j, b)
  }

  lemma {:induction false} TakeDownLive(s: Sys, i: nat)
    requires HeapInv(s) && i <= |s.minors|
    ensures forall b: nat :: b in TakeDownFrom(s, i).live <==> b in s.live && !GivenBackFrom(s, i, b)
    decreases |s.minors| - i
  {
    if i < |s.minors| {
      var t := TakeDown(s, i);
      TakeDownHeap(s, i);
      TakeDownLive(t, i + 1);
      forall b: nat ensures GivenBackFrom(s, i, b) <==> GivenBackFrom(t, i + 1, b) || GivesUp(s, i, b) {
        GivenBackStep(s, t, i, b);
      }
    }
  }

  lemma SuitedStep(s: Sys, t: Sys, i: nat, j: nat)
    requires HeapInv(s) && i < j < |s.minors| && t == TakeDown(s, i)
    ensures t.minors[j] == s.minors[j] && (s.minors[j].storage.Some? ==> (Suited(t, j) <==> Suited(s, j)))
  {
    TakeDownOne(s, i);
    TakeDownHeap(s, i);
  }

  lemma GivenBackStep(s: Sys, t: Sys, i: nat, b: nat)
    requires HeapInv(s) && i < |s.minors| && t == TakeDown(s, i)
    ensures GivenBackFrom(s, i, b) <==> GivenBackFrom(t, i + 1, b) || GivesUp(s, i, b)
  {
    if GivenBackFrom(s, i, b) {
      var j :| i <= j < |s.minors| && GivesUp(s, j, b);
      if j > i {
        SuitedStep(s, t, i, j);
        assert GivesUp(t, j, b);
      }
    }
    if GivenBackFrom(t, i + 1, b) {
      var j :| i + 1 <= j < |t.minors| && GivesUp(t, j, b);
      SuitedStep(s, t, i, j);
      assert GivesUp(s, j, b);
    }
  }

  /** Nothing goes astray exactly if every deallocator suits. */
  lemma {:induction false} TakeDownStray(s: Sys, i: nat)
    requires HeapInv(s) && i <= |s.minors|
    ensures TakeDownFrom(s, i).stray >= s.stray
    ensures TakeDownFrom(s, i).stray == s.stray <==> SuitedFrom(s, i)
    decreases |s.minors| - i
  {
    if i < |s.minors| {
      var t := TakeDown(s, i);
      TakeDownHeap(s, i);
      TakeDownStray(t, i + 1);
      forall j | i < j < |s.minors| && s.minors[j].storage.Some? ensures t.minors[j] == s.minors[j] && (Suited(t, j) <==> Suited(s, j)) {
        SuitedStep(s, t, i, j);
      }
    }
  }

  lemma HeldStep(s: Sys, i: nat, b: nat)
    requires i < |s.minors|
    ensures HeldFrom(s, i, b) <==> HeldFrom(s, i + 1, b) || Handed(s.minors[i]) == Some(b)
  {
  }

  predicate Frees1(l: seq<Freed>, b: nat) {
    exists k :: 0 <= k < |l| && l[k].block == b
  }

  predicate NoneTwice(l: seq<Freed>) {
    forall j, k | 0 <= j < k < |l| :: l[j].block != l[k].block
  }

  /** Exit frees each block some minor hands it, and frees it once. */
  lemma {:induction false} FreesOnce(s: Sys, i: nat)
    requires HeapInv(s) && i <= |s.minors|
    ensures NoneTwice(Frees(s.minors, i))
    ensures forall b: nat :: HeldFrom(s, i, b) <==> Frees1(Frees(s.minors, i), b)
    decreases |s.minors| - i
  {
    if i < |s.minors| {
      FreesOnce(s, i + 1);
      var m, rest := s.minors[i], Frees(s.minors, i + 1);
      forall b: nat ensures HeldFrom(s, i, b) <==> Frees1(rest, b) || Handed(m) == Some(b) {
        HeldStep(s, i, b);
      }
      if Handed(m).Some? {
        HandedOnce(s, i);
      }
      FreedForAdds(m, rest);
    }
  }

  lemma FreedForAdds(m: Minor, l: seq<Freed>)
    ensures forall b: nat :: Frees1(FreedFor(m) + l, b) <==> Handed(m) == Some(b) || Frees1(l, b)
    ensures NoneTwice(l) && (Handed(m).Some? ==> !Frees1(l, Handed(m).value)) ==> NoneTwice(FreedFor(m) + l)
  {
    if Handed(m).Some? {
      ConsFrees(Freed(Handed(m).value, DeallocatorOf(m.allocType)), l);
    } else {
      assert FreedFor(m) + l == l;
    }
  }

  lemma HandedOnce(s: Sys, i: nat)
    requires HeapInv(s) && i < |s.minors| && Handed(s.minors[i]).Some?
    ensures !HeldFrom(s, i + 1, s.minors[i].storage.value)
  {
  }

  lemma ConsFrees(x: Freed, l: seq<Freed>)
    ensures forall b: nat :: Frees1([x] + l, b) <==> x.block == b || Frees1(l, b)
    ensures NoneTwice(l) && !Frees1(l, x.block) ==> NoneTwice([x] + l)
  {
    var all := [x] + l;
    forall b: nat ensures Frees1(all, b) <==> x.block == b || Frees1(l, b) {
      if Frees1(all, b) {
        var k :| 0 <= k < |all| && all[k].block == b;
        assert k == 0 || l[k - 1].block == b;
      }
      if Frees1(l, b) {
        var k :| 0 <= k < |l| && l[k].block == b;
        assert all[k + 1].block == b;
      }
      if x.block == b {
        assert all[0].block == b;
      }
    }
    if NoneTwice(l) && !Frees1(l, x.block) {
      forall j, k | 0 <= j < k < |all| ensures all[j].block != all[k].block {
        assert all[k] == l[k - 1];
      }
    }
  }

  /** Each deallocation hands a live block to a deallocator that takes it back. */
  ghost predicate Matched(s: Sys, l: seq<Freed>) {
    forall k | 0 <= k < |l| :: GivesBack(s.live, l[k].block, l[k].using)
  }

  lemma MatchedConcat(s: Sys, a: seq<Freed>, b: seq<Freed>)
    ensures Matched(s, a + b) <==> Matched(s, a) && Matched(s, b)
  {
    var l := a + b;
    if Matched(s, l) {
      forall k | 0 <= k < |a| ensures GivesBack(s.live, a[k].block, a[k].using) {
        assert l[k] == a[k];
      }
      forall k | 0 <= k < |b| ensures GivesBack(s.live, b[k].block, b[k].using) {
        assert l[|a| + k] == b[k];
      }
    }
  }

  lemma {:induction false} FreesMatchedIff(s: Sys, i: nat)
    requires i <= |s.minors|
    ensures Matched(s, Frees(s.minors, i)) <==> SuitedFrom(s, i)
    decreases |s.minors| - i
  {
    if i < |s.minors| {
      FreesMatchedIff(s, i + 1);
      MatchedConcat(s, FreedFor(s.minors[i]), Frees(s.minors, i + 1));
      MatchedOneIff(s, i);
      assert SuitedFrom(s, i) <==> SuitedFrom(s, i + 1) && (Handed(s.minors[i]).Some? ==> Suited(s, i));
    }
  }

  lemma MatchedOneIff(s: Sys, i: nat)
    requires i < |s.minors|
    ensures Matched(s, FreedFor(s.minors[i])) <==> (Handed(s.minors[i]).Some? ==> Suited(s, i))
  {
    var l := FreedFor(s.minors[i]);
    if Handed(s.minors[i]).Some? && Matched(s, l) {
      assert GivesBack(s.live, l[0].block, l[0].using);
    }
  }

  /** alloc_type during a run: the allocator used, if it is recorded; otherwise what main.c stored. */
  predicate Recorded(m: Minor, i: nat, recordType: bool) {
    if recordType then m.storage.Some? ==> Some(m.allocType) == StorageType(i) else m.allocType == AllocVmalloc
  }

  lemma {:induction false} RecordedTypes(s: Sys, policy: Policy, recordType: bool, evs: seq<OpenEvent>)
    requires Numbered(s) && HeapInv(s)
    requires forall i | 0 <= i < |s.minors| :: s.minors[i].storage.None? && s.minors[i].allocType == AllocVmalloc
    requires forall k | 0 <= k < |evs| :: evs[k].minor < |s.minors|
    ensures Numbered(Opens(s, policy, recordType, evs)) && HeapInv(Opens(s, policy, recordType, evs))
    ensures forall i | 0 <= i < |s.minors| :: Recorded(Opens(s, policy, recordType, evs).minors[i], i, recordType)
  {
    if evs != [] {
      var n := |evs| - 1;
      RecordedTypes(s, policy, recordType, evs[..n]);
      var m := Opens(s, policy, recordType, evs[..n]);
      var t := OpenAlloc(m, evs[n].minor, policy, recordType, evs[n].granted);
      OpenKeepsHeap(m, evs[n].minor, policy, recordType, evs[n].granted);
      forall i: nat | i < |t.minors| ensures Recorded(t.minors[i], i, recordType) {
        assert Recorded(m.minors[i], i, recordType);
      }
    }
  }

  /** The whole life of the module: a successful init, any run of opens, exit. Every lock, character
      device, /proc entry and the region are given back, exactly except that under a major number that is a
      multiple of 4096 minor 0 keeps all of its own. */
  lemma ExitReleasesResources(s: Sys, major: int, os: seq<Outcome>, policy: Policy, recordType: bool, evs: seq<OpenEvent>)
    requires Zeroed(s) && |os| == |s.minors| && forall i | 0 <= i < |os| :: os[i].Added?
    requires forall k | 0 <= k < |evs| :: evs[k].minor < |s.minors|
    ensures var (up, ok) := InitSpec(s, major, true, os);
            var e := ExitSpec(Opens(up, policy, recordType, evs));
            && ok && !e.region && !e.myps && |e.minors| == |s.minors|
            && forall i: nat | i < |e.minors| ::
                 var kept := i == 0 && major % 4096 == 0;
                 && (i in e.cdevs <==> kept) && (i in e.procs <==> kept) && (e.minors[i].sem <==> kept)
                 && (e.minors[i].storage.Some? <==> kept && KeepsBlock(policy, evs, i))
    ensures var e := ExitSpec(Opens(InitSpec(s, major, true, os).0, policy, recordType, evs));
            forall i | i in e.cdevs || i in e.procs :: i < |e.minors|
  {
    AfterInit(s, major, os);
    var up := InitSpec(s, major, true, os).0;
    var t := Opens(up, policy, recordType, evs);
    OpensKeep(up, policy, recordType, evs);
    var u := t.(myps := false);
    TakeDownShape(u, 0);
    forall i: nat | i < |t.minors| ensures t.minors[i].storage.Some? <==> KeepsBlock(policy, evs, i) {
      StorageFollowsOpens(up, policy, recordType, evs, i);
    }
    forall i: nat | i < |t.minors| ensures Taken(u, 0, i) <==> !(i == 0 && major % 4096 == 0) {
    }
  }

  /** Opens change nothing of a minor but its storage. */
  lemma {:induction false} OpensKeep(s: Sys, policy: Policy, recordType: bool, evs: seq<OpenEvent>)
    requires Numbered(s) && HeapInv(s) && forall k | 0 <= k < |evs| :: evs[k].minor < |s.minors|
    ensures var t := Opens(s, policy, recordType, evs);
            && Numbered(t) && HeapInv(t) && t.cdevs == s.cdevs && t.procs == s.procs && t.freed == s.freed && t.stray == s.stray
            && forall i | 0 <= i < |s.minors| :: t.minors[i].devno == s.minors[i].devno && t.minors[i].sem == s.minors[i].sem
  {
    if evs != [] {
      var n := |evs| - 1;
      OpensKeep(s, policy, recordType, evs[..n]);
      OpenKeepsHeap(Opens(s, policy, recordType, evs[..n]), evs[n].minor, policy, recordType, evs[n].granted);
    }
  }

  lemma AfterInit(s: Sys, major: int, os: seq<Outcome>)
    requires Zeroed(s) && |os| == |s.minors| && forall i | 0 <= i < |os| :: os[i].Added?
    ensures var (up, ok) := InitSpec(s, major, true, os);
            && ok && Numbered(up) && HeapInv(up) && up.live == map[] && up.freed == [] && up.stray == 0
            && Gained({}, up.cdevs, 0, |s.minors|) && up.procs == up.cdevs
            && forall i | 0 <= i < |up.minors| ::
                 && up.minors[i].storage.None? && up.minors[i].allocType == AllocVmalloc && up.minors[i].sem
                 && (up.minors[i].devno == 0 <==> i == 0 && major % 4096 == 0)
  {
    var k := FirstFailure(os);
    BringUpShape(s.(region := true, myps := true, minors := Forget(s.minors)), 0, major, os, k);
    forall i: nat | i < |os| ensures (MkDev(major, i) == 0 <==> i == 0 && major % 4096 == 0) && MinorOf(MkDev(major, i)) == i {
      MkDevZeroIff(major, i);
      DeviceNumberRoundTrip(major, i);
    }
  }

  /** Exit, on any state that can be reached after a successful init. */
  lemma ExitFrees(t: Sys)
    requires Numbered(t) && HeapInv(t) && t.freed == []
    ensures var e := ExitSpec(t);
            && NoneTwice(e.freed) && e.freed == Frees(t.minors, 0)
            && (forall b: nat :: HeldFrom(t, 0, b) <==> Frees1(e.freed, b))
  {
    var u := t.(myps := false);
    TakeDownFrees(u, 0);
    FreesOnce(t, 0);
  }

  /** Every block is freed for the minor that points at it. */
  ghost predicate AllHanded(s: Sys) {
    forall i | 0 <= i < |s.minors| && s.minors[i].storage.Some? :: s.minors[i].devno != 0
  }

  lemma NothingLost(s: Sys)
    requires forall b: nat :: b in s.live ==> GivenBackFrom(s, 0, b)
    ensures Lost(s) == {}
  {
    forall b | b in s.live ensures b in Owned(s) {
      assert GivenBackFrom(s, 0, b);
      var j :| 0 <= j < |s.minors| && GivesUp(s, j, b);
      assert s.minors[j].storage.Some? && s.minors[j].storage.value == b;
    }
  }

  lemma AllGiven(s: Sys, j: nat)
    requires HeapInv(s) && forall b: nat :: b in s.live ==> GivenBackFrom(s, 0, b)
    requires j < |s.minors| && s.minors[j].storage.Some?
    ensures Suited(s, j) && s.minors[j].devno != 0
  {
    assert GivenBackFrom(s, 0, s.minors[j].storage.value);
    OnlyOwnerGivesBack(s, j);
  }

  lemma EmptyLeftOnlyIf(s: Sys)
    requires HeapInv(s) && forall b: nat :: b in s.live ==> GivenBackFrom(s, 0, b)
    ensures Lost(s) == {} && SuitedFrom(s, 0) && AllHanded(s)
  {
    NothingLost(s);
    forall j: nat | j < |s.minors| && s.minors[j].storage.Some? ensures Suited(s, j) && s.minors[j].devno != 0 {
      AllGiven(s, j);
    }
  }

  lemma EmptyLeftIf(s: Sys)
    requires HeapInv(s) && Lost(s) == {} && SuitedFrom(s, 0) && AllHanded(s)
    ensures forall b: nat :: b in s.live ==> GivenBackFrom(s, 0, b)
  {
    assert s.live.Keys <= Owned(s) + Lost(s);
    forall b: nat | b in s.live ensures GivenBackFrom(s, 0, b) {
      var j :| 0 <= j < |s.minors| && s.minors[j].storage.Some? && s.minors[j].storage.value == b;
      assert GivesUp(s, j, b);
    }
  }

  /** What is left in the kernel's heaps: the blocks lost before, those of minors passed over, and those
      handed to the wrong deallocator. */
  lemma ExitLeaves(t: Sys)
    requires Numbered(t) && HeapInv(t) && t.stray == 0
    ensures var e := TakeDownFrom(t, 0);
            && (e.stray == 0 <==> SuitedFrom(t, 0))
            && (e.live == map[] <==> Lost(t) == {} && SuitedFrom(t, 0) && AllHanded(t))
  {
    TakeDownStray(t, 0);
    TakeDownLive(t, 0);
    var e := TakeDownFrom(t, 0);
    if e.live == map[] {
      EmptyLeftOnlyIf(t);
    }
    if Lost(t) == {} && SuitedFrom(t, 0) && AllHanded(t) {
      EmptyLeftIf(t);
      assert forall b: nat :: b !in e.live;
    }
  }

  /** /proc/myps makes no difference to them. */
  lemma ExitLeavesAll(t: Sys)
    requires Numbered(t) && HeapInv(t) && t.stray == 0
    ensures var e := ExitSpec(t);
            && (e.stray == 0 <==> SuitedFrom(t, 0))
            && (e.live == map[] <==> Lost(t) == {} && SuitedFrom(t, 0) && AllHanded(t))
  {
    var u := t.(myps := false);
    ExitLeaves(u);
    assert Owned(u) == Owned(t);
    assert forall j | 0 <= j < |t.minors| && t.minors[j].storage.Some? :: Suited(u, j) <==> Suited(t, j);
  }

  lemma OnlyOwnerGivesBack(s: Sys, j: nat)
    requires HeapInv(s) && j < |s.minors| && s.minors[j].storage.Some? && GivenBackFrom(s, 0, s.minors[j].storage.value)
    ensures Suited(s, j) && s.minors[j].devno != 0
  {
    var k :| 0 <= k < |s.minors| && GivesUp(s, k, s.minors[j].storage.value);
    assert k == j;
  }

  /** Each kind of block, and the switch in free_storage. */
  lemma KindsMatch(kind: AllocKind, length: int)
    ensures TakesBack(DeallocatorOf(kind), NewBlock(kind, length).home)
    ensures TakesBack(DeallocatorOf(AllocVmalloc), NewBlock(kind, length).home) <==> kind == AllocVmalloc
  {
  }

  /** The literal alloc_type names the right deallocator for the vmalloc minor only. */
  lemma SuitedIff(t: Sys, recordType: bool)
    requires Numbered(t) && HeapInv(t)
    requires forall i | 0 <= i < |t.minors| :: Recorded(t.minors[i], i, recordType)
    ensures SuitedFrom(t, 0) <==> recordType || forall i | 1 <= i < |t.minors| :: t.minors[i].storage.None?
  {
    forall i: nat | i < |t.minors| && t.minors[i].storage.Some? ensures Suited(t, i) <==> recordType || i == 0 {
      assert Recorded(t.minors[i], i, recordType);
      KindsMatch(StorageType(i).value, StorageLength(i));
    }
    if !recordType && exists i :: 1 <= i < |t.minors| && t.minors[i].storage.Some? {
      var i :| 1 <= i < |t.minors| && t.minors[i].storage.Some?;
      assert MinorOf(t.minors[i].devno) == i;
      assert Handed(t.minors[i]).Some? && !Suited(t, i);
    }
  }

  /** Where the blocks are during that life: each minor's in the heap, the zone and the length that belong to
      it, and alloc_len, on which every guard of read and write rests, is that length. */
  lemma BlocksArePlaced(s: Sys, major: int, os: seq<Outcome>, policy: Policy, recordType: bool, evs: seq<OpenEvent>, i: nat)
    requires Zeroed(s) && |os| == |s.minors| && forall i | 0 <= i < |os| :: os[i].Added?
    requires (forall k | 0 <= k < |evs| :: evs[k].minor < |s.minors|) && i < |s.minors|
    ensures var t := Opens(InitSpec(s, major, true, os).0, policy, recordType, evs);
            var m := t.minors[i];
            && (m.storage.Some? <==> KeepsBlock(policy, evs, i))
            && (m.storage.Some? ==>
                  && m.storage.value in t.live && m.allocLen == t.live[m.storage.value].size
                  && t.live[m.storage.value] ==
                     (if i == 0 then Block(VmallocArea, 4096)
                      else if i == 1 then Block(KmallocSlabs(Normal), 16)
                      else if i == 2 then Block(KmallocSlabs(High), 64)
                      else if i == 3 then Block(KmallocSlabs(Dma), 128)
                      else Block(BufferCache, 256)))
            && (m.storage.Some? ==> i < 5)
  {
    AfterInit(s, major, os);
    StorageFollowsOpens(InitSpec(s, major, true, os).0, policy, recordType, evs, i);
  }

  /** Storage over that life, under any major number. Exit frees, once each, the blocks the minors still point
      at, but not minor 0's if its device number is 0. Each goes to a deallocator that takes it, so that nothing
      goes astray, exactly if the allocator was recorded or only the vmalloc minor has a block at the end. The
      kernel's heaps are left empty exactly if moreover blocks are reused or no minor was opened again after it
      got one, and no block of minor 0 is passed over. */
  lemma StorageConservation(s: Sys, major: int, os: seq<Outcome>, policy: Policy, recordType: bool, evs: seq<OpenEvent>)
    requires Zeroed(s) && |os| == |s.minors| && forall i | 0 <= i < |os| :: os[i].Added?
    requires forall k | 0 <= k < |evs| :: evs[k].minor < |s.minors|
    ensures var t := Opens(InitSpec(s, major, true, os).0, policy, recordType, evs);
            var e := ExitSpec(t);
            var suited := recordType || forall i | 1 <= i < |s.minors| :: !KeepsBlock(policy, evs, i);
            var passedOver := major % 4096 == 0 && |s.minors| > 0 && KeepsBlock(policy, evs, 0);
            && NoneTwice(e.freed) && (forall b: nat :: Frees1(e.freed, b) <==> FreedByExit(t, major, b))
            && (Matched(t, e.freed) <==> suited) && (e.stray == 0 <==> suited)
            && (e.live == map[] <==> suited && !passedOver && (policy.FirstUse? || !Reopened(evs)))
  {
    AfterInit(s, major, os);
    var up := InitSpec(s, major, true, os).0;
    LostIff(up, policy, recordType, evs);
    RecordedTypes(up, policy, recordType, evs);
    OpensKeep(up, policy, recordType, evs);
    var t := Opens(up, policy, recordType, evs);
    forall i: nat | i < |t.minors| ensures t.minors[i].storage.Some? <==> KeepsBlock(policy, evs, i) {
      StorageFollowsOpens(up, policy, recordType, evs, i);
    }
    ExitFrees(t);
    forall b: nat ensures HeldFrom(t, 0, b) <==> FreedByExit(t, major, b) {
    }
    ExitLeavesAll(t);
    FreesMatchedIff(t, 0);
    SuitedIff(t, recordType);
    assert AllHanded(t) <==> !(major % 4096 == 0 && |t.minors| > 0 && t.minors[0].storage.Some?);
  }

  /** Some minor that exit does not pass over points at block b. */
  ghost predicate FreedByExit(t: Sys, major: int, b: nat) {
    exists i :: 0 <= i < |t.minors| && !(i == 0 && major % 4096 == 0) && t.minors[i].storage == Some(b)
  }

  /** With reuse, as described: the live blocks are exactly the ones minors point at, one for each minor
      whose opens ever got one, and a minor keeps its block through any further opens. */
  lemma OneBlockPerMinor(s: Sys, recordType: bool, evs: seq<OpenEvent>, i: nat)
    requires HeapInv(s) && Numbered(s) && s.live == map[] && i < |s.minors|
    requires forall k | 0 <= k < |evs| :: evs[k].minor < |s.minors|
    ensures var t := Opens(s, FirstUse, recordType, evs);
            t.live.Keys == Owned(t) && (t.minors[i].storage.Some? <==> EverAllocated(evs, i))
  {
    LostIff(s, FirstUse, recordType, evs);
    var t := Opens(s, FirstUse, recordType, evs);
    forall b | b in Owned(t) ensures b in t.live {
      var j :| 0 <= j < |t.minors| && t.minors[j].storage.Some? && t.minors[j].storage.value == b;
    }
    assert t.live.Keys <= Owned(t) + Lost(t);
  }

  lemma {:induction false} BlocksStay(s: Sys, recordType: bool, evs: seq<OpenEvent>, i: nat)
    requires i < |s.minors| && s.minors[i].storage.Some?
    requires forall k | 0 <= k < |evs| :: evs[k].minor < |s.minors|
    ensures Opens(s, FirstUse, recordType, evs).minors[i] == s.minors[i]
  {
    if evs != [] {
      BlocksStay(s, recordType, evs[..|evs| - 1], i);
    }
  }
}
