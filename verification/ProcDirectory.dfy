/** The /proc/CDD subtree: proc_ops.c's reference-counted directory and the marker entry of
    proc_log_marker.c that is created and removed through it. */
module ProcDirectory {
  import opened Options

  datatype Name = Marker | Device(minor: nat)

  /** The statics of the two files (refcount, the marker's entry pointer, one entry pointer per minor),
      what exists in the kernel (the directory and its entries), the minors that are initialised, the
      number of proc_create calls that failed, and of removals of something that was not there. */
  datatype Tree = Tree(refcount: int, markerPtr: bool, devPtrs: map<nat, bool>,
                       dir: bool, entries: set<Name>, failed: nat, stray: nat)

  const EMPTY_TREE := Tree(0, false, map[], false, {}, 0, 0)

  /** topdir_entry_count. */
  function EntryCount(refcount: int): int {
    if refcount == 0 then 0 else refcount - 1
  }

  /** create_CDD_procdir_entry; `ok` is whether proc_create succeeds. */
  function Create(t: Tree, name: Name, ok: bool): Tree {
    t.(refcount := t.refcount + 1,
       dir := t.dir || t.refcount == 0,
       entries := if ok then t.entries + {name} else t.entries,
       failed := if ok then t.failed else t.failed + 1)
  }

  /** remove_CDD_procdir_entry. */
  function Remove(t: Tree, name: Name): Tree {
    var last := t.refcount == 1;
    t.(refcount := t.refcount - 1,
       entries := t.entries - {name},
       dir := t.dir && !last,
       stray := t.stray + (if name in t.entries then 0 else 1) + (if last && !t.dir then 1 else 0))
  }

  function InitMinor(t: Tree, minor: nat, markerOk: bool, entryOk: bool): Tree {
    var u := if EntryCount(t.refcount) == 0 then Create(t, Marker, markerOk).(markerPtr := markerOk) else t;
    Create(u, Device(minor), entryOk).(devPtrs := u.devPtrs[minor := entryOk])
  }

  function ExitMinor(t: Tree, minor: nat): Tree
    requires minor in t.devPtrs
  {
    var u := if EntryCount(t.refcount) == 1 && t.markerPtr then Remove(t, Marker) else t;
    (if u.devPtrs[minor] then Remove(u, Device(minor)) else u).(devPtrs := u.devPtrs - {minor})
  }

  /** proc_ops.c and proc_log_marker.c in place. A minor is in `devPtrs` while it is initialised. */
  class ProcTree {
    var refcount: int
    var markerPtr: bool
    var devPtrs: map<nat, bool>
    var dir: bool
    var entries: set<Name>
    ghost var failed: nat
    ghost var stray: nat

    ghost function State(): Tree
      reads this
    {
      Tree(refcount, markerPtr, devPtrs, dir, entries, failed, stray)
    }

    constructor ()
      ensures State() == EMPTY_TREE
    {
      refcount, markerPtr, devPtrs, dir, entries, failed, stray := 0, false, map[], false, {}, 0, 0;
    }

    method CreateEntry(name: Name, ok: bool) returns (entry: bool)
      modifies this
      ensures State() == Create(old(State()), name, ok) && entry == ok
    {
      if refcount == 0 {
        dir := true;
      }
      refcount := refcount + 1;
      if ok {
        entries := entries + {name};
      } else {
        failed := failed + 1;
      }
      return ok;
    }

    method RemoveEntry(name: Name)
      modifies this
      ensures State() == Remove(old(State()), name)
    {
      refcount := refcount - 1;
      stray := stray + if name in entries then 0 else 1;
      entries := entries - {name};
      if refcount == 0 {
        stray := stray + if dir then 0 else 1;
        dir := false;
      }
    }

    method LogMarkerInit(ok: bool)
      modifies this
      ensures State() == Create(old(State()), Marker, ok).(markerPtr := ok)
    {
      markerPtr := CreateEntry(Marker, ok);
    }

    /** The marker's pointer is not cleared. */
    method LogMarkerExit()
      modifies this
      ensures State() == if old(markerPtr) then Remove(old(State()), Marker) else old(State())
    {
      if markerPtr {
        RemoveEntry(Marker);
      }
    }

    method Init(minor: nat, markerOk: bool, entryOk: bool)
      modifies this
      ensures State() == InitMinor(old(State()), minor, markerOk, entryOk)
    {
      if EntryCount(refcount) == 0 {
        LogMarkerInit(markerOk);
      }
      var entry := CreateEntry(Device(minor), entryOk);
      devPtrs := devPtrs[minor := entry];
    }

    method Exit(minor: nat)
      requires minor in devPtrs
      modifies this
      ensures State() == ExitMinor(old(State()), minor)
    {
      if EntryCount(refcount) == 1 {
        LogMarkerExit();
      }
      if devPtrs[minor] {
        RemoveEntry(Device(minor));
      }
      devPtrs := devPtrs - {minor};
    }
  }

  // ---------------------------------------------------------------- runs

  datatype Event = Up(minor: nat, markerOk: bool, entryOk: bool) | Down(minor: nat)

  /** main.c initialises a minor that is absent and exits one that is present. */
  predicate Legal(t: Tree, e: Event) {
    e.Up? <==> e.minor !in t.devPtrs
  }

  function Step(t: Tree, e: Event): Tree
    requires Legal(t, e)
  {
    match e
    case Up(m, markerOk, entryOk) => InitMinor(t, m, markerOk, entryOk)
    case Down(m) => ExitMinor(t, m)
  }

  function Run(t: Tree, es: seq<Event>): Option<Tree> {
    if es == [] then Some(t)
    else
      var n := |es| - 1;
      var u := Run(t, es[..n]);
      if u.Some? && Legal(u.value, es[n]) then Some(Step(u.value, es[n])) else None
  }

  /** In every state between calls, whichever creations failed: the count is the number of entries plus
      the failures, the directory exists exactly while the count is positive, an entry exists exactly
      for each minor whose creation succeeded, and nothing missing was ever removed. A marker pointer
      left over from an earlier marker is harmless because the count is then at most 1. */
  ghost predicate TreeInv(t: Tree) {
    && t.refcount == |t.entries| + t.failed
    && (t.dir <==> t.refcount > 0)
    && (forall m: nat :: Device(m) in t.entries <==> m in t.devPtrs && t.devPtrs[m])
    && (t.markerPtr && Marker !in t.entries ==> t.refcount <= 1)
    && (Marker in t.entries ==> t.markerPtr)
    && t.stray == 0
    && (t.failed == 0 ==> forall m | m in t.devPtrs :: t.devPtrs[m])
    && (t.failed == 0 ==> (Marker in t.entries <==> t.devPtrs != map[]))
    && (t.failed == 0 ==> |t.entries| == |t.devPtrs| + if t.devPtrs == map[] then 0 else 1)
  }

  function FirstEntries(m: nat, markerOk: bool, entryOk: bool): (entries: set<Name>)
    ensures |entries| == (if markerOk then 1 else 0) + (if entryOk then 1 else 0)
  {
    if markerOk && entryOk then {Marker, Device(m)} else if markerOk then {Marker} else if entryOk then {Device(m)} else {}
  }

  /** With no entry there yet, the next minor brings the directory and a marker with it. */
  lemma FreshStart(t: Tree, m: nat, markerOk: bool, entryOk: bool)
    requires t.entries == {} && t.refcount == t.failed <= 1 && (t.dir <==> t.refcount > 0) && t.stray == 0
    ensures InitMinor(t, m, markerOk, entryOk)
         == Tree(t.refcount + 2, markerOk, t.devPtrs[m := entryOk], true, FirstEntries(m, markerOk, entryOk),
                 t.failed + (if markerOk then 0 else 1) + (if entryOk then 0 else 1), 0)
  {
    assert InitMinor(t, m, markerOk, entryOk).entries == FirstEntries(m, markerOk, entryOk);
  }

  lemma FreshInv(lost: nat, ptrs: map<nat, bool>, m: nat, markerOk: bool, entryOk: bool)
    requires m !in ptrs && (forall k | k in ptrs :: !ptrs[k]) && (lost == 0 ==> ptrs == map[])
    ensures TreeInv(Tree(lost + 2, markerOk, ptrs[m := entryOk], true, FirstEntries(m, markerOk, entryOk),
                         lost + (if markerOk then 0 else 1) + (if entryOk then 0 else 1), 0))
  {
    With(ptrs, m, entryOk);
  }

  lemma FirstUpKeepsInv(t: Tree, m: nat, markerOk: bool, entryOk: bool)
    requires TreeInv(t) && m !in t.devPtrs && EntryCount(t.refcount) == 0
    ensures TreeInv(InitMinor(t, m, markerOk, entryOk))
  {
    if t.failed == 0 {
      NeverOne(t);
    }
    assert t.entries == {};
    forall k: nat | k in t.devPtrs ensures !t.devPtrs[k] {
      assert Device(k) !in t.entries;
    }
    FreshStart(t, m, markerOk, entryOk);
    FreshInv(t.failed, t.devPtrs, m, markerOk, entryOk);
  }

  lemma NextUpKeepsInv(t: Tree, m: nat, markerOk: bool, entryOk: bool)
    requires TreeInv(t) && m !in t.devPtrs && EntryCount(t.refcount) != 0
    ensures TreeInv(InitMinor(t, m, markerOk, entryOk))
  {
    assert Device(m) !in t.entries;
    With(t.devPtrs, m, entryOk);
  }

  lemma With(m: map<nat, bool>, k: nat, v: bool)
    requires k !in m
    ensures |m[k := v]| == |m| + 1 && m[k := v] != map[]
  {
    assert m[k := v].Keys == m.Keys + {k};
    assert k in m[k := v];
  }

  /** Without failures the count cannot be 1 between calls: the marker never stands alone. */
  lemma NeverOne(t: Tree)
    requires TreeInv(t) && t.failed == 0
    ensures t.refcount != 1
  {
    if t.devPtrs != map[] {
      NonEmpty(t.devPtrs);
    }
  }

  lemma NonEmpty(m: map<nat, bool>)
    requires m != map[]
    ensures |m| >= 1
  {
    assert m.Keys != {};
    assert |m| == |m.Keys|;
  }

  lemma Without(m: map<nat, bool>, k: nat)
    requires k in m
    ensures |m - {k}| == |m| - 1
    ensures m - {k} == map[] <==> |m| == 1
  {
    assert (m - {k}).Keys == m.Keys - {k};
    assert |m - {k}| == |(m - {k}).Keys| && |m| == |m.Keys|;
    if m - {k} != map[] {
      NonEmpty(m - {k});
    }
  }

  lemma DownKeepsInv(t: Tree, m: nat)
    requires TreeInv(t) && m in t.devPtrs
    ensures TreeInv(ExitMinor(t, m))
  {
    assert EntryCount(t.refcount) == 1 && t.markerPtr ==> Marker in t.entries;
    if t.devPtrs[m] {
      assert Device(m) in t.entries;
    }
    Without(t.devPtrs, m);
  }

  lemma StepKeepsInv(t: Tree, e: Event)
    requires TreeInv(t) && Legal(t, e)
    ensures TreeInv(Step(t, e)) && Step(t, e).failed >= t.failed
  {
    match e {
      case Up(m, markerOk, entryOk) =>
        if EntryCount(t.refcount) == 0 {
          FirstUpKeepsInv(t, m, markerOk, entryOk);
        } else {
          NextUpKeepsInv(t, m, markerOk, entryOk);
        }
      case Down(m) => DownKeepsInv(t, m);
    }
  }

  lemma {:induction false} RunKeepsInv(t: Tree, es: seq<Event>)
    requires TreeInv(t) && Run(t, es).Some?
    ensures TreeInv(Run(t, es).value)
    ensures Run(t, es).value.failed >= t.failed
  {
    if es != [] {
      var n := |es| - 1;
      RunKeepsInv(t, es[..n]);
      StepKeepsInv(Run(t, es[..n]).value, es[n]);
    }
  }

  // ------------------------------------------ a history, without the tree

  /** The last event of minor m. */
  function LastOf(es: seq<Event>, m: nat): Option<Event> {
    if es == [] then None
    else if es[|es| - 1].minor == m then Some(es[|es| - 1])
    else LastOf(es[..|es| - 1], m)
  }

  predicate Present(es: seq<Event>, m: nat) {
    LastOf(es, m).Some? && LastOf(es, m).value.Up?
  }

  /** The minors that are up. */
  function PresentMinors(es: seq<Event>): set<nat> {
    if es == [] then {}
    else
      var e := es[|es| - 1];
      PresentMinors(es[..|es| - 1]) - {e.minor} + if e.Up? then {e.minor} else {}
  }

  /** The ups and downs of each minor alternate, beginning with an up. */
  ghost predicate Alternates(es: seq<Event>) {
    forall k | 0 <= k < |es| :: es[k].Up? <==> !Present(es[..k], es[k].minor)
  }

  lemma AlternatesSnoc(es: seq<Event>)
    requires es != []
    ensures var n := |es| - 1; Alternates(es) <==> Alternates(es[..n]) && (es[n].Up? <==> !Present(es[..n], es[n].minor))
  {
    var most := es[..|es| - 1];
    assert forall k | 0 <= k < |most| :: most[..k] == es[..k] && most[k] == es[k];
    if Alternates(es) {
      forall k | 0 <= k < |most| ensures most[k].Up? <==> !Present(most[..k], most[k].minor) {
        assert es[k].Up? <==> !Present(es[..k], es[k].minor);
      }
    }
    if Alternates(most) && (es[|most|].Up? <==> !Present(most, es[|most|].minor)) {
      forall k | 0 <= k < |es| ensures es[k].Up? <==> !Present(es[..k], es[k].minor) {
        if k < |most| {
          assert most[k].Up? <==> !Present(most[..k], most[k].minor);
        }
      }
    }
  }

  lemma {:induction false} PresentMinorsAre(es: seq<Event>, m: nat)
    ensures m in PresentMinors(es) <==> Present(es, m)
  {
    if es != [] {
      PresentMinorsAre(es[..|es| - 1], m);
    }
  }

  /** A history can happen exactly if each minor's ups and downs alternate; and then the minors the tree knows
      are those whose last event is an up, each with its answer. */
  lemma {:induction false} PointersFollowEvents(es: seq<Event>)
    ensures Run(EMPTY_TREE, es).Some? <==> Alternates(es)
    ensures Run(EMPTY_TREE, es).Some? ==>
              var t := Run(EMPTY_TREE, es).value;
              && t.devPtrs.Keys == PresentMinors(es)
              && forall m: nat :: (m in t.devPtrs <==> Present(es, m)) && (m in t.devPtrs ==> t.devPtrs[m] == LastOf(es, m).value.entryOk)
  {
    if es != [] {
      AlternatesSnoc(es);
      PointersFollowEvents(es[..|es| - 1]);
    }
  }

  /** Over every history that can happen, whichever creations fail: a minor has its entry exactly if its last
      event is an up whose creation succeeded. */
  lemma EntriesFollowEvents(es: seq<Event>, m: nat)
    requires Alternates(es)
    ensures Run(EMPTY_TREE, es).Some?
    ensures Device(m) in Run(EMPTY_TREE, es).value.entries <==> Present(es, m) && LastOf(es, m).value.entryOk
  {
    PointersFollowEvents(es);
    RunKeepsInv(EMPTY_TREE, es);
  }

  ghost predicate NothingFails(es: seq<Event>) {
    forall k | 0 <= k < |es| && es[k].Up? :: es[k].markerOk && es[k].entryOk
  }

  lemma {:induction false} NothingFailed(es: seq<Event>)
    requires NothingFails(es) && Run(EMPTY_TREE, es).Some?
    ensures Run(EMPTY_TREE, es).value.failed == 0
  {
    if es != [] {
      var most := es[..|es| - 1];
      assert forall k | 0 <= k < |most| :: most[k] == es[k];
      NothingFailed(most);
    }
  }

  /** And when all succeed: the count is the number of minors that are up, and one for the marker, or 0; the
      directory and the marker are there exactly while some minor is up; nothing missing is ever removed. */
  lemma CountsFollowEvents(es: seq<Event>)
    requires Alternates(es) && NothingFails(es)
    ensures Run(EMPTY_TREE, es).Some?
    ensures var t, up := Run(EMPTY_TREE, es).value, PresentMinors(es);
            && t.refcount == (if up == {} then 0 else |up| + 1)
            && (forall m: nat :: Device(m) in t.entries <==> m in up)
            && (Marker in t.entries <==> up != {}) && (t.dir <==> up != {}) && t.stray == 0
  {
    PointersFollowEvents(es);
    NothingFailed(es);
    RunKeepsInv(EMPTY_TREE, es);
    var t := Run(EMPTY_TREE, es).value;
    assert |t.devPtrs| == |t.devPtrs.Keys|;
    assert t.devPtrs == map[] <==> t.devPtrs.Keys == {};
  }

  /** Over every run in which proc_create succeeds: the entries are the initialised minors' and, while
      there is at least one, the marker; the count is their number; the directory exists exactly while
      it is positive; and nothing missing was ever removed. */
  lemma CountsLiveEntries(es: seq<Event>)
    requires Run(EMPTY_TREE, es).Some? && Run(EMPTY_TREE, es).value.failed == 0
    ensures var t := Run(EMPTY_TREE, es).value;
            && t.refcount == |t.entries| && (t.dir <==> t.refcount > 0) && t.stray == 0
            && (forall m: nat :: Device(m) in t.entries <==> m in t.devPtrs)
            && (Marker in t.entries <==> exists m: nat :: Device(m) in t.entries)
  {
    RunKeepsInv(EMPTY_TREE, es);
    var t := Run(EMPTY_TREE, es).value;
    if t.devPtrs != map[] {
      assert t.devPtrs.Keys != {};
      var m :| m in t.devPtrs.Keys;
      assert Device(m) in t.entries;
    }
  }

  /** Over every run at all: the count is the number of entries exactly if no creation has failed; and
      once one has, the directory outlives its last entry, for good. */
  lemma FailuresAreNeverForgotten(es: seq<Event>, more: seq<Event>)
    requires Run(EMPTY_TREE, es).Some? && Run(Run(EMPTY_TREE, es).value, more).Some?
    ensures var t := Run(EMPTY_TREE, es).value;
            && (t.refcount == |t.entries| <==> t.failed == 0)
            && (t.dir <==> t.entries != {} || t.failed > 0)
            && t.stray == 0
            && (t.failed > 0 ==> Run(t, more).value.dir)
  {
    RunKeepsInv(EMPTY_TREE, es);
    RunKeepsInv(Run(EMPTY_TREE, es).value, more);
  }
}
