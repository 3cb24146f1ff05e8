/** main.c with allocate_storage and free_storage: what bringing minors up, opening them and taking them
    down does to the driver's records and to the kernel's resources, for any number of minors and any
    step that fails. Driver (module Lifecycle) does the same in place. */
module LifecycleSpec {
  import opened CInt
  import opened Options
  import opened DeviceSpec

  datatype AllocKind = AllocVmalloc | AllocKmalloc | AllocKmallocHigh | AllocKmallocDma | AllocKmemCache

  datatype Deallocator = Vfree | Kfree | CacheFree

  /** Where in the kernel a block comes from, and how long it is. */
  datatype Zone = Normal | High | Dma

  datatype Home = VmallocArea | KmallocSlabs(zone: Zone) | BufferCache

  datatype Block = Block(home: Home, size: int)

  /** What each deallocator of the kernel takes back. */
  predicate TakesBack(d: Deallocator, home: Home) {
    match d
    case Vfree => home.VmallocArea?
    case Kfree => home.KmallocSlabs?
    case CacheFree => home.BufferCache?
  }

  /** The part of CDDdev_struct that main.c and the storage routines manage. */
  datatype Minor = Minor(devno: int, sem: bool, storage: Option<nat>, allocLen: int, allocType: AllocKind)

  const ZERO_MINOR := Minor(0, false, None, 0, AllocVmalloc)

  datatype Freed = Freed(block: nat, using: Deallocator)

  /** The driver's table, and what the kernel currently holds for it: the region of device numbers,
      /proc/myps, character devices, /proc/CDD entries, and heap blocks. `freed` lists the deallocations in
      order; `stray` counts those that handed a block to a deallocator it does not belong to, which then
      does not give it back. */
  datatype Sys = Sys(minors: seq<Minor>, region: bool, myps: bool, cdevs: set<nat>, procs: set<nat>,
                     live: map<nat, Block>, next: nat, freed: seq<Freed>, stray: nat)

  /** How the attempt to bring up one minor ends. */
  datatype Outcome = Added | NoLock | NoCache | CdevRefused

  /** get_storage_type and the switch over it: minors past the five known types get no block. */
  function StorageType(minor: nat): Option<AllocKind> {
    match minor
    case 0 => Some(AllocVmalloc)
    case 1 => Some(AllocKmalloc)
    case 2 => Some(AllocKmallocHigh)
    case 3 => Some(AllocKmallocDma)
    case 4 => Some(AllocKmemCache)
    case _ => None
  }

  const STORAGE_LENGTHS: seq<int> := [4096, 16, 64, 128, 256]

  function StorageLength(minor: nat): int {
    if minor < |STORAGE_LENGTHS| then STORAGE_LENGTHS[minor] else 0
  }

  /** The size of an object of the slab cache that main.c:153 creates. */
  const CACHE_OBJECT := 256

  /** What the switch in allocate_storage asks of the kernel. */
  function NewBlock(kind: AllocKind, length: int): Block {
    match kind
    case AllocVmalloc => Block(VmallocArea, length)
    case AllocKmalloc => Block(KmallocSlabs(Normal), length)
    case AllocKmallocHigh => Block(KmallocSlabs(High), length)
    case AllocKmallocDma => Block(KmallocSlabs(Dma), length)
    case AllocKmemCache => Block(BufferCache, CACHE_OBJECT)
  }

  /** The switch in free_storage. */
  function DeallocatorOf(k: AllocKind): Deallocator {
    match k
    case AllocVmalloc => Vfree
    case AllocKmalloc => Kfree
    case AllocKmallocHigh => Kfree
    case AllocKmallocDma => Kfree
    case AllocKmemCache => CacheFree
  }

  const MINORS := 0x10_0000

  /** MKDEV in a 32-bit dev_t: twelve bits of major above twenty of minor. */
  function MkDev(major: int, minor: nat): int {
    ToUInt(major * MINORS + minor)
  }

  /** MINOR. */
  function MinorOf(devno: int): nat {
    devno % MINORS
  }

  /** MAJOR, of a 32-bit number. */
  function MajorOf(devno: int): int {
    devno / MINORS
  }

  // ------------------------------------------------------------------ init

  function Forget(minors: seq<Minor>): (r: seq<Minor>)
    ensures |r| == |minors|
  {
    seq(|minors|, i requires 0 <= i < |minors| => minors[i].(devno := 0))
  }

  /** One turn of the loop of CDD_init. */
  function BringUp(s: Sys, i: nat, major: int, o: Outcome): Sys
    requires i < |s.minors|
  {
    var m := s.minors[i];
    match o
    case NoLock => s.(minors := s.minors[i := m.(sem := false, devno := 0)])
    case NoCache => s.(minors := s.minors[i := Minor(0, true, None, 0, AllocVmalloc)])
    case CdevRefused => s.(minors := s.minors[i := Minor(0, true, None, 0, AllocVmalloc)])
    case Added =>
      s.(minors := s.minors[i := Minor(MkDev(major, i), true, None, 0, AllocVmalloc)],
         cdevs := s.cdevs + {i}, procs := s.procs + {i})
  }

  /** The loop of CDD_init from minor i on; it stops after the first failure. */
  function BringUpFrom(s: Sys, i: nat, major: int, os: seq<Outcome>): (r: Sys)
    requires i <= |os| == |s.minors|
    ensures |r.minors| == |s.minors|
    decreases |os| - i
  {
    if i == |os| then s
    else
      var s' := BringUp(s, i, major, os[i]);
      if os[i].Added? then BringUpFrom(s', i + 1, major, os) else s'
  }

  function FirstFailure(os: seq<Outcome>): (k: nat)
    ensures k <= |os|
    ensures forall i | 0 <= i < k :: os[i].Added?
    ensures k < |os| ==> !os[k].Added?
  {
    if os == [] || !os[0].Added? then 0 else 1 + FirstFailure(os[1..])
  }

  /** The clean-up loop: every minor without a device number loses its lock. */
  function Decommission(minors: seq<Minor>): (r: seq<Minor>)
    ensures |r| == |minors|
  {
    seq(|minors|, i requires 0 <= i < |minors| => if minors[i].devno != 0 then minors[i] else minors[i].(sem := false))
  }

  /** CDD_init; the result says whether it returned 0. */
  function InitSpec(s: Sys, major: int, regionGranted: bool, os: seq<Outcome>): (Sys, bool)
    requires |os| == |s.minors|
  {
    if !regionGranted then (s.(myps := false), false)
    else
      var up := BringUpFrom(s.(region := true, myps := true, minors := Forget(s.minors)), 0, major, os);
      var k := FirstFailure(os);
      if k == |os| then (up, true)
      else (up.(minors := Decommission(up.minors), region := k > 0, myps := false), false)
  }

  // ------------------------------------------------------------------ open

  /** Lines 226 and 143-185 for one minor. `recordType` says whether alloc_type is set to the allocator
      actually used, as its declaration says, or stays what main.c:152 stored. */
  function OpenAlloc(s: Sys, i: nat, policy: Policy, recordType: bool, granted: bool): Sys
    requires i < |s.minors|
  {
    var m := s.minors[i];
    var minor := MinorOf(m.devno);
    if policy.FirstUse? && m.storage.Some? then s
    else if granted && StorageType(minor).Some? then
      var kind, length := StorageType(minor).value, StorageLength(minor);
      s.(minors := s.minors[i := m.(storage := Some(s.next), allocLen := length,
                                    allocType := if recordType then kind else m.allocType)],
         live := s.live[s.next := NewBlock(kind, length)], next := s.next + 1)
    else s.(minors := s.minors[i := m.(storage := None)])
  }

  // ------------------------------------------------------------------ exit

  /** The kernel's side of a deallocation. */
  predicate GivesBack(live: map<nat, Block>, b: nat, d: Deallocator) {
    b in live && TakesBack(d, live[b].home)
  }

  function Release(s: Sys, b: nat, d: Deallocator): Sys {
    var s' := s.(freed := s.freed + [Freed(b, d)]);
    if GivesBack(s.live, b, d) then s'.(live := s.live - {b}) else s'.(stray := s.stray + 1)
  }

  /** free_storage. */
  function FreeStorage(s: Sys, i: nat): Sys
    requires i < |s.minors|
  {
    var m := s.minors[i];
    if m.storage.None? then s
    else Release(s, m.storage.value, DeallocatorOf(m.allocType)).(minors := s.minors[i := m.(storage := None, allocLen := 0)])
  }

  /** One turn of the loop of CDD_exit. */
  function TakeDown(s: Sys, i: nat): (r: Sys)
    requires i < |s.minors|
    ensures |r.minors| == |s.minors|
  {
    if s.minors[i].devno == 0 then s
    else
      var t := FreeStorage(s.(procs := s.procs - {i}, cdevs := s.cdevs - {i}), i);
      t.(minors := t.minors[i := t.minors[i].(storage := None, sem := false)])
  }

  function TakeDownFrom(s: Sys, i: nat): (r: Sys)
    requires i <= |s.minors|
    ensures |r.minors| == |s.minors|
    decreases |s.minors| - i
  {
    if i == |s.minors| then s else TakeDownFrom(TakeDown(s, i), i + 1)
  }

  function ExitSpec(s: Sys): Sys {
    TakeDownFrom(s.(myps := false), 0).(region := false)
  }
}
