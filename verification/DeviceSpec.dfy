/** What one critical section of basic_ops.c does to one device, as functions on a value, together
    with the driver's own fixed-width guards and their exact meaning in mathematical integers.
    CharDevice implements these sections on an array; BlockingOpen interleaves their single lines. */
module DeviceSpec {
  import opened CInt
  import opened Options

  newtype byte = b: int | 0 <= b < 256

  /** When CDD_open calls the allocator: at every open, as line 226 is written, or only while the
      device has no block yet, as the comment above that line and the recorded session say. */
  datatype Policy = EveryOpen | FirstUse

  /** The bits of f_flags that the driver looks at; `writable` is accmode != O_RDONLY. */
  datatype Flags = Flags(writable: bool, trunc: bool, append: bool, nonblock: bool)

  /** What the kernel guarantees of the position and count of a transfer. */
  predicate Position(pos: int, count: int) {
    0 <= pos && 0 <= count <= MAX_RW_COUNT && pos + count < TWO_63
  }

  /** The fields of CDDdev_struct that a file operation reads or writes. */
  datatype Dev = Dev(block: Option<seq<byte>>, allocLen: int, counter: int, append: bool, opens: int)

  const UNTOUCHED := Dev(None, 0, 0, false, 0)

  predicate Sound(d: Dev, len: int) {
    && 0 < len < TWO_31
    && 0 <= d.counter <= d.allocLen
    && (d.allocLen == 0 || d.allocLen == len)
    && (d.block.Some? ==> |d.block.value| == d.allocLen == len)
  }

  /** What a reader sees: the first `counter` bytes of the block. */
  function Content(d: Dev): seq<byte> {
    if d.block.Some? && 0 <= d.counter <= |d.block.value| then d.block.value[..d.counter] else []
  }

  // ---------------------------------------------------------------- open

  /** content_is_unavailable, with its C result type. */
  function Unavailable(counter: int, f: Flags): int {
    var emptyInit := counter == 0;
    if !f.writable && (emptyInit || f.trunc) then 1 else 0
  }

  function AllocStep(policy: Policy, d: Dev, grant: Option<seq<byte>>): Dev {
    if policy.FirstUse? && d.block.Some? then d
    else match grant
      case Some(b) => d.(block := grant, allocLen := |b|)
      case None => d.(block := None)
  }

  function ClearFirst(block: Option<seq<byte>>): Option<seq<byte>> {
    if block.Some? && |block.value| > 0 then Some(block.value[0 := 0]) else block
  }

  /** The effect of an open that is allowed to proceed. */
  function Commit(d: Dev, f: Flags): Dev {
    d.(opens := ToUInt(d.opens + 1),
       append := f.append,
       block := if f.trunc then ClearFirst(d.block) else d.block,
       counter := if f.trunc then 0 else d.counter)
  }

  /** One turn of the loop in wait_for_content under the lock, and what follows it when it ends. */
  function WaitSection(d: Dev, f: Flags): Dev {
    if Unavailable(d.counter, f) != 0 then d else Commit(d, f)
  }

  function OpenSection(policy: Policy, d: Dev, f: Flags, grant: Option<seq<byte>>): Dev {
    var a := AllocStep(policy, d, grant);
    if a.block.None? then a else WaitSection(a, f)
  }

  // --------------------------------------------------------------- write

  function WritePos(d: Dev, fpos: int): (pos: int)
    ensures FitsInt(pos)
  {
    ToInt(if d.append then d.counter else fpos)
  }

  function WriteEnd(pos: int, count: int): (end: int)
    ensures FitsInt(end)
  {
    ToInt(ToULong(ToULong(pos) + count))
  }

  predicate WriteGuardsPass(pos: int, end: int, allocLen: int) {
    !(ToUInt(end) > allocLen) && !(pos < 0)
  }

  predicate InBuffer(pos: int, count: int, allocLen: int) {
    0 <= pos && pos + count <= allocLen
  }

  predicate Covers(pos: int, count: int, k: int) {
    pos <= k < pos + count
  }

  function Overwrite(block: Option<seq<byte>>, pos: int, data: seq<byte>): Option<seq<byte>> {
    if block.Some? && InBuffer(pos, |data|, |block.value|)
    then Some(block.value[..pos] + data + block.value[pos + |data|..])
    else block
  }

  function WriteSection(d: Dev, fpos: int, data: seq<byte>): Dev {
    var pos := WritePos(d, fpos);
    if InBuffer(pos, |data|, d.allocLen)
    then d.(block := Overwrite(d.block, pos, data), counter := Max(d.counter, pos + |data|))
    else d
  }

  // ---------------------------------------------------------------- read

  function ReadCount(fpos: int, count: int, counter: int): int {
    if fpos >= counter then 0
    else if ToULong(ToULong(fpos) + count) >= counter then ToULong(counter - fpos)
    else count
  }

  function ReadSlice(d: Dev, fpos: int, count: int): seq<byte> {
    var c := Content(d);
    if 0 <= fpos < |c| && 0 <= count then c[fpos..Min(fpos + count, |c|)] else []
  }

  // ---------------------------------------------------------------- seek

  datatype Whence = SeekSet | SeekCur | SeekEnd | SeekOther

  /** The C expression `pos = from + newpos`, with `from` and `pos` of type int. */
  function SeekSum(from: int, off: int): (pos: int)
    ensures FitsInt(pos)
    ensures FitsInt(from + off) ==> pos == from + off
  {
    ToInt(ToULong(from + off))
  }

  function SeekFrom(whence: Whence, fpos: int, counter: int): int {
    match whence
    case SeekSet => 0
    case SeekCur => ToInt(fpos)
    case SeekEnd => ToInt(counter)
    case SeekOther => 0
  }

  function SeekBase(whence: Whence, fpos: int, counter: int): int {
    match whence
    case SeekSet => 0
    case SeekCur => fpos
    case SeekEnd => counter
    case SeekOther => 0
  }

  function SeekResult(whence: Whence, fpos: int, off: int, counter: int): Option<int> {
    var pos := SeekSum(SeekFrom(whence, fpos, counter), off);
    if whence.SeekOther? || pos < 0 || pos > counter then None else Some(pos)
  }

  /** llseek as a caller would describe it, in mathematical integers. */
  function PlainSeek(whence: Whence, fpos: int, off: int, counter: int): Option<int> {
    var pos := SeekBase(whence, fpos, counter) + off;
    if whence.SeekOther? || pos < 0 || pos > counter then None else Some(pos)
  }

  // ------------------------------------------------ what the guards mean

  /** The two guards of CDD_write accept exactly the writes that stay inside the buffer, also when
      pos + count overflows `int`; and the accepted `end` is the mathematical sum. */
  lemma WriteGuardsExact(pos: int, count: int, allocLen: int)
    requires FitsInt(pos) && 0 <= count <= MAX_RW_COUNT && 0 <= allocLen < TWO_32
    ensures WriteGuardsPass(pos, WriteEnd(pos, count), allocLen) <==> InBuffer(pos, count, allocLen)
    ensures InBuffer(pos, count, allocLen) ==> ToUInt(WriteEnd(pos, count)) == pos + count
  {
    if pos >= 0 {
      assert ToULong(ToULong(pos) + count) == pos + count;
      WrapRoundTrip(pos + count);
    }
  }

  /** The bound on count is needed: a 2^32-byte request at offset 0 would get past both guards. */
  lemma WriteGuardsNeedTheCountBound(allocLen: int)
    requires 0 <= allocLen < TWO_32
    ensures WriteGuardsPass(0, WriteEnd(0, TWO_32), allocLen) && !InBuffer(0, TWO_32, allocLen)
  {
  }

  lemma WrapRoundTrip(x: int)
    ensures ToUInt(ToInt(x)) == x % TWO_32
  {
    var k :| ToInt(x) == x + k * TWO_32;
    ModShift(x, k);
  }

  lemma ModShift(x: int, k: int)
    ensures (x + k * TWO_32) % TWO_32 == x % TWO_32
  {
  }

  /** CDD_read's mixed signed and unsigned comparisons yield min(count, counter - fpos), unless the
      64-bit sum wraps round to something below `counter`; the kernel's MAX_RW_COUNT excludes that. */
  lemma ReadCountExact(fpos: int, count: int, counter: int)
    requires 0 <= fpos < TWO_63 && 0 <= count < TWO_64 && 0 <= counter < TWO_32
    ensures ReadCount(fpos, count, counter) == Max(0, Min(count, counter - fpos))
       <==> (fpos + count < TWO_64 || counter <= fpos + count - TWO_64 || counter <= fpos)
  {
    if fpos + count >= TWO_64 {
      assert (fpos + count) % TWO_64 == fpos + count - TWO_64;
    }
  }

  /** For every whence, every offset and every file position a successful seek lands in [0, counter];
      and the code departs from plain integer arithmetic exactly when the sum does not fit in `int` but
      its low 32 bits happen to name a position inside the file. */
  lemma SeekExact(whence: Whence, fpos: int, off: int, counter: int)
    requires 0 <= counter < TWO_31
    ensures var r := SeekResult(whence, fpos, off, counter);
            var sum := SeekBase(whence, fpos, counter) + off;
            && (r.Some? ==> 0 <= r.value <= counter)
            && (r == PlainSeek(whence, fpos, off, counter)
                <==> whence.SeekOther? || FitsInt(sum) || !(0 <= ToInt(sum) <= counter))
  {
    SeekSumExact(whence, fpos, off, counter);
  }

  /** The C sum, with its conversions on the way, is the mathematical one cut to `int` once. */
  lemma SeekSumExact(whence: Whence, fpos: int, off: int, counter: int)
    ensures SeekSum(SeekFrom(whence, fpos, counter), off) == ToInt(SeekBase(whence, fpos, counter) + off)
  {
    var from, base := SeekFrom(whence, fpos, counter), SeekBase(whence, fpos, counter);
    var k :| from == base + k * TWO_32;
    var q := -((from + off) / TWO_64);
    assert ToULong(from + off) == from + off + q * TWO_64;
    SameLowBits(base + off, ToULong(from + off), k + q * TWO_32);
  }

  /** Numbers that agree modulo 2^32 convert to the same `int`. */
  lemma SameLowBits(x: int, y: int, k: int)
    requires y == x + k * TWO_32
    ensures ToInt(x) == ToInt(y)
  {
    ModShift(x, k);
  }

  /** An offset of 2^32 is such a case: the seek succeeds and leaves the file at 0. */
  lemma SeekWrapsAtTwo32(fpos: int, counter: int)
    requires 0 <= counter < TWO_31
    ensures SeekResult(SeekSet, fpos, TWO_32, counter) == Some(0)
    ensures PlainSeek(SeekSet, fpos, TWO_32, counter) == None
  {
  }

  // ------------------------------------------- what the sections preserve

  /** Every section keeps counter within the block. */
  lemma OpenKeepsSound(policy: Policy, d: Dev, f: Flags, grant: Option<seq<byte>>, len: int)
    requires Sound(d, len) && (grant.Some? ==> |grant.value| == len)
    ensures Sound(OpenSection(policy, d, f, grant), len)
  {
  }

  lemma WriteKeepsSound(d: Dev, fpos: int, data: seq<byte>, len: int)
    requires Sound(d, len)
    ensures Sound(WriteSection(d, fpos, data), len)
  {
  }

  /** A write that is accepted replaces exactly [pos, pos + count), byte by byte, leaves every other
      byte of the block alone (a gap shows the bytes the block retained), and extends the file to
      max(counter, pos + count); one that is refused changes nothing. */
  lemma WriteMeaning(d: Dev, fpos: int, data: seq<byte>, len: int)
    requires Sound(d, len) && d.block.Some?
    ensures var pos := WritePos(d, fpos);
            var e := WriteSection(d, fpos, data);
            if InBuffer(pos, |data|, len) then
              && e.block.Some?
              && |Content(e)| == Max(d.counter, pos + |data|)
              && (forall k | 0 <= k < len ::
                    e.block.value[k] == if pos <= k < pos + |data| then data[k - pos] else d.block.value[k])
              && e.append == d.append && e.opens == d.opens && e.allocLen == d.allocLen
            else e == d
  {
  }

  /** An accepted write is the only source of what the content gains (it leaves no gap) exactly if the
      device is in append mode or the position handed in is not beyond the end. */
  lemma NoGapIff(d: Dev, fpos: int, data: seq<byte>, len: int)
    requires Sound(d, len) && d.block.Some? && InBuffer(WritePos(d, fpos), |data|, len)
    ensures var pos := WritePos(d, fpos);
            var n := |Content(WriteSection(d, fpos, data))|;
            (forall k | d.counter <= k < n :: Covers(pos, |data|, k))
            <==> d.append || ToInt(fpos) <= d.counter
  {
    var pos := WritePos(d, fpos);
    var n := |Content(WriteSection(d, fpos, data))|;
    assert n == Max(d.counter, pos + |data|);
    if pos > d.counter {
      assert !Covers(pos, |data|, d.counter);
    }
  }

  /** Opening without O_TRUNC keeps the content whatever the allocator hands out, exactly when the
      device reuses its block or had nothing to lose. Line 226 as written reuses nothing. */
  lemma OpenKeepsContentIff(policy: Policy, d: Dev, f: Flags, len: int)
    requires Sound(d, len) && d.block.Some? && !f.trunc
    ensures (forall grant: Option<seq<byte>> | grant.Some? && |grant.value| == len ::
               Content(OpenSection(policy, d, f, grant)) == Content(d))
            <==> (policy.FirstUse? || d.counter == 0)
  {
    if policy.EveryOpen? && d.counter > 0 {
      var old0 := d.block.value[0];
      var new0: byte := if old0 == 0 then 1 else 0;
      var grant := Some(seq(len, i => new0));
      assert Content(OpenSection(policy, d, f, grant))[0] != Content(d)[0];
    }
  }

  /** A failed allocation takes the block away from an initialised device exactly under line 226 as
      written; the length field keeps its old value, so later guards still admit accesses. */
  lemma OpenLosesBlockIff(policy: Policy, d: Dev, f: Flags, grant: Option<seq<byte>>)
    requires d.block.Some?
    ensures OpenSection(policy, d, f, grant).block.None? <==> policy.EveryOpen? && grant.None?
    ensures OpenSection(policy, d, f, None).allocLen == d.allocLen
  {
  }

  /** content_is_unavailable is never negative, and says 1 exactly for a read-only open of an empty
      device or a read-only truncating open. */
  lemma UnavailableIsZeroOrOne(counter: int, f: Flags)
    ensures 0 <= Unavailable(counter, f) <= 1
    ensures Unavailable(counter, f) == 1 <==> !f.writable && (counter == 0 || f.trunc)
  {
  }
}
