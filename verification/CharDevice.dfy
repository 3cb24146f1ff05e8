/** The file operations of basic_ops.c on one device, updated in place, for calls that find the
    semaphore free. Each method computes in the driver's own int, unsigned and 64-bit arithmetic and
    is proved against the section functions of DeviceSpec, which use mathematical integers. What
    happens between the lines when calls overlap is the subject of BlockingOpen. */
module CharDevice {
  import opened CInt
  import opened Options
  import opened DeviceSpec

  datatype OpenOutcome = Opened | NoMemory | MustWait

  datatype WriteOutcome = Written(count: int) | Fault

  /** struct file, as far as the driver uses it. */
  class OpenFile {
    var fpos: int
    const flags: Flags

    constructor (flags: Flags)
      ensures this.flags == flags && fpos == 0
    {
      this.flags := flags;
      fpos := 0;
    }
  }

  class Device {
    const policy: Policy
    const len: int
    var storage: array?<byte>
    var allocLen: int
    var counter: int
    var append: bool
    var opens: int

    ghost predicate Valid()
      reads this
    {
      && 0 < len < TWO_31
      && 0 <= counter <= allocLen
      && (allocLen == 0 || allocLen == len)
      && (storage != null ==> storage.Length == allocLen == len)
    }

    ghost function State(): (d: Dev)
      reads this, storage
      requires Valid()
      ensures Sound(d, len)
    {
      Dev(if storage == null then None else Some(storage[..]), allocLen, counter, append, opens)
    }

    constructor (policy: Policy, len: int)
      requires 0 < len < TWO_31
      ensures Valid() && State() == UNTOUCHED && this.policy == policy && this.len == len
    {
      this.policy := policy;
      this.len := len;
      storage := null;
      allocLen, counter, append, opens := 0, 0, false, 0;
    }

    /** allocate_storage: the kernel's allocator either grants a block, with whatever bytes happen to
        be in it, or refuses. */
    method AllocateStorage(grant: Option<seq<byte>>) returns (result: array?<byte>)
      requires Valid()
      requires grant.Some? ==> |grant.value| == len
      modifies this`storage, this`allocLen
      ensures Valid()
      ensures grant.Some? <==> result != null
      ensures grant.Some? ==> fresh(result) && storage == result && result[..] == grant.value && allocLen == len
      ensures grant.None? ==> storage == old(storage) && allocLen == old(allocLen)
    {
      result := null;
      if grant.Some? {
        var bytes := grant.value;
        result := new byte[|bytes|](i requires 0 <= i < |bytes| => bytes[i]);
        storage := result;
        allocLen := |bytes|;
      }
    }

    /** CDD_open up to the first point where it leaves or would have to wait. */
    method Open(f: Flags, grant: Option<seq<byte>>) returns (outcome: OpenOutcome)
      requires Valid()
      requires grant.Some? ==> |grant.value| == len
      modifies this, storage
      ensures Valid()
      ensures State() == OpenSection(policy, old(State()), f, grant)
      ensures outcome.NoMemory? <==> storage == null
      ensures outcome.MustWait? <==> storage != null && !f.writable && (old(counter) == 0 || f.trunc)
      ensures outcome.Opened? && !f.writable ==> counter > 0
      ensures policy.FirstUse? && old(storage) != null ==> storage == old(storage)
      ensures storage != old(storage) && storage != null ==> fresh(storage)
    {
      if policy.EveryOpen? || storage == null {
        storage := AllocateStorage(grant);
      }
      if storage == null {
        return NoMemory;
      }
      if Unavailable(counter, f) != 0 {
        return MustWait;
      }
      opens := ToUInt(opens + 1);
      append := false;
      if f.trunc {
        storage[0] := 0;
        counter := 0;
      }
      if f.append {
        append := true;
      }
      return Opened;
    }

    /** CDD_read at the position it is handed, which it advances. The file is open, so its device has
        storage; the kernel bounds position and count. */
    method ReadAt(count: int, pos: int) returns (data: seq<byte>, newPos: int)
      requires Valid() && storage != null
      requires 0 <= pos && 0 <= count && pos + count < TWO_63
      ensures data == ReadSlice(State(), pos, count)
      ensures |data| == Max(0, Min(count, counter - pos))
      ensures newPos == pos + |data|
    {
      var n := count;
      if pos >= counter {
        return [], pos;
      } else if ToULong(pos + count) >= counter {
        n := ToULong(counter - pos);
      }
      if n <= 0 {
        return [], pos;
      }
      return storage[pos..pos + n], pos + n;
    }

    /** read, which hands CDD_read the file's own offset; pread is ReadAt itself. */
    method Read(file: OpenFile, count: int) returns (data: seq<byte>)
      requires Valid() && storage != null
      requires 0 <= file.fpos && 0 <= count && file.fpos + count < TWO_63
      modifies file`fpos
      ensures State() == old(State())
      ensures data == ReadSlice(State(), old(file.fpos), count)
      ensures |data| == Max(0, Min(count, counter - old(file.fpos)))
      ensures file.fpos == old(file.fpos) + |data|
    {
      var newPos;
      data, newPos := ReadAt(count, file.fpos);
      file.fpos := newPos;
    }

    /** CDD_write at the position it is handed, which it advances. The kernel bounds the count and keeps
        position plus count within 64 bits; the position may be negative or beyond the end. */
    method WriteAt(data: seq<byte>, fpos: int) returns (outcome: WriteOutcome, newPos: int)
      requires Valid() && storage != null
      requires |data| <= MAX_RW_COUNT && -TWO_63 <= fpos && fpos + |data| < TWO_63
      modifies this`counter, storage
      ensures Valid()
      ensures State() == WriteSection(old(State()), fpos, data)
      ensures outcome == if InBuffer(WritePos(old(State()), fpos), |data|, len) then Written(|data|) else Fault
      ensures newPos == fpos + (if outcome.Written? then |data| else 0)
    {
      var pos := ToInt(if append then counter else fpos);
      var end := ToInt(ToULong(ToULong(pos) + |data|));
      WriteGuardsExact(pos, |data|, allocLen);
      if ToUInt(end) > allocLen {
        return Fault, fpos;
      }
      if pos < 0 {
        return Fault, fpos;
      }
      ghost var before := storage[..];
      forall i | 0 <= i < |data| {
        storage[pos + i] := data[i];
      }
      assert storage[..] == before[..pos] + data + before[pos + |data|..];
      if ToUInt(end) > counter {
        counter := ToUInt(end);
      }
      return Written(|data|), fpos + |data|;
    }

    /** write, which hands CDD_write the file's own offset; pwrite is WriteAt itself. */
    method Write(file: OpenFile, data: seq<byte>) returns (outcome: WriteOutcome)
      requires Valid() && storage != null
      requires |data| <= MAX_RW_COUNT && -TWO_63 <= file.fpos && file.fpos + |data| < TWO_63
      modifies this`counter, storage, file`fpos
      ensures Valid()
      ensures State() == WriteSection(old(State()), old(file.fpos), data)
      ensures outcome == if InBuffer(WritePos(old(State()), old(file.fpos)), |data|, len) then Written(|data|) else Fault
      ensures file.fpos == old(file.fpos) + (if outcome.Written? then |data| else 0)
    {
      var newPos;
      outcome, newPos := WriteAt(data, file.fpos);
      file.fpos := newPos;
    }

    /** CDD_llseek, which takes no lock. None stands for EINVAL. */
    method Llseek(file: OpenFile, off: int, whence: Whence) returns (r: Option<int>)
      requires Valid()
      requires -TWO_63 <= off < TWO_63
      modifies file`fpos
      ensures r == SeekResult(whence, old(file.fpos), off, counter)
      ensures r.Some? ==> file.fpos == r.value && 0 <= r.value <= counter
      ensures r.None? ==> file.fpos == old(file.fpos)
    {
      var from := 0;
      match whence {
        case SeekSet => from := 0;
        case SeekCur => from := ToInt(file.fpos);
        case SeekEnd => from := ToInt(counter);
        case SeekOther => return None;
      }
      var pos := SeekSum(from, off);
      if pos < 0 || pos > counter {
        return None;
      }
      file.fpos := pos;
      return Some(pos);
    }
  }
}
