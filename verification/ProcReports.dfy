/** Reading and writing the entries of /proc/CDD: one end-of-file flag shared by all entries, and one
    "written" flag per entry. */
module ProcReports {

  datatype Answer = Busy | Nothing | Report(written: bool)

  datatype Event =
    | Read(entry: nat, contended: bool)
    | Write(entry: nat, faulted: bool)

  /** readproc_CDD2 and writeproc_CDD2 on the flags; `contended` is a failed down_read_trylock and
      `faulted` a failed copy_from_user. */
  class ReportFiles {
    var eof: bool
    const written: array<bool>

    ghost function State(): Shared
      reads this, written
    {
      Shared(eof, written[..])
    }

    constructor (n: nat)
      ensures State() == Shared(false, seq(n, i => false)) && fresh(written)
    {
      eof := false;
      written := new bool[n](i => false);
      new;
      assert written[..] == seq(n, i => false);
    }

    method ReadProc(entry: nat, contended: bool) returns (a: Answer)
      requires entry < written.Length
      modifies this, written
      ensures (State(), a) == ReadStep(old(State()), entry, contended)
    {
      if contended {
        return Busy;
      }
      if eof {
        eof := false;
        return Nothing;
      }
      a := Report(written[entry]);
      written[entry] := false;
      eof := true;
    }

    method WriteProc(entry: nat, faulted: bool) returns (ok: bool)
      requires entry < written.Length
      modifies written
      ensures State() == WriteStep(old(State()), entry, faulted) && ok == !faulted
    {
      if faulted {
        return false;
      }
      written[entry] := true;
      return true;
    }
  }

  datatype Shared = Shared(eof: bool, written: seq<bool>)

  function ReadStep(s: Shared, entry: nat, contended: bool): (Shared, Answer)
    requires entry < |s.written|
  {
    if contended then (s, Busy)
    else if s.eof then (s.(eof := false), Nothing)
    else (Shared(true, s.written[entry := false]), Report(s.written[entry]))
  }

  function WriteStep(s: Shared, entry: nat, faulted: bool): Shared
    requires entry < |s.written|
  {
    if faulted then s else s.(written := s.written[entry := true])
  }

  function After(n: nat, h: seq<Event>): (s: Shared)
    requires forall k | 0 <= k < |h| :: h[k].entry < n
    ensures |s.written| == n
  {
    if h == [] then Shared(false, seq(n, i => false))
    else
      var s := After(n, h[..|h| - 1]);
      match h[|h| - 1]
      case Read(e, contended) => ReadStep(s, e, contended).0
      case Write(e, faulted) => WriteStep(s, e, faulted)
  }

  // ------------------------------------------ a history, without the flags

  /** How many reads of any entry have got past the lock. */
  function Reads(h: seq<Event>): nat {
    if h == [] then 0
    else Reads(h[..|h| - 1]) + if h[|h| - 1].Read? && !h[|h| - 1].contended then 1 else 0
  }

  /** Event k of the history is a read that delivered a report. */
  predicate Reported(h: seq<Event>, k: nat)
    requires k < |h|
  {
    h[k].Read? && !h[k].contended && Reads(h[..k]) % 2 == 0
  }

  /** The entry has had an accepted write since its own latest report. */
  ghost predicate WrittenSinceReport(h: seq<Event>, entry: nat) {
    exists j :: 0 <= j < |h| && h[j] == Write(entry, false)
      && forall m | j < m < |h| && h[m].entry == entry :: !Reported(h, m)
  }

  lemma WrittenSnoc(h: seq<Event>, e: Event, entry: nat)
    ensures WrittenSinceReport(h + [e], entry) <==>
            e == Write(entry, false)
            || (WrittenSinceReport(h, entry) && !(e.entry == entry && Reported(h + [e], |h|)))
  {
    var all := h + [e];
    assert all[..|h|] == h;
    forall m: nat | m < |h| ensures Reported(all, m) <==> Reported(h, m) {
      assert all[..m] == h[..m];
    }
    if e == Write(entry, false) {
      assert all[|h|] == Write(entry, false);
    }
    if WrittenSinceReport(h, entry) && !(e.entry == entry && Reported(all, |h|)) {
      var j :| 0 <= j < |h| && h[j] == Write(entry, false)
        && forall m | j < m < |h| && h[m].entry == entry :: !Reported(h, m);
      assert all[j] == Write(entry, false);
      forall m | j < m < |all| && all[m].entry == entry ensures !Reported(all, m) {
        if m < |h| {
          assert h[m].entry == entry;
        }
      }
    }
    if WrittenSinceReport(all, entry) && e != Write(entry, false) {
      var j :| 0 <= j < |all| && all[j] == Write(entry, false)
        && forall m | j < m < |all| && all[m].entry == entry :: !Reported(all, m);
      assert h[j] == Write(entry, false);
      forall m | j < m < |h| && h[m].entry == entry ensures !Reported(h, m) {
        assert all[m].entry == entry;
      }
    }
  }

  /** The flags are what the history says: eof is the parity of the reads, whichever entries they were
      of, and an entry's flag is whether it was written since its own latest report. */
  lemma {:induction false} FlagsMeanHistory(n: nat, h: seq<Event>)
    requires forall k | 0 <= k < |h| :: h[k].entry < n
    ensures After(n, h).eof <==> Reads(h) % 2 == 1
    ensures forall e: nat | e < n :: After(n, h).written[e] <==> WrittenSinceReport(h, e)
  {
    if h != [] {
      var most, last := h[..|h| - 1], h[|h| - 1];
      FlagsMeanHistory(n, most);
      assert h == most + [last];
      forall e: nat | e < n ensures After(n, h).written[e] <==> WrittenSinceReport(h, e) {
        WrittenSnoc(most, last, e);
      }
    }
  }

  /** So over every history, with any interleaving of readers: a read past the lock gets a report
      exactly if an even number of reads came before it, and the report says "Written" exactly if the
      entry had an accepted write since its own latest report; a contended read changes nothing. */
  lemma AnswerMeansHistory(n: nat, h: seq<Event>, entry: nat, contended: bool)
    requires entry < n && forall k | 0 <= k < |h| :: h[k].entry < n
    ensures ReadStep(After(n, h), entry, contended).1 ==
            if contended then Busy
            else if Reads(h) % 2 == 1 then Nothing
            else Report(WrittenSinceReport(h, entry))
    ensures contended ==> ReadStep(After(n, h), entry, contended).0 == After(n, h)
  {
    FlagsMeanHistory(n, h);
  }

  /** Every session so far has been read to its end. */
  predicate AtRest(h: seq<Event>) {
    Reads(h) % 2 == 0
  }

  /** A read past the lock, followed by writes and contended reads, adds one read. */
  lemma OneMoreRead(n: nat, h: seq<Event>, entry: nat, between: seq<Event>)
    requires entry < n && forall k | 0 <= k < |h| :: h[k].entry < n
    requires forall k | 0 <= k < |between| :: between[k].entry < n && (between[k].Read? ==> between[k].contended)
    ensures var mid := h + [Read(entry, false)] + between;
            (forall k | 0 <= k < |mid| :: mid[k].entry < n) && Reads(mid) == Reads(h) + 1
  {
    ReadsSnoc(h, entry);
    QuietReads(h + [Read(entry, false)], between);
  }

  /** From rest, one more session of any entry, with any writes and contended reads in the middle, gets
      exactly one report and then nothing, and leaves the files at rest. */
  lemma SessionGetsOneReport(n: nat, h: seq<Event>, entry: nat, between: seq<Event>)
    requires entry < n && AtRest(h)
    requires forall k | 0 <= k < |h| :: h[k].entry < n
    requires forall k | 0 <= k < |between| :: between[k].entry < n && (between[k].Read? ==> between[k].contended)
    ensures var mid := h + [Read(entry, false)] + between;
            && (forall k | 0 <= k < |mid| :: mid[k].entry < n)
            && ReadStep(After(n, h), entry, false).1 == Report(WrittenSinceReport(h, entry))
            && ReadStep(After(n, mid), entry, false).1 == Nothing
            && AtRest(mid + [Read(entry, false)])
  {
    var mid := h + [Read(entry, false)] + between;
    AnswerMeansHistory(n, h, entry, false);
    OneMoreRead(n, h, entry, between);
    AnswerMeansHistory(n, mid, entry, false);
    ReadsSnoc(mid, entry);
  }

  lemma ReadsSnoc(h: seq<Event>, entry: nat)
    ensures Reads(h + [Read(entry, false)]) == Reads(h) + 1
  {
    assert (h + [Read(entry, false)])[..|h|] == h;
  }

  lemma {:induction false} QuietReads(h: seq<Event>, between: seq<Event>)
    requires forall k | 0 <= k < |between| :: between[k].Read? ==> between[k].contended
    ensures Reads(h + between) == Reads(h)
  {
    if between == [] {
      assert h + between == h;
    } else {
      var n := |between| - 1;
      assert (h + between)[..|h| + n] == h + between[..n];
      QuietReads(h, between[..n]);
    }
  }
}
