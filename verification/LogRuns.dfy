/** What a log reader returns and reports for any bytes, whole, cut or corrupted: the runs of fragments that make up
    records, and one report for everything that is out of place (db/log_reader.cc). */
module LogRuns {
  import opened Keys
  import opened Coding
  import opened Log

  // ---------- physical records ----------

  /** A physical record is accepted exactly when the two length bytes fit the rest of the block and the checksum is
      that of the type and the payload; a zero type with no payload is skipped without a report. */
  lemma PhysicalRecord(step: Crc, buffer: Bytes, full: bool, kind: Byte, data: Bytes)
    requires |buffer| >= 7
    ensures ParseBlock(step, true, buffer, full).what == Fragment(kind, data) <==>
              && 7 + |data| <= |buffer| && buffer[6] == kind && buffer[7..7 + |data|] == data
              && NumberOf(buffer[4], buffer[5]) == |data| && !(kind == 0 && data == [])
              && Unmask(DecodeFixed32(buffer)) == Extend(step, 0, [kind] + data)
    ensures ParseBlock(step, true, buffer, full) == Parsed(Eof, |buffer|, 0) <==>
              !full && 7 + NumberOf(buffer[4], buffer[5]) > |buffer|
    ensures ParseBlock(step, true, buffer, full) == Parsed(Bad, |buffer|, 0) <==>
              buffer[6] == 0 && NumberOf(buffer[4], buffer[5]) == 0
  {
    hide Extend, Unmask, DecodeFixed32;
    var length := NumberOf(buffer[4], buffer[5]);
    if 7 + length <= |buffer| {
      assert buffer[6..7 + length] == [buffer[6]] + buffer[7..7 + length];
    }
  }

  function NumberOf(low: Byte, high: Byte): nat
  {
    var a: int, b: int := low, high;
    a + 256 * b
  }

  /** The type codes, and what a fragment written at p occupies: zeros up to the next block when fewer than seven bytes
      are left, then a record that lies within one block of 32768 bytes. */
  lemma FragmentPlace(step: Crc, p: nat, kind: Byte, payload: Bytes)
    requires |payload| <= Room(p)
    ensures |payload| <= 0xffff
    ensures var chunk, pad := Chunk(step, p, kind, payload), Padding(p); var q := p + pad;
      && (pad == if 32768 - p % 32768 < 7 then 32768 - p % 32768 else 0)
      && (forall i :: 0 <= i < pad ==> chunk[i] == 0)
      && |chunk| == pad + 7 + |payload| && q / 32768 == (q + 7 + |payload| - 1) / 32768
      && (Room(p) == |payload| ==> (q + 7 + |payload|) % 32768 == 0)
    ensures Kind(true, true) == 1 && Kind(true, false) == 2 && Kind(false, false) == 3 && Kind(false, true) == 4
  {
    hide Emit;
  }

  // ---------- runs of fragments ----------

  /** The physical records of a file from p on, up to its end. */
  function Stream(step: Crc, checksum: bool, file: Bytes, p: nat): (S: seq<Parsed>)
    requires p <= |file|
    ensures |S| > 0
    decreases |file| - p
  {
    var r := NextPhysical(step, checksum, file, p);
    if r.what.Eof? then [r] else [r] + Stream(step, checksum, file, p + r.used)
  }

  predicate IsKind(S: seq<Parsed>, i: nat, kind: nat)
  {
    i < |S| && S[i].what.Fragment? && S[i].what.kind == kind
  }

  /** A record has been begun at h and only continued since. */
  ghost predicate OpenFrom(S: seq<Parsed>, h: nat, i: nat)
  {
    h < i <= |S| && IsKind(S, h, 2) && forall m :: h < m < i ==> IsKind(S, m, 3)
  }

  /** The fragments from i up to j make up a record. */
  ghost predicate RunAt(S: seq<Parsed>, i: nat, j: nat)
  {
    || (j == i + 1 && IsKind(S, i, 1))
    || (i + 1 < j <= |S| && OpenFrom(S, i, j - 1) && IsKind(S, j - 1, 4))
  }

  function Payload(S: seq<Parsed>, i: nat, j: nat): Bytes
    requires i <= j <= |S|
  {
    if i == j then [] else Payload(S, i, j - 1) + (if S[j - 1].what.Fragment? then S[j - 1].what.data else [])
  }

  /** The records that begin at i or later, in order. */
  ghost function Collected(S: seq<Parsed>, i: nat): seq<Bytes>
    decreases |S| - i
  {
    if i >= |S| then []
    else if j: nat :| RunAt(S, i, j) then [Payload(S, i, j)] + Collected(S, i + 1)
    else Collected(S, i + 1)
  }

  /** Element i is out of place: a record is begun or given up while another, not empty so far, is open; a fragment
      continues nothing; or its type is unknown. */
  ghost predicate OutOfPlace(S: seq<Parsed>, i: nat)
    requires i < |S|
  {
    match S[i].what
    case Eof => false
    case Bad => exists h: nat :: OpenFrom(S, h, i)
    case Fragment(kind, _) =>
      if kind == 1 || kind == 2 then exists h: nat :: OpenFrom(S, h, i) && Payload(S, h, i) != []
      else if kind == 3 || kind == 4 then !exists h: nat :: OpenFrom(S, h, i)
      else true
  }

  ghost function Faults(S: seq<Parsed>, i: nat): nat
    decreases |S| - i
  {
    if i >= |S| then 0
    else S[i].reports + (if OutOfPlace(S, i) then 1 else 0) + Faults(S, i + 1)
  }

  // ---------- the reader finds them ----------

  lemma OneRun(S: seq<Parsed>, i: nat, j: nat)
    requires i < |S| && RunAt(S, i, j)
    ensures Collected(S, i) == [Payload(S, i, j)] + Collected(S, i + 1)
  {
    forall k: nat | RunAt(S, i, k) ensures k == j {
      var atK, atJ := IsKind(S, k - 1, 3), IsKind(S, j - 1, 3);
    }
  }

  lemma NoRun(S: seq<Parsed>, i: nat)
    requires i < |S| && !IsKind(S, i, 1) && !IsKind(S, i, 2)
    ensures Collected(S, i) == Collected(S, i + 1)
  {}

  /** An open record that is not continued or closed at i never becomes one. */
  lemma NeverClosed(S: seq<Parsed>, h: nat, i: nat)
    requires OpenFrom(S, h, i) && i < |S| && !IsKind(S, i, 3) && !IsKind(S, i, 4)
    ensures Collected(S, h) == Collected(S, i)
  {
    forall j: nat ensures !RunAt(S, h, j) {
      var atI, atJ := IsKind(S, i, 3), IsKind(S, if j > 0 then j - 1 else 0, 3);
    }
    SkipOpen(S, h, i);
  }

  lemma {:induction false} SkipOpen(S: seq<Parsed>, h: nat, i: nat)
    requires OpenFrom(S, h, i)
    ensures Collected(S, h + 1) == Collected(S, i)
  {
    if h + 1 < i {
      SkipOpen(S, h, i - 1);
      assert IsKind(S, i - 1, 3);
      NoRun(S, i - 1);
    }
  }

  lemma OneOpen(S: seq<Parsed>, h: nat, g: nat, i: nat)
    requires OpenFrom(S, h, i) && OpenFrom(S, g, i)
    ensures h == g
  {
    assert g < h ==> IsKind(S, h, 3);
    assert h < g ==> IsKind(S, g, 3);
  }

  /** What the reader still returns and reports, with a record open or not. */
  function ReadOn(step: Crc, checksum: bool, file: Bytes, p: nat, scratch: Option<Bytes>): (seq<Bytes>, nat)
    requires p <= |file|
  {
    var r := NextRecord(step, checksum, file, p, scratch);
    if r.record.None? then ([], r.reports)
    else
      var rest := ReadAll(step, checksum, file, p + r.used);
      ([r.record.value] + rest.0, r.reports + rest.1)
  }

  lemma RecordStep(step: Crc, checksum: bool, file: Bytes, p: nat, scratch: Option<Bytes>)
    requires p <= |file|
    ensures var ph := NextPhysical(step, checksum, file, p);
      NextRecord(step, checksum, file, p, scratch) ==
        match Assemble(ph.what, scratch)
        case Done(record, n) => Outcome(record, ph.used, ph.reports + n)
        case GoOn(more, n) =>
          var r := NextRecord(step, checksum, file, p + ph.used, more);
          Outcome(r.record, ph.used + r.used, ph.reports + n + r.reports)
  {
    hide NextPhysical, Assemble;
  }

  lemma ReadOnIsAll(step: Crc, checksum: bool, file: Bytes, p: nat)
    requires p <= |file|
    ensures ReadOn(step, checksum, file, p, None) == ReadAll(step, checksum, file, p)
  {
    hide NextRecord;
  }

  lemma ReadOnStep(step: Crc, checksum: bool, file: Bytes, p: nat, scratch: Option<Bytes>)
    requires p <= |file|
    ensures var ph := NextPhysical(step, checksum, file, p);
      ReadOn(step, checksum, file, p, scratch) ==
        match Assemble(ph.what, scratch)
        case Done(None, n) => ([], ph.reports + n)
        case Done(Some(record), n) =>
          var rest := ReadOn(step, checksum, file, p + ph.used, None);
          ([record] + rest.0, ph.reports + n + rest.1)
        case GoOn(more, n) =>
          var rest := ReadOn(step, checksum, file, p + ph.used, more);
          (rest.0, ph.reports + n + rest.1)
  {
    hide NextPhysical, Assemble, NextRecord, ReadAll;
    RecordStep(step, checksum, file, p, scratch);
    var ph := NextPhysical(step, checksum, file, p);
    var what := Assemble(ph.what, scratch);
    if what.Done? && what.record.Some? { ReadOnIsAll(step, checksum, file, p + ph.used); }
  }

  /** The state of the reader before element i of the stream. */
  ghost predicate StateAt(S: seq<Parsed>, i: nat, scratch: Option<Bytes>)
  {
    if scratch.None? then forall h: nat :: !OpenFrom(S, h, i)
    else exists h: nat :: OpenFrom(S, h, i) && scratch.value == Payload(S, h, i)
  }

  /** The records still to come: those that begin at i or later, and the open one if it is completed. */
  ghost predicate Comes(S: seq<Parsed>, i: nat, scratch: Option<Bytes>, records: seq<Bytes>)
  {
    if scratch.None? then records == Collected(S, i)
    else exists h: nat :: OpenFrom(S, h, i) && records == Collected(S, h)
  }

  lemma {:induction false} ReadsRuns(step: Crc, checksum: bool, file: Bytes, p: nat, scratch: Option<Bytes>,
                                     S: seq<Parsed>, i: nat)
    requires p <= |file| && i < |S| && S[i..] == Stream(step, checksum, file, p) && StateAt(S, i, scratch)
    ensures var r := ReadOn(step, checksum, file, p, scratch); Comes(S, i, scratch, r.0) && r.1 == Faults(S, i)
    decreases |file| - p
  {
    hide Stream, ReadOn, NextPhysical, Comes, StateAt, OutOfPlace, Collected;
    var ph := NextPhysical(step, checksum, file, p);
    StreamStep(step, checksum, file, p, S, i);
    ReadOnStep(step, checksum, file, p, scratch);
    Reported(S, i, scratch);
    match Assemble(ph.what, scratch) {
      case Done(None, n) => Ended(S, i, scratch);
      case Done(Some(record), n) =>
        Completed(S, i, scratch, record);
        ReadsRuns(step, checksum, file, p + ph.used, None, S, i + 1);
      case GoOn(more, n) =>
        Continued(S, i, scratch, more);
        ReadsRuns(step, checksum, file, p + ph.used, more, S, i + 1);
        StillComes(S, i, scratch, more, ReadOn(step, checksum, file, p + ph.used, more).0);
    }
  }

  lemma StreamStep(step: Crc, checksum: bool, file: Bytes, p: nat, S: seq<Parsed>, i: nat)
    requires p <= |file| && i < |S| && S[i..] == Stream(step, checksum, file, p)
    ensures var ph := NextPhysical(step, checksum, file, p);
      && S[i] == ph && (if ph.what.Eof? then |S| == i + 1 && ph.reports == 0
                        else i + 1 < |S| && S[i + 1..] == Stream(step, checksum, file, p + ph.used))
  {
    var ph := NextPhysical(step, checksum, file, p);
    EofReports(step, checksum, file, p);
    hide NextPhysical;
    assert S[i] == S[i..][0];
    if !ph.what.Eof? { assert S[i + 1..] == S[i..][1..]; }
  }

  lemma EofReports(step: Crc, checksum: bool, file: Bytes, p: nat)
    requires p <= |file|
    ensures NextPhysical(step, checksum, file, p).what.Eof? ==> NextPhysical(step, checksum, file, p).reports == 0
    decreases |file| - p
  {
    hide Extend, Unmask, DecodeFixed32;
  }

  /** Assemble reports what is out of place. */
  lemma Reported(S: seq<Parsed>, i: nat, scratch: Option<Bytes>)
    requires i < |S| && StateAt(S, i, scratch)
    ensures Assemble(S[i].what, scratch).reports == if OutOfPlace(S, i) then 1 else 0
  {
    if scratch.Some? {
      var h: nat :| OpenFrom(S, h, i) && scratch.value == Payload(S, h, i);
      forall g: nat | OpenFrom(S, g, i) ensures g == h { OneOpen(S, h, g, i); }
    }
    hide OpenFrom, Payload;
  }

  lemma Ended(S: seq<Parsed>, i: nat, scratch: Option<Bytes>)
    requires |S| == i + 1 && S[i].what.Eof? && StateAt(S, i, scratch)
    ensures Comes(S, i, scratch, [])
  {
    NoRun(S, i);
    assert Collected(S, i + 1) == [];
    if scratch.Some? {
      var h: nat :| OpenFrom(S, h, i) && scratch.value == Payload(S, h, i);
      NeverClosed(S, h, i);
    }
  }

  /** Nothing is open after an element that neither begins a record nor continues one. */
  lemma NothingOpen(S: seq<Parsed>, i: nat)
    requires i < |S| && !IsKind(S, i, 2) && (IsKind(S, i, 3) ==> forall h: nat :: !OpenFrom(S, h, i))
    ensures forall h: nat, n: nat :: n == i + 1 ==> !OpenFrom(S, h, n)
  {
    var n := i + 1;
    forall h: nat ensures !OpenFrom(S, h, n) {
      if OpenFrom(S, h, n) {
        assert h < i ==> IsKind(S, i, 3) && OpenFrom(S, h, i);
      }
    }
  }

  lemma Completed(S: seq<Parsed>, i: nat, scratch: Option<Bytes>, record: Bytes)
    requires i < |S| && StateAt(S, i, scratch) && Assemble(S[i].what, scratch).Done?
    requires Assemble(S[i].what, scratch).record == Some(record)
    ensures StateAt(S, i + 1, None)
    ensures forall rest :: Comes(S, i + 1, None, rest) ==> Comes(S, i, scratch, [record] + rest)
  {
    NothingOpen(S, i);
    if IsKind(S, i, 1) {
      assert RunAt(S, i, i + 1) && Payload(S, i, i) == [] && Payload(S, i, i + 1) == record;
      OneRun(S, i, i + 1);
      if scratch.Some? {
        var h: nat :| OpenFrom(S, h, i) && scratch.value == Payload(S, h, i);
        NeverClosed(S, h, i);
      }
    } else {
      var h: nat :| OpenFrom(S, h, i) && scratch.value == Payload(S, h, i);
      assert RunAt(S, h, i + 1);
      OneRun(S, h, i + 1);
      SkipOpen(S, h, i);
      NoRun(S, i);
    }
  }

  lemma Continued(S: seq<Parsed>, i: nat, scratch: Option<Bytes>, more: Option<Bytes>)
    requires i < |S| && StateAt(S, i, scratch) && Assemble(S[i].what, scratch).GoOn?
    requires Assemble(S[i].what, scratch).scratch == more
    ensures StateAt(S, i + 1, more)
  {
    if IsKind(S, i, 2) {
      assert OpenFrom(S, i, i + 1) && Payload(S, i, i) == [];
    } else if IsKind(S, i, 3) && scratch.Some? {
      var h: nat :| OpenFrom(S, h, i) && scratch.value == Payload(S, h, i);
      assert OpenFrom(S, h, i + 1);
    } else {
      NothingOpen(S, i);
    }
  }

  lemma StillComes(S: seq<Parsed>, i: nat, scratch: Option<Bytes>, more: Option<Bytes>, records: seq<Bytes>)
    requires i < |S| && StateAt(S, i, scratch) && Assemble(S[i].what, scratch).GoOn?
    requires Assemble(S[i].what, scratch).scratch == more && Comes(S, i + 1, more, records)
    ensures Comes(S, i, scratch, records)
  {
    if IsKind(S, i, 3) && scratch.Some? {
      var h: nat :| OpenFrom(S, h, i + 1) && records == Collected(S, h);
      assert h < i ==> OpenFrom(S, h, i);
      var atI := IsKind(S, i, 2);
    } else {
      if IsKind(S, i, 2) {
        var h: nat :| OpenFrom(S, h, i + 1) && records == Collected(S, h);
        OneOpen(S, h, i, i + 1);
      } else {
        NoRun(S, i);
      }
      if scratch.Some? {
        var h: nat :| OpenFrom(S, h, i) && scratch.value == Payload(S, h, i);
        NeverClosed(S, h, i);
      }
    }
  }

  /** For every file: the records returned are exactly the runs of fragments in it, in order, a full one or a first one
      with those that continue it up to a last one; and the corruptions reported are those of the physical records and
      one for everything that is out of place. */
  lemma ReadsExactlyTheRuns(step: Crc, checksum: bool, file: Bytes)
    ensures var S := Stream(step, checksum, file, 0);
      ReadAll(step, checksum, file, 0) == (Collected(S, 0), Faults(S, 0))
  {
    var S := Stream(step, checksum, file, 0);
    assert S[0..] == S;
    ReadsRuns(step, checksum, file, 0, None, S, 0);
  }
}
