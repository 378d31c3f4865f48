/** Write batches as bytes, and what replaying a log of them gives (db/write_batch.cc, db/db_impl.cc). */
module Batch {
  import opened Keys
  import opened Coding
  import opened Bytewise
  import opened GroupCommit
  import Log

  datatype ByteOp = PutOp(key: Bytes, value: Bytes) | DeleteOp(key: Bytes)

  const TYPE_DELETION: Byte := 0
  const TYPE_VALUE: Byte := 1
  const BATCH_HEADER := 12

  predicate OpOk(op: ByteOp)
  {
    SliceOk(op.key) && (op.PutOp? ==> SliceOk(op.value))
  }

  // ---------- the format ----------

  function Fixed64(v: nat): (b: Bytes)
    requires v < LIMIT64
    ensures |b| == 8
  {
    Fixed32(v % LIMIT) + Fixed32(v / LIMIT)
  }

  function DecodeFixed64(b: Bytes): nat
    requires |b| >= 8
  {
    DecodeFixed32(b) + LIMIT * DecodeFixed32(b[4..])
  }

  lemma Fixed64RoundTrip(v: nat, tail: Bytes)
    requires v < LIMIT64
    ensures DecodeFixed64(Fixed64(v) + tail) == v
  {
    var low, high := Fixed32(v % LIMIT), Fixed32(v / LIMIT);
    assert Fixed64(v) + tail == low + (high + tail) && (Fixed64(v) + tail)[4..] == high + tail;
    Fixed32RoundTrip(v % LIMIT, high + tail);
    Fixed32RoundTrip(v / LIMIT, tail);
    hide Fixed32, DecodeFixed32;
  }

  /** WriteBatch::Put and Delete append this to the representation. */
  function EncodeOp(op: ByteOp): (b: Bytes)
    ensures |b| > 0
  {
    match op
    case PutOp(key, value) => [TYPE_VALUE] + (PutSlice(key) + PutSlice(value))
    case DeleteOp(key) => [TYPE_DELETION] + PutSlice(key)
  }

  function EncodeOps(ops: seq<ByteOp>): Bytes
  {
    if ops == [] then [] else EncodeOp(ops[0]) + EncodeOps(ops[1..])
  }

  datatype ByteRecord = ByteRecord(first: nat, ops: seq<ByteOp>)

  predicate RecordOk(r: ByteRecord)
  {
    r.first < LIMIT64 && |r.ops| < LIMIT && forall i :: 0 <= i < |r.ops| ==> OpOk(r.ops[i])
  }

  /** The sequence numbers of a batch stay below the limit of the format. */
  predicate NumbersFit(r: ByteRecord)
  {
    r.ops != [] && r.first + |r.ops| <= LIMIT64
  }

  /** A batch: its first sequence number, how many operations, and the operations. */
  function EncodeBatch(r: ByteRecord): (b: Bytes)
    requires RecordOk(r)
    ensures |b| >= BATCH_HEADER
  {
    Fixed64(r.first) + Fixed32(|r.ops|) + EncodeOps(r.ops)
  }

  /** The number whose bytes these are, low ones first. */
  function Number(s: seq<Byte>): nat
  {
    if s == [] then 0
    else
      var low: int := s[0];
      low + 256 * Number(s[1..])
  }

  lemma NumberOfFour(s: seq<Byte>)
    requires |s| == 4
    ensures Number(s) < LIMIT && Fixed32(Number(s)) == s
  {
    var a: int, b: int, c: int, d: int := s[0], s[1], s[2], s[3];
    assert s[1..][1..] == s[2..] && s[2..][1..] == s[3..] && s[3..][1..] == [];
    assert Number(s[3..]) == d && Number(s[2..]) == c + 256 * d && Number(s[1..]) == b + 256 * (c + 256 * d);
    Fixed32Bytes(s[0], s[1], s[2], s[3]);
    hide Fixed32;
    assert s == [s[0], s[1], s[2], s[3]];
  }

  lemma {:induction false} NumberSplits(s: seq<Byte>, t: seq<Byte>)
    requires |s| == 4
    ensures Number(s + t) == Number(s) + LIMIT * Number(t)
  {
    var st := s + t;
    assert st[1..] == s[1..] + t && st[1..][1..] == s[2..] + t && (s[2..] + t)[1..] == s[3..] + t
           && (s[3..] + t)[1..] == t;
    assert s[1..][1..] == s[2..] && s[2..][1..] == s[3..] && s[3..][1..] == [];
    assert Number(s[3..] + t) == Number(s[3..]) + 256 * Number(t);
    assert Number(s[2..] + t) == Number(s[2..]) + 65536 * Number(t);
    assert Number(s[1..] + t) == Number(s[1..]) + 16777216 * Number(t);
  }

  /** The bytes of a batch: eight of its sequence number, four of the count, low ones first, then the operations. */
  lemma BatchBytes(s: seq<Byte>, n: seq<Byte>, ops: seq<ByteOp>)
    requires |s| == 8 && |n| == 4 && Number(n) == |ops|
    ensures Number(s) < LIMIT64
    ensures RecordOk(ByteRecord(Number(s), ops)) ==> EncodeBatch(ByteRecord(Number(s), ops)) == s + n + EncodeOps(ops)
  {
    assert s == s[..4] + s[4..];
    NumberSplits(s[..4], s[4..]);
    NumberOfFour(s[..4]);
    NumberOfFour(s[4..]);
    NumberOfFour(n);
    hide Fixed32, EncodeOps, RecordOk, Number;
    assert Number(s) % LIMIT == Number(s[..4]) && Number(s) / LIMIT == Number(s[4..]);
  }

  /** The bytes of an operation. */
  lemma OpBytes(key: Bytes, value: Bytes)
    ensures EncodeOp(PutOp(key, value)) == [1] + (PutSlice(key) + PutSlice(value))
    ensures EncodeOp(DeleteOp(key)) == [0] + PutSlice(key)
    ensures |key| < 128 ==> PutSlice(key) == [|key|] + key
  {}

  // ---------- reading ----------

  /** One operation from the front of the input. */
  function GetOp(input: Bytes): (r: Option<(ByteOp, Bytes)>)
    requires input != []
    ensures r.Some? ==> |r.value.1| < |input|
  {
    var rest := input[1..];
    if input[0] == TYPE_VALUE then
      var key := GetSlice(rest);
      if key.None? then None
      else
        var value := GetSlice(key.value.1);
        if value.None? then None else Some((PutOp(key.value.0, value.value.0), value.value.1))
    else if input[0] == TYPE_DELETION then
      var key := GetSlice(rest);
      if key.None? then None else Some((DeleteOp(key.value.0), key.value.1))
    else None
  }

  /** The operations up to the first malformed one, and whether there was none. */
  function GetOps(input: Bytes): (seq<ByteOp>, bool)
    decreases |input|
  {
    if input == [] then ([], true)
    else
      var op := GetOp(input);
      if op.None? then ([], false)
      else
        var rest := GetOps(op.value.1);
        ([op.value.0] + rest.0, rest.1)
  }

  /** What Iterate hands to its handler, also when it then reports an error. */
  function Handed(rep: Bytes): seq<ByteOp>
  {
    if |rep| < BATCH_HEADER then [] else GetOps(rep[BATCH_HEADER..]).0
  }

  /** Iterate succeeds: no malformed operation, and as many as the header counts. */
  predicate WellFormed(rep: Bytes)
  {
    && |rep| >= BATCH_HEADER
    && var ops := GetOps(rep[BATCH_HEADER..]);
    ops.1 && |ops.0| == DecodeFixed32(rep[8..])
  }

  /** WriteBatch::Iterate. */
  method Iterate(rep: Bytes) returns (ops: seq<ByteOp>, ok: bool)
    ensures ops == Handed(rep) && ok == WellFormed(rep)
  {
    hide GetOp, DecodeFixed32;
    ops, ok := [], |rep| >= BATCH_HEADER;
    if !ok {
      return;
    }
    var input := rep[BATCH_HEADER..];
    ghost var all := GetOps(input);
    while input != []
      invariant all.0 == ops + GetOps(input).0 && all.1 == GetOps(input).1
      decreases |input|
    {
      var op := GetOp(input);
      if op.None? {
        ok := false;
        return;
      }
      ops := ops + [op.value.0];
      input := op.value.1;
    }
    ok := |ops| == DecodeFixed32(rep[8..]);
  }

  lemma OpBack(op: ByteOp, tail: Bytes)
    requires OpOk(op)
    ensures GetOp(EncodeOp(op) + tail) == Some((op, tail))
  {
    hide PutSlice, GetSlice, SliceOk;
    var input := EncodeOp(op) + tail;
    match op {
      case PutOp(key, value) =>
        assert input[1..] == PutSlice(key) + (PutSlice(value) + tail);
        SliceBack(key, PutSlice(value) + tail);
        SliceBack(value, tail);
      case DeleteOp(key) =>
        assert input[1..] == PutSlice(key) + tail;
        SliceBack(key, tail);
    }
  }

  lemma {:induction false} OpsBack(ops: seq<ByteOp>)
    requires forall i :: 0 <= i < |ops| ==> OpOk(ops[i])
    ensures GetOps(EncodeOps(ops)) == (ops, true)
  {
    hide EncodeOp, GetOp;
    if ops != [] {
      OpBack(ops[0], EncodeOps(ops[1..]));
      OpsBack(ops[1..]);
      assert ops == [ops[0]] + ops[1..];
    }
  }

  lemma BatchParts(r: ByteRecord)
    requires RecordOk(r)
    ensures var rep, ops := EncodeBatch(r), EncodeOps(r.ops);
            && rep == Fixed64(r.first) + (Fixed32(|r.ops|) + ops)
            && rep[8..] == Fixed32(|r.ops|) + ops && rep[BATCH_HEADER..] == ops
  {
    hide Fixed64, Fixed32, EncodeOps;
    var rep, ops := EncodeBatch(r), EncodeOps(r.ops);
    assert rep == Fixed64(r.first) + (Fixed32(|r.ops|) + ops);
    assert rep[8..] == Fixed32(|r.ops|) + ops;
  }

  /** Every batch reads back. */
  lemma BatchRoundTrip(r: ByteRecord)
    requires RecordOk(r)
    ensures var rep := EncodeBatch(r);
            WellFormed(rep) && Handed(rep) == r.ops && DecodeFixed64(rep) == r.first
            && DecodeFixed32(rep[8..]) == |r.ops|
  {
    hide EncodeBatch, Fixed64, Fixed32, DecodeFixed64, DecodeFixed32, EncodeOps, GetOps;
    var ops := EncodeOps(r.ops);
    BatchParts(r);
    OpsBack(r.ops);
    Fixed64RoundTrip(r.first, Fixed32(|r.ops|) + ops);
    Fixed32RoundTrip(|r.ops|, ops);
  }

  /** WriteBatchInternal::Append: contents joined, counts added. */
  lemma {:induction false} AppendJoins(a: seq<ByteOp>, b: seq<ByteOp>)
    ensures EncodeOps(a + b) == EncodeOps(a) + EncodeOps(b)
  {
    hide EncodeOp;
    if a == [] {
      assert a + b == b;
    } else {
      AppendJoins(a[1..], b);
      assert (a + b)[1..] == a[1..] + b && (a + b)[0] == a[0];
    }
  }

  // ---------- replaying a log ----------

  function OpOf(op: ByteOp): Op
  {
    match op
    case PutOp(key, value) => Put(Rank(key), Text(value))
    case DeleteOp(key) => Delete(Rank(key))
  }

  /** The record of the state machine that a batch stands for. */
  function RecordOf(r: ByteRecord): Record
  {
    Record(r.first, seq(|r.ops|, i requires 0 <= i < |r.ops| => OpOf(r.ops[i])))
  }

  function RecordsOf(rs: seq<ByteRecord>): (r: seq<Record>)
    ensures |r| == |rs|
  {
    seq(|rs|, i requires 0 <= i < |rs| => RecordOf(rs[i]))
  }

  function Encodings(rs: seq<ByteRecord>): (b: seq<Bytes>)
    requires forall i :: 0 <= i < |rs| ==> RecordOk(rs[i])
    ensures |b| == |rs|
  {
    seq(|rs|, i requires 0 <= i < |rs| => EncodeBatch(rs[i]))
  }

  /** What a log record adds to the memtable. */
  function Contribution(rep: Bytes): seq<Entry>
  {
    if |rep| < BATCH_HEADER then [] else Stamp(RecordOf(ByteRecord(DecodeFixed64(rep), Handed(rep))))
  }

  function Contributions(records: seq<Bytes>): seq<Entry>
  {
    if records == [] then [] else Contributions(records[..|records| - 1]) + Contribution(records[|records| - 1])
  }

  /** The last sequence number that the header of a record claims, in 64-bit arithmetic. */
  function LastOf(rep: Bytes): nat
  {
    if |rep| < BATCH_HEADER then 0
    else (DecodeFixed64(rep) + DecodeFixed32(rep[8..]) + LIMIT64 - 1) % LIMIT64
  }

  function MaxOf(records: seq<Bytes>): nat
  {
    if records == [] then 0
    else
      var before, last := MaxOf(records[..|records| - 1]), LastOf(records[|records| - 1]);
      if last > before then last else before
  }

  lemma More(records: seq<Bytes>, rep: Bytes)
    ensures Contributions(records + [rep]) == Contributions(records) + Contribution(rep)
    ensures MaxOf(records + [rep]) == if LastOf(rep) > MaxOf(records) then LastOf(rep) else MaxOf(records)
  {
    hide Contribution, LastOf;
    assert (records + [rep])[..|records|] == records;
  }

  ghost predicate Clean(read: (seq<Bytes>, nat))
  {
    read.1 == 0 && forall i :: 0 <= i < |read.0| ==> WellFormed(read.0[i])
  }

  /** One turn of the loop of RecoverLogFile: SetContents, InsertInto and the sequence number. */
  method ReplayRecord(rep: Bytes, mem: seq<Entry>, last: nat) returns (good: bool, after: seq<Entry>, newLast: nat)
    ensures good == WellFormed(rep)
    ensures after == mem + Contribution(rep) && newLast == if LastOf(rep) > last then LastOf(rep) else last
  {
    hide GetOps, Stamp, RecordOf, DecodeFixed64, DecodeFixed32;
    good, after, newLast := false, mem, last;
    if |rep| < BATCH_HEADER {
      return;
    }
    var ops;
    ops, good := Iterate(rep);
    after := InsertInto(RecordOf(ByteRecord(DecodeFixed64(rep), ops)), mem);
    if LastOf(rep) > last {
      newLast := LastOf(rep);
    }
  }

  /** A batch is well-formed exactly when its count is that of its operations, which are handed out in any case. */
  lemma CountMatters(s: seq<Byte>, n: seq<Byte>, ops: seq<ByteOp>)
    requires |s| == 8 && |n| == 4 && forall op :: op in ops ==> OpOk(op)
    ensures WellFormed(s + n + EncodeOps(ops)) <==> Number(n) == |ops|
    ensures Handed(s + n + EncodeOps(ops)) == ops
  {
    hide EncodeOps, GetOps, Fixed32, DecodeFixed32, Number, OpOk;
    OpsBack(ops);
    CountRead(s, n, EncodeOps(ops));
  }

  lemma CountRead(s: seq<Byte>, n: seq<Byte>, ops: Bytes)
    requires |s| == 8 && |n| == 4
    ensures var rep := s + n + ops; rep[BATCH_HEADER..] == ops && DecodeFixed32(rep[8..]) == Number(n)
  {
    var rep := s + n + ops;
    assert rep[8..] == n + ops;
    NumberOfFour(n);
    hide Fixed32, DecodeFixed32, Number;
    Fixed32RoundTrip(Number(n), ops);
  }

  /** What operation i of a batch becomes in the memtable. */
  lemma EntryOfOp(r: ByteRecord, i: nat)
    requires i < |r.ops|
    ensures Stamp(RecordOf(r))[i] ==
            match r.ops[i]
            case PutOp(key, value) => Entry(InternalKey(Rank(key), r.first + i, Value), Text(value))
            case DeleteOp(key) => Entry(InternalKey(Rank(key), r.first + i, Deletion), "")
  {
    hide Rank, Text;
  }

  /** The entries of the memtables that were written out, in order. */
  function Joined(tables: seq<seq<Entry>>): seq<Entry>
  {
    if tables == [] then [] else Joined(tables[..|tables| - 1]) + tables[|tables| - 1]
  }

  lemma JoinedMore(tables: seq<seq<Entry>>, mem: seq<Entry>)
    ensures Joined(tables + [mem]) == Joined(tables) + mem
  {}

  function Held(mem: Option<seq<Entry>>): seq<Entry>
  {
    if mem.Some? then mem.value else []
  }

  function Kept(tables: seq<seq<Entry>>, mem: Option<seq<Entry>>): seq<Entry>
  {
    Joined(tables) + Held(mem)
  }

  ghost predicate NotFull(records: seq<Bytes>, full: seq<Entry> -> bool, a: nat, j: nat)
    requires a < j <= |records|
  {
    |records[j - 1]| >= 12 ==> !full(Contributions(records[a..j]))
  }

  /** Records a up to b fill one memtable: no earlier one of them that is long enough to be a batch has filled it. */
  ghost predicate Filled(records: seq<Bytes>, full: seq<Entry> -> bool, t: seq<Entry>, a: nat, b: nat)
  {
    && a < b <= |records| && t == Contributions(records[a..b])
    && forall j: nat :: a < j < b ==> NotFull(records, full, a, j)
  }

  /** Some record from a on is long enough to be a batch. */
  ghost predicate SomeBatch(records: seq<Bytes>, a: nat, b: nat)
  {
    exists j: nat :: a <= j < b <= |records| && |records[j]| >= 12
  }

  /** Each table was written as soon as it was full. */
  ghost predicate WrittenFull(records: seq<Bytes>, full: seq<Entry> -> bool, tables: seq<seq<Entry>>, cuts: seq<nat>)
  {
    && |cuts| == |tables| + 1 && cuts[0] == 0
    && forall i: nat :: i < |tables| ==> FullAt(records, full, tables, cuts, i)
  }

  ghost predicate FullAt(records: seq<Bytes>, full: seq<Entry> -> bool, tables: seq<seq<Entry>>, cuts: seq<nat>, i: nat)
    requires i < |tables| == |cuts| - 1
  {
    var b := cuts[i + 1];
    Filled(records, full, tables[i], cuts[i], b) && |records[b - 1]| >= 12 && full(tables[i])
  }

  /** The open memtable holds what has been read since the last one was written, and has not been full. */
  ghost predicate OpenSince(records: seq<Bytes>, full: seq<Entry> -> bool, mem: Option<seq<Entry>>, c: nat)
  {
    && c <= |records| && Held(mem) == Contributions(records[c..]) && (mem.Some? <==> SomeBatch(records, c, |records|))
    && forall j: nat :: c < j <= |records| ==> NotFull(records, full, c, j)
  }

  ghost predicate MemTables(records: seq<Bytes>, full: seq<Entry> -> bool, tables: seq<seq<Entry>>,
                            mem: Option<seq<Entry>>, cuts: seq<nat>)
  {
    WrittenFull(records, full, tables, cuts) && OpenSince(records, full, mem, cuts[|tables|])
  }

  /** The memtables that recovery writes out: one whenever it becomes full, and at the end the one that holds the
      rest, unless no batch is left. */
  ghost predicate WrittenOut(records: seq<Bytes>, full: seq<Entry> -> bool, tables: seq<seq<Entry>>, cuts: seq<nat>)
  {
    && |cuts| == |tables| + 1 && cuts[0] == 0
    && (forall i: nat :: i < |tables| - 1 ==> FullAt(records, full, tables, cuts, i))
    && (tables != [] ==>
          var n := |tables| - 1;
          Filled(records, full, tables[n], cuts[n], cuts[n + 1]) && SomeBatch(records, cuts[n], cuts[n + 1]))
    && forall j: nat :: cuts[|tables|] <= j < |records| ==> |records[j]| < 12
  }

  lemma LastWritten(records: seq<Bytes>, full: seq<Entry> -> bool, tables: seq<seq<Entry>>, mem: Option<seq<Entry>>,
                    cuts: seq<nat>)
    requires MemTables(records, full, tables, mem, cuts)
    ensures var all := if mem.Some? then tables + [mem.value] else tables;
      WrittenOut(records, full, all, if mem.Some? then cuts + [|records|] else cuts)
  {
    hide Contributions;
    var c := cuts[|tables|];
    if mem.Some? {
      assert records[c..|records|] == records[c..];
      var all, ends := tables + [mem.value], cuts + [|records|];
      forall i: nat | i < |tables| ensures FullAt(records, full, all, ends, i) {
        assert FullAt(records, full, tables, cuts, i);
      }
    } else {
      NoBatch(records, c);
      if tables != [] { assert FullAt(records, full, tables, cuts, |tables| - 1); }
    }
  }

  lemma NoBatch(records: seq<Bytes>, c: nat)
    requires !SomeBatch(records, c, |records|)
    ensures forall j: nat :: c <= j < |records| ==> |records[j]| < 12
  {}

  lemma NothingRead(full: seq<Entry> -> bool)
    ensures MemTables([], full, [], None, [0])
  {}

  lemma StillFull(records: seq<Bytes>, rep: Bytes, full: seq<Entry> -> bool, tables: seq<seq<Entry>>, cuts: seq<nat>)
    requires WrittenFull(records, full, tables, cuts)
    ensures WrittenFull(records + [rep], full, tables, cuts)
  {
    hide Contributions;
    forall i: nat | i < |tables| ensures FullAt(records + [rep], full, tables, cuts, i) {
      assert FullAt(records, full, tables, cuts, i);
      var a, b := cuts[i], cuts[i + 1];
      assert (records + [rep])[a..b] == records[a..b];
      forall j: nat | a < j < b ensures NotFull(records + [rep], full, a, j) {
        assert NotFull(records, full, a, j) && (records + [rep])[a..j] == records[a..j];
      }
    }
  }

  lemma OpenMore(records: seq<Bytes>, rep: Bytes, full: seq<Entry> -> bool, mem: Option<seq<Entry>>, c: nat)
    requires OpenSince(records, full, mem, c)
    ensures var all, after := records + [rep], Held(mem) + Contribution(rep);
      && Filled(all, full, after, c, |all|)
      && (|rep| >= 12 ==> SomeBatch(all, c, |all|) && (!full(after) ==> OpenSince(all, full, Some(after), c)))
      && (|rep| < 12 ==> OpenSince(all, full, mem, c))
  {
    hide Contributions, Contribution, SomeBatch, NotFull;
    AllMore(records, rep, full, c, Held(mem));
    BatchMore(records, rep, c);
    if |rep| < 12 { ShortGivesNothing(rep); }
  }

  lemma AllMore(records: seq<Bytes>, rep: Bytes, full: seq<Entry> -> bool, c: nat, held: seq<Entry>)
    requires c <= |records| && held == Contributions(records[c..])
    requires forall j: nat :: c < j <= |records| ==> NotFull(records, full, c, j)
    ensures var all, after := records + [rep], held + Contribution(rep);
      && after == Contributions(all[c..]) && all[c..|all|] == all[c..]
      && (forall j: nat :: c < j < |all| ==> NotFull(all, full, c, j))
      && (|rep| < 12 || !full(after) ==> NotFull(all, full, c, |all|))
  {
    hide Contribution, Contributions;
    var all := records + [rep];
    More(records[c..], rep);
    assert all[c..] == records[c..] + [rep] && all[c..|all|] == all[c..];
    forall j: nat | c < j < |all| ensures NotFull(all, full, c, j) {
      assert NotFull(records, full, c, j) && all[c..j] == records[c..j];
    }
  }

  lemma BatchMore(records: seq<Bytes>, rep: Bytes, c: nat)
    requires c <= |records|
    ensures SomeBatch(records + [rep], c, |records| + 1) <==> SomeBatch(records, c, |records|) || |rep| >= 12
  {
    var all := records + [rep];
    assert all[|records|] == rep;
    if j: nat :| c <= j < |records| && |records[j]| >= 12 { assert |all[j]| >= 12; }
    if j: nat :| c <= j < |all| && |all[j]| >= 12 { assert j < |records| ==> |records[j]| >= 12; }
  }

  lemma ShortGivesNothing(rep: Bytes)
    requires |rep| < 12
    ensures Contribution(rep) == [] && !WellFormed(rep)
  {}

  lemma OneMoreFull(records: seq<Bytes>, full: seq<Entry> -> bool, tables: seq<seq<Entry>>, cuts: seq<nat>,
                    after: seq<Entry>)
    requires WrittenFull(records, full, tables, cuts)
    requires Filled(records, full, after, cuts[|tables|], |records|) && |records[|records| - 1]| >= 12 && full(after)
    ensures MemTables(records, full, tables + [after], None, cuts + [|records|])
  {
    hide Filled;
    var more, ends := tables + [after], cuts + [|records|];
    forall i: nat | i < |more| ensures FullAt(records, full, more, ends, i) {
      if i < |tables| { assert FullAt(records, full, tables, cuts, i); }
    }
  }

  /** One record goes to the memtable, which is written out when it is full.  A record too short for a batch opens no
      memtable. */
  method ReplayInto(rep: Bytes, paranoid: bool, full: seq<Entry> -> bool, tables: seq<seq<Entry>>,
                    mem: Option<seq<Entry>>, last: nat, ghost records: seq<Bytes>, ghost cuts: seq<nat>)
    returns (good: bool, more: seq<seq<Entry>>, left: Option<seq<Entry>>, newLast: nat, ghost ends: seq<nat>)
    requires MemTables(records, full, tables, mem, cuts)
    ensures good == WellFormed(rep) && newLast == if LastOf(rep) > last then LastOf(rep) else last
    ensures Kept(more, left) == Kept(tables, mem) + Contribution(rep)
    ensures !paranoid || good ==> MemTables(records + [rep], full, more, left, ends)
  {
    hide WellFormed, Contribution, LastOf, Joined, FullAt, OpenSince, Filled;
    OpenMore(records, rep, full, mem, cuts[|tables|]);
    StillFull(records, rep, full, tables, cuts);
    var after;
    good, after, newLast := ReplayRecord(rep, Held(mem), last);
    more, left, ends := tables, mem, cuts;
    assert Joined(tables) + after == Joined(tables) + Held(mem) + Contribution(rep);
    if |rep| < 12 {
      ShortGivesNothing(rep);
      return;
    }
    left := Some(after);
    if !(paranoid && !good) && full(after) {
      JoinedMore(tables, after);
      OneMoreFull(records + [rep], full, tables, cuts, after);
      more, left, ends := tables + [after], None, cuts + [|records + [rep]|];
    }
  }

  /** RecoverLogFile on any file.  With paranoid checks it succeeds exactly when the reader reports nothing and
      every record is a well-formed batch; without them always.  When it succeeds the memtables it writes to tables,
      one whenever `full` says so and one at the end, hold together what every record contributes, in order. */
  method RecoverLogFile(step: Crc, paranoid: bool, full: seq<Entry> -> bool, file: Bytes)
    returns (ok: bool, tables: seq<seq<Entry>>, last: nat)
    ensures ok <==> !paranoid || Clean(Log.ReadAll(step, true, file, 0))
    ensures ok ==> Joined(tables) == Contributions(Log.ReadAll(step, true, file, 0).0)
    ensures ok ==> last == MaxOf(Log.ReadAll(step, true, file, 0).0)
    ensures ok ==> exists cuts :: WrittenOut(Log.ReadAll(step, true, file, 0).0, full, tables, cuts)
  {
    hide Log.NextRecord, Log.ReadAll, Log.Reader.Loaded, Clean, Resumes, AllWell, Contribution, LastOf, Contributions,
         MaxOf, Joined, Kept, MemTables, WrittenOut, WellFormed;
    var reader := new Log.Reader(step, true, file);
    ghost var all := Log.ReadAll(step, true, file, 0);
    ghost var done: seq<Bytes> := [];
    NoneYet();
    ghost var cuts := [0];
    NothingRead(full);
    NoneWell(all);
    ok, tables, last := true, [], 0;
    var mem: Option<seq<Entry>> := None;
    var more := true;
    while more
      invariant reader.Valid() && fresh(reader) && reader.file == file && reader.step == step && reader.checksum
      invariant Kept(tables, mem) == Contributions(done) && last == MaxOf(done)
      invariant ok ==> MemTables(done, full, tables, mem, cuts)
      invariant ok && paranoid ==> reader.reports == 0 && AllWell(done)
      invariant !ok ==> paranoid && !more && !Clean(all)
      invariant if more
                then Resumes(all, done, reader.reports, Log.ReadAll(step, true, file, reader.Position()))
                else ok ==> all == (done, reader.reports)
      decreases more, |file| - reader.Position()
    {
      ReadMore(step, file, reader.Position(), all, done, reader.reports);
      var r := reader.ReadRecord();
      ok := !paranoid || reader.reports == 0;
      more := r.Some? && ok;
      if more {
        More(done, r.value);
        WellMore(all, done, r.value, reader.reports, Log.ReadAll(step, true, file, reader.Position()));
        var good;
        good, tables, mem, last, cuts := ReplayInto(r.value, paranoid, full, tables, mem, last, done, cuts);
        done := done + [r.value];
        if paranoid && !good {
          ok, more := false, false;
        }
      }
    }
    if ok && paranoid { CleanEnd(done); }
    if ok {
      LastWritten(done, full, tables, mem, cuts);
      KeptIs(tables, mem);
      if mem.Some? {
        tables := tables + [mem.value];
      }
    }
  }

  ghost predicate AllWell(records: seq<Bytes>)
  {
    forall i :: 0 <= i < |records| ==> WellFormed(records[i])
  }

  /** One more record is read, or the end is reached. */
  lemma ReadMore(step: Crc, file: Bytes, p: nat, all: (seq<Bytes>, nat), done: seq<Bytes>, reports: nat)
    requires p <= |file| && Resumes(all, done, reports, Log.ReadAll(step, true, file, p))
    ensures var r := Log.NextRecord(step, true, file, p, None);
      && (r.record.Some? ==> Resumes(all, done + [r.record.value], reports + r.reports,
                                     Log.ReadAll(step, true, file, p + r.used)))
      && (r.record.None? ==> all == (done, reports + r.reports))
      && (reports + r.reports > 0 ==> !Clean(all))
  {
    hide Log.NextRecord, WellFormed;
    assert done + [] == done;
  }

  lemma WellMore(all: (seq<Bytes>, nat), done: seq<Bytes>, rep: Bytes, reports: nat, rest: (seq<Bytes>, nat))
    requires Resumes(all, done + [rep], reports, rest)
    ensures AllWell(done) && WellFormed(rep) ==> AllWell(done + [rep])
    ensures !WellFormed(rep) ==> !Clean(all)
  {
    hide WellFormed;
    assert all.0[|done|] == rep;
  }

  lemma CleanEnd(done: seq<Bytes>)
    requires AllWell(done)
    ensures Clean((done, 0))
  {}

  ghost predicate Resumes(all: (seq<Bytes>, nat), done: seq<Bytes>, reports: nat, rest: (seq<Bytes>, nat))
  {
    all.0 == done + rest.0 && all.1 == reports + rest.1
  }

  lemma KeptIs(tables: seq<seq<Entry>>, mem: Option<seq<Entry>>)
    ensures Joined(if mem.Some? then tables + [mem.value] else tables) == Kept(tables, mem)
  {}

  lemma NoneWell(all: (seq<Bytes>, nat))
    ensures AllWell([]) && Resumes(all, [], 0, all)
  {}

  lemma NoneYet()
    ensures Contributions([]) == [] && MaxOf([]) == 0 && Kept([], None) == []
  {}

  /** The number is the largest of the entries, or 0 when there are none. */
  ghost predicate IsLast(entries: seq<Entry>, last: nat)
  {
    && (forall e <- entries :: e.key.sequence <= last)
    && (if entries == [] then last == 0 else exists e <- entries :: e.key.sequence == last)
  }

  lemma LastOfBoth(a: seq<Entry>, b: seq<Entry>, x: nat, y: nat)
    requires IsLast(a, x) && b != [] && IsLast(b, y)
    ensures IsLast(a + b, if y > x then y else x)
  {
    if y > x || a == [] {
      var e :| e in b && e.key.sequence == y;
      assert e in a + b;
    } else {
      var e :| e in a && e.key.sequence == x;
      assert e in a + b;
    }
  }

  /** The batches of a clean log contribute what the state machine replays, and the recovered last sequence is the
      largest number of a recovered entry. */
  lemma {:induction false} EncodedContribute(rs: seq<ByteRecord>)
    requires forall i :: 0 <= i < |rs| ==> RecordOk(rs[i])
    ensures Contributions(Encodings(rs)) == Replay(RecordsOf(rs))
    ensures (forall i :: 0 <= i < |rs| ==> NumbersFit(rs[i])) ==>
            IsLast(Replay(RecordsOf(rs)), MaxOf(Encodings(rs)))
  {
    hide Encodings, RecordsOf, EncodeBatch, Contribution, LastOf, Contributions, MaxOf, Replay, Stamp, RecordOf, IsLast;
    if rs == [] {
      NoneEncoded();
    } else {
      var n := |rs| - 1;
      EncodedContribute(rs[..n]);
      LastEncoded(rs);
      More(Encodings(rs[..n]), EncodeBatch(rs[n]));
      ReplayMore(RecordsOf(rs[..n]), RecordOf(rs[n]));
      OneContributes(rs[n]);
      if forall i :: 0 <= i < |rs| ==> NumbersFit(rs[i]) {
        LastOfBoth(Replay(RecordsOf(rs[..n])), Stamp(RecordOf(rs[n])), MaxOf(Encodings(rs[..n])),
                   LastOf(EncodeBatch(rs[n])));
      }
    }
  }

  lemma NoneEncoded()
    ensures Contributions(Encodings([])) == [] && Replay(RecordsOf([])) == [] && IsLast([], MaxOf(Encodings([])))
  {}

  lemma LastEncoded(rs: seq<ByteRecord>)
    requires rs != [] && forall i :: 0 <= i < |rs| ==> RecordOk(rs[i])
    ensures var n := |rs| - 1;
            && Encodings(rs) == Encodings(rs[..n]) + [EncodeBatch(rs[n])]
            && RecordsOf(rs) == RecordsOf(rs[..n]) + [RecordOf(rs[n])]
  {
    hide EncodeBatch, RecordOf;
  }

  lemma OneContributes(r: ByteRecord)
    requires RecordOk(r)
    ensures Contribution(EncodeBatch(r)) == Stamp(RecordOf(r))
    ensures NumbersFit(r) ==> Stamp(RecordOf(r)) != [] && IsLast(Stamp(RecordOf(r)), LastOf(EncodeBatch(r)))
  {
    hide EncodeBatch, DecodeFixed32, DecodeFixed64, GetOps, OpOf, Handed, WellFormed;
    BatchRoundTrip(r);
    if NumbersFit(r) {
      var entries := Stamp(RecordOf(r));
      var e := entries[|r.ops| - 1];
      assert e in entries && e.key.sequence == LastOf(EncodeBatch(r));
    }
  }

  /** The number that the batches claim last, also where some of them are empty. */
  ghost predicate IsClaimed(rs: seq<ByteRecord>, last: nat)
  {
    && (forall i :: 0 <= i < |rs| ==> rs[i].first + |rs[i].ops| <= last + 1)
    && (last == 0 || exists i :: 0 <= i < |rs| && rs[i].first + |rs[i].ops| == last + 1)
  }

  predicate ClaimFits(r: ByteRecord)
  {
    0 < r.first + |r.ops| <= LIMIT64
  }

  lemma ClaimOf(r: ByteRecord)
    requires RecordOk(r) && ClaimFits(r)
    ensures LastOf(EncodeBatch(r)) == r.first + |r.ops| - 1
  {
    hide EncodeBatch, DecodeFixed32, DecodeFixed64, GetOps, OpOf, Handed, WellFormed;
    BatchRoundTrip(r);
  }

  lemma {:induction false} HighestClaim(rs: seq<ByteRecord>)
    requires forall i :: 0 <= i < |rs| ==> RecordOk(rs[i]) && ClaimFits(rs[i])
    ensures IsClaimed(rs, MaxOf(Encodings(rs)))
  {
    hide Encodings, EncodeBatch, LastOf, MaxOf, RecordOk, ClaimFits, Contributions, Contribution;
    if rs == [] {
      NoneEncoded();
    } else {
      var n := |rs| - 1;
      var before := rs[..n];
      HighestClaim(before);
      LastEncoded(rs);
      ClaimOf(rs[n]);
      More(Encodings(before), EncodeBatch(rs[n]));
      var last := MaxOf(Encodings(before));
      if i :| 0 <= i < n && before[i].first + |before[i].ops| == last + 1 { assert rs[i] == before[i]; }
      assert forall i :: 0 <= i < n ==> rs[i] == before[i];
    }
  }

  lemma EncodedRecover(rs: seq<ByteRecord>, m: nat)
    requires m <= |rs| && forall i :: 0 <= i < |rs| ==> RecordOk(rs[i])
    ensures var encoded := Encodings(rs[..m]);
      && Contributions(encoded) == Replay(RecordsOf(rs[..m]))
      && ((forall i :: 0 <= i < m ==> NumbersFit(rs[i])) ==> IsLast(Replay(RecordsOf(rs[..m])), MaxOf(encoded)))
      && ((forall i :: 0 <= i < m ==> ClaimFits(rs[i])) ==> IsClaimed(rs[..m], MaxOf(encoded)))
  {
    hide *;
    EncodedContribute(rs[..m]);
    if forall i :: 0 <= i < m ==> ClaimFits(rs[i]) { HighestClaim(rs[..m]); }
  }

  /** A log of batches cut at any byte: recovery succeeds, paranoid or not, and the tables it writes hold exactly the
      entries of the batches wholly before the cut, in order. */
  method RecoverCutLog(step: Crc, paranoid: bool, full: seq<Entry> -> bool, file: Bytes, ghost rs: seq<ByteRecord>)
    returns (ok: bool, tables: seq<seq<Entry>>, last: nat)
    requires forall i :: 0 <= i < |rs| ==> RecordOk(rs[i])
    requires file <= Log.Records(step, 0, Encodings(rs))
    ensures var m := Log.Whole(step, 0, Encodings(rs), |file|);
      && ok && m <= |rs| && Joined(tables) == Replay(RecordsOf(rs[..m]))
      && ((forall i :: 0 <= i < m ==> NumbersFit(rs[i])) ==> IsLast(Joined(tables), last))
      && ((forall i :: 0 <= i < m ==> ClaimFits(rs[i])) ==> IsClaimed(rs[..m], last))
      && exists cuts :: WrittenOut(Encodings(rs[..m]), full, tables, cuts)
  {
    ghost var m := Log.Whole(step, 0, Encodings(rs), |file|);
    CutLogReads(step, file, rs);
    hide *;
    ok, tables, last := RecoverLogFile(step, paranoid, full, file);
    EncodedRecover(rs, m);
  }

  lemma CutLogReads(step: Crc, file: Bytes, rs: seq<ByteRecord>)
    requires forall i :: 0 <= i < |rs| ==> RecordOk(rs[i])
    requires file <= Log.Records(step, 0, Encodings(rs))
    ensures var m := Log.Whole(step, 0, Encodings(rs), |file|);
      && m <= |rs| && Log.ReadAll(step, true, file, 0) == (Encodings(rs[..m]), 0)
      && Clean((Encodings(rs[..m]), 0))
  {
    hide Log.Records, Log.ReadAll, Log.Whole, EncodeBatch, WellFormed;
    var encoded := Encodings(rs);
    var m := Log.Whole(step, 0, encoded, |file|);
    assert Log.Records(step, 0, encoded)[..|file|] == file;
    Log.CrashTruncation(step, true, encoded, |file|);
    assert encoded[..m] == Encodings(rs[..m]);
    forall i | 0 <= i < m ensures WellFormed(Encodings(rs[..m])[i]) {
      BatchRoundTrip(rs[i]);
    }
  }
}
