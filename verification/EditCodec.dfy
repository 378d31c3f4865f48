/** The bytes of a version edit: one manifest record (db/version_edit.cc). */
module EditCodec {
  import opened Keys
  import opened Coding
  import Files

  datatype FileMeta = FileMeta(number: nat, size: nat, smallest: Bytes, largest: Bytes)

  datatype Edit = Edit(comparator: Option<Bytes>, logNumber: Option<nat>, prevLogNumber: Option<nat>,
                       nextFile: Option<nat>,
                       lastSequence: Option<nat>, pointers: seq<(nat, Bytes)>, deleted: set<(nat, nat)>,
                           added: seq<(nat, FileMeta)>)

  datatype Field =
    | Comparator(name: Bytes) | LogNumber(n: nat) | NextFile(n: nat) | LastSequence(n: nat)
    | Pointer(level: nat, key: Bytes) | Deleted(level: nat, n: nat) | NewFile(level: nat, file: FileMeta)
        | PrevLogNumber(n: nat)

  predicate FieldOk(f: Field)
  {
    match f
    case Comparator(name) => SliceOk(name)
    case Pointer(level, key) => level < Files.NUM_LEVELS && SliceOk(key)
    case Deleted(level, n) => level < Files.NUM_LEVELS && n < LIMIT64
    case NewFile(level, m) => level < Files.NUM_LEVELS && m.number < LIMIT64 && m.size < LIMIT64
        && SliceOk(m.smallest) && SliceOk(m.largest)
    case _ => f.n < LIMIT64
  }

  // ---------- encoding ----------

  function FileBytes(m: FileMeta): Bytes
  {
    Varint(m.number) + (Varint(m.size) + (PutSlice(m.smallest) + PutSlice(m.largest)))
  }

  function TagOf(f: Field): nat
  {
    match f
    case Comparator(_) => 1
    case LogNumber(_) => 2
    case NextFile(_) => 3
    case LastSequence(_) => 4
    case Pointer(_, _) => 5
    case Deleted(_, _) => 6
    case NewFile(_, _) => 7
    case PrevLogNumber(_) => 9
  }

  function Body(f: Field): Bytes
  {
    match f
    case Comparator(name) => PutSlice(name)
    case Pointer(level, key) => Varint(level) + PutSlice(key)
    case Deleted(level, n) => Varint(level) + Varint(n)
    case NewFile(level, m) => Varint(level) + FileBytes(m)
    case _ => Varint(f.n)
  }

  function EncodeField(f: Field): (b: Bytes)
    ensures |b| > 0
  {
    Varint(TagOf(f)) + Body(f)
  }

  function EncodeFields(fields: seq<Field>): Bytes
  {
    if fields == [] then [] else EncodeFields(fields[..|fields| - 1]) + EncodeField(fields[|fields| - 1])
  }

  /** The bytes of every field, tag first. */
  lemma FieldBytes(name: Bytes, n: nat, level: nat, key: Bytes)
    ensures EncodeField(Comparator(name)) == [1] + PutSlice(name)
    ensures EncodeField(LogNumber(n)) == [2] + Varint(n) && EncodeField(PrevLogNumber(n)) == [9] + Varint(n)
    ensures EncodeField(NextFile(n)) == [3] + Varint(n) && EncodeField(LastSequence(n)) == [4] + Varint(n)
    ensures EncodeField(Pointer(level, key)) == [5] + (Varint(level) + PutSlice(key))
    ensures EncodeField(Deleted(level, n)) == [6] + (Varint(level) + Varint(n))
  {
    forall tag: nat | tag < 128 ensures Varint(tag) == [tag] {}
    hide Varint, PutSlice;
  }

  lemma FileFieldBytes(level: nat, m: FileMeta)
    ensures EncodeField(NewFile(level, m)) ==
              [7] + (Varint(level) + (Varint(m.number) + (Varint(m.size) +
                  (PutSlice(m.smallest) + PutSlice(m.largest)))))
  {
    assert Varint(7) == [7];
    hide Varint, PutSlice;
  }

  /** Where a field stands in a record. */
  function Turn(f: Field): nat
  {
    match f
    case Comparator(_) => 0
    case LogNumber(_) => 1
    case PrevLogNumber(_) => 2
    case NextFile(_) => 3
    case LastSequence(_) => 4
    case Pointer(_, _) => 5
    case Deleted(_, _) => 6
    case NewFile(_, _) => 7
  }

  /** The fields come in the order of a record, none after turn t. */
  ghost predicate InTurn(fields: seq<Field>, t: nat)
  {
    && (forall i :: 0 <= i < |fields| ==> Turn(fields[i]) <= t)
    && (forall i, j :: 0 <= i < j < |fields| ==> Turn(fields[i]) <= Turn(fields[j]))
  }

  lemma TurnMore(fields: seq<Field>, s: nat, f: Field)
    requires InTurn(fields, s) && s <= Turn(f)
    ensures InTurn(fields + [f], Turn(f))
  {}

  lemma TurnLater(fields: seq<Field>, s: nat, t: nat)
    requires InTurn(fields, s) && s <= t
    ensures InTurn(fields, t)
  {}

  // ---------- decoding ----------

  function GetLevel(b: Bytes): (r: Option<(nat, Bytes)>)
    ensures r.Some? ==> |r.value.1| < |b|
  {
    var n := Get32(b);
    if n.None? || n.value.0 >= Files.NUM_LEVELS then None else n
  }

  function Map<T, U>(o: Option<(T, Bytes)>, f: T -> U): Option<(U, Bytes)>
  {
    if o.None? then None else Some((f(o.value.0), o.value.1))
  }

  function GetFile(b: Bytes): (r: Option<(FileMeta, Bytes)>)
    ensures r.Some? ==> |r.value.1| < |b|
  {
    var number := Get64(b);
    if number.None? then None else
    var size := Get64(number.value.1);
    if size.None? then None else
    var smallest := GetSlice(size.value.1);
    if smallest.None? then None else
    Map(GetSlice(smallest.value.1), (largest: Bytes) =>
        FileMeta(number.value.0, size.value.0, smallest.value.0, largest))
  }

  /** The rest of a field, after its tag. */
  function GetField(tag: nat, b: Bytes): (r: Option<(Field, Bytes)>)
    ensures r.Some? ==> |r.value.1| < |b|
  {
    if tag == 1 then Map(GetSlice(b), (c: Bytes) => Comparator(c))
    else if tag == 2 then Map(Get64(b), (n: nat) => LogNumber(n))
    else if tag == 9 then Map(Get64(b), (n: nat) => PrevLogNumber(n))
    else if tag == 3 then Map(Get64(b), (n: nat) => NextFile(n))
    else if tag == 4 then Map(Get64(b), (n: nat) => LastSequence(n))
    else if tag == 5 || tag == 6 || tag == 7 then
      var level := GetLevel(b);
      if level.None? then None
      else if tag == 5 then Map(GetSlice(level.value.1), (k: Bytes) => Pointer(level.value.0, k))
      else if tag == 6 then Map(Get64(level.value.1), (n: nat) => Deleted(level.value.0, n))
      else Map(GetFile(level.value.1), (m: FileMeta) => NewFile(level.value.0, m))
    else None
  }

  /** What DecodeFrom reads: the fields, or nothing for a malformed record. */
  function ParseAll(b: Bytes): Option<seq<Field>>
    decreases |b|
  {
    var tag := Get32(b);
    if tag.None? then (if b == [] then Some([]) else None)
    else
      var f := GetField(tag.value.0, tag.value.1);
      if f.None? then None
      else
        var rest := ParseAll(f.value.1);
        if rest.None? then None else Some([f.value.0] + rest.value)
  }

  // ---------- round trip ----------

  lemma FileBack(m: FileMeta, tail: Bytes)
    requires m.number < LIMIT64 && m.size < LIMIT64 && SliceOk(m.smallest) && SliceOk(m.largest)
    ensures GetFile(FileBytes(m) + tail) == Some((m, tail))
  {
    hide Varint, PutSlice, Get64, GetSlice;
    var l3 := PutSlice(m.largest) + tail;
    var l2 := PutSlice(m.smallest) + l3;
    var l1 := Varint(m.size) + l2;
    assert FileBytes(m) + tail == Varint(m.number) + l1;
    Get64Back(m.number, l1);
    Get64Back(m.size, l2);
    SliceBack(m.smallest, l3);
    SliceBack(m.largest, tail);
  }

  lemma FieldBack(f: Field, tail: Bytes)
    requires FieldOk(f)
    ensures var tag := Get32(EncodeField(f) + tail); tag.Some? && GetField(tag.value.0, tag.value.1) == Some((f, tail))
  {
    hide Varint, PutSlice, Get32, Get64, GetSlice, GetFile;
    var body := Body(f);
    assert EncodeField(f) + tail == Varint(TagOf(f)) + (body + tail);
    Get32Back(TagOf(f), body + tail);
    match f {
      case Comparator(name) => SliceBack(name, tail);
      case Pointer(level, key) =>
        assert body + tail == Varint(level) + (PutSlice(key) + tail);
        Get32Back(level, PutSlice(key) + tail);
        SliceBack(key, tail);
      case Deleted(level, n) =>
        assert body + tail == Varint(level) + (Varint(n) + tail);
        Get32Back(level, Varint(n) + tail);
        Get64Back(n, tail);
      case NewFile(level, m) =>
        assert body + tail == Varint(level) + (FileBytes(m) + tail);
        Get32Back(level, FileBytes(m) + tail);
        FileBack(m, tail);
      case _ => Get64Back(f.n, tail);
    }
  }

  lemma {:induction false} FieldsFront(f: Field, rest: seq<Field>)
    ensures EncodeFields([f] + rest) == EncodeField(f) + EncodeFields(rest)
  {
    hide EncodeField;
    var all := [f] + rest;
    if rest == [] {
      assert all[..0] == [] && EncodeFields([]) == [] && all[0] == f;
    } else {
      var n := |rest| - 1;
      FieldsFront(f, rest[..n]);
      assert all[..|all| - 1] == [f] + rest[..n] && all[|all| - 1] == rest[n];
      assert EncodeFields(all) == EncodeFields([f] + rest[..n]) + EncodeField(rest[n]);
    }
  }

  /** Decoding reads back exactly the fields that were encoded. */
  lemma {:induction false} FieldsBack(fields: seq<Field>)
    requires forall i :: 0 <= i < |fields| ==> FieldOk(fields[i])
    ensures ParseAll(EncodeFields(fields)) == Some(fields)
  {
    if fields == [] {
    } else {
      var f, rest := fields[0], fields[1..];
      assert fields == [f] + rest;
      FieldsFront(f, rest);
      FieldBack(f, EncodeFields(rest));
      FieldsBack(rest);
      hide EncodeField, EncodeFields, Get32, GetField;
    }
  }

  // ---------- edits ----------

  function Apply(e: Edit, f: Field): Edit
  {
    match f
    case Comparator(name) => e.(comparator := Some(name))
    case LogNumber(n) => e.(logNumber := Some(n))
    case NextFile(n) => e.(nextFile := Some(n))
    case LastSequence(n) => e.(lastSequence := Some(n))
    case Pointer(level, key) => e.(pointers := e.pointers + [(level, key)])
    case Deleted(level, n) => e.(deleted := e.deleted + {(level, n)})
    case NewFile(level, m) => e.(added := e.added + [(level, m)])
    case PrevLogNumber(n) => e.(prevLogNumber := Some(n))
  }

  function ApplyAll(e: Edit, fields: seq<Field>): Edit
    decreases |fields|
  {
    if fields == [] then e else ApplyAll(Apply(e, fields[0]), fields[1..])
  }

  /** Clear leaves the compaction pointers. */
  function Cleared(e: Edit): Edit
  {
    Edit(None, None, None, None, None, e.pointers, {}, [])
  }

  /** DecodeFrom, on an edit that may have been used before. */
  method DecodeFrom(before: Edit, src: Bytes) returns (ok: bool, after: Edit)
    ensures ok <==> ParseAll(src).Some?
    ensures ok ==> after == ApplyAll(Cleared(before), ParseAll(src).value)
  {
    after := Cleared(before);
    var input := src;
    while Get32(input).Some?
      invariant ParseAll(src).Some? <==> ParseAll(input).Some?
      invariant ParseAll(src).Some? ==>
                  ApplyAll(Cleared(before), ParseAll(src).value) == ApplyAll(after, ParseAll(input).value)
      decreases |input|
    {
      var tag := Get32(input).value;
      var f := GetField(tag.0, tag.1);
      if f.None? {
        return false, after;
      }
      ApplyFirst(after, f.value.0, input, f.value.1);
      hide Get32, GetField;
      after := Apply(after, f.value.0);
      input := f.value.1;
    }
    ok := input == [];
  }

  lemma ApplyFirst(e: Edit, f: Field, input: Bytes, rest: Bytes)
    requires Get32(input).Some? && GetField(Get32(input).value.0, Get32(input).value.1) == Some((f, rest))
    ensures ParseAll(input).Some? <==> ParseAll(rest).Some?
    ensures ParseAll(input).Some? ==> ApplyAll(e, ParseAll(input).value) == ApplyAll(Apply(e, f), ParseAll(rest).value)
  {}

  lemma {:induction false} ApplyTwice(e: Edit, a: seq<Field>, b: seq<Field>)
    ensures ApplyAll(e, a + b) == ApplyAll(ApplyAll(e, a), b)
    decreases |a|
  {
    hide Apply;
    if a == [] {
      assert a + b == b;
    } else {
      ApplyTwice(Apply(e, a[0]), a[1..], b);
      assert (a + b)[1..] == a[1..] + b;
    }
  }

  lemma ApplyOne(e: Edit, a: seq<Field>, f: Field)
    ensures ApplyAll(e, a + [f]) == Apply(ApplyAll(e, a), f)
  {
    ApplyTwice(e, a, [f]);
    assert [f][1..] == [];
  }

  /** All fields of an edit, the deleted files in some order. */
  ghost predicate Describes(fields: seq<Field>, e: Edit)
  {
    && (forall i :: 0 <= i < |fields| ==> FieldOk(fields[i]))
    && forall before: Edit :: Rebuilds(fields, e, before)
  }

  ghost predicate EditOk(e: Edit)
  {
    && (e.comparator.Some? ==> FieldOk(Comparator(e.comparator.value)))
        && (e.logNumber.Some? ==> e.logNumber.value < LIMIT64)
    && (e.prevLogNumber.Some? ==> e.prevLogNumber.value < LIMIT64) && (e.nextFile.Some? ==> e.nextFile.value < LIMIT64)
    && (e.lastSequence.Some? ==> e.lastSequence.value < LIMIT64)
    && (forall i :: 0 <= i < |e.pointers| ==> FieldOk(Pointer(e.pointers[i].0, e.pointers[i].1)))
    && (forall p :: p in e.deleted ==> FieldOk(Deleted(p.0, p.1)))
    && (forall i :: 0 <= i < |e.added| ==> FieldOk(NewFile(e.added[i].0, e.added[i].1)))
  }

  lemma PointersKept(e: Edit, f: Field, before: seq<(nat, Bytes)>)
    ensures Apply(e.(pointers := before + e.pointers), f) == Apply(e, f).(pointers := before + Apply(e, f).pointers)
  {}

  ghost predicate Rebuilds(fields: seq<Field>, e: Edit, before: Edit)
  {
    ApplyAll(Cleared(before), fields) == e.(pointers := before.pointers + e.pointers)
  }

  lemma RebuildsMore(fields: seq<Field>, e: Edit, f: Field, before: Edit)
    requires Rebuilds(fields, e, before)
    ensures Rebuilds(fields + [f], Apply(e, f), before)
  {
    hide Apply, ApplyAll, Cleared;
    ApplyOne(Cleared(before), fields, f);
    PointersKept(e, f, before.pointers);
  }

  /** Appending one field describes the edit with that field. */
  lemma DescribesMore(fields: seq<Field>, e: Edit, f: Field)
    requires Describes(fields, e) && FieldOk(f)
    ensures Describes(fields + [f], Apply(e, f)) && EncodeFields(fields + [f]) == EncodeFields(fields) + EncodeField(f)
  {
    hide EncodeField, Apply, Rebuilds, FieldOk;
    assert (fields + [f])[..|fields|] == fields;
    forall before: Edit ensures Rebuilds(fields + [f], Apply(e, f), before) { RebuildsMore(fields, e, f, before); }
  }

  const EMPTY := Edit(None, None, None, None, None, [], {}, [])

  lemma NothingPut()
    ensures Describes([], EMPTY) && InTurn([], 0) && EncodeFields([]) == []
  {}

  method PutScalars(e: Edit) returns (b: Bytes, ghost fields: seq<Field>)
    requires EditOk(e)
    ensures Describes(fields, e.(pointers := [], deleted := {}, added := [])) && b == EncodeFields(fields)
    ensures InTurn(fields, 4)
  {
    hide Describes, EncodeField, EncodeFields, InTurn;
    b, fields := [], [];
    ghost var done := EMPTY;
    NothingPut();
    if e.comparator.Some? { b, fields, done := PutField(b, fields, done, Comparator(e.comparator.value), 0); }
    TurnLater(fields, 0, 1);
    if e.logNumber.Some? { b, fields, done := PutField(b, fields, done, LogNumber(e.logNumber.value), 1); }
    TurnLater(fields, 1, 2);
    if e.prevLogNumber.Some? { b, fields, done := PutField(b, fields, done, PrevLogNumber(e.prevLogNumber.value), 2); }
    TurnLater(fields, 2, 3);
    if e.nextFile.Some? { b, fields, done := PutField(b, fields, done, NextFile(e.nextFile.value), 3); }
    TurnLater(fields, 3, 4);
    if e.lastSequence.Some? { b, fields, done := PutField(b, fields, done, LastSequence(e.lastSequence.value), 4); }
  }

  method PutField(b: Bytes, ghost fields: seq<Field>, ghost done: Edit, f: Field, ghost t: nat)
      returns (c: Bytes, ghost more: seq<Field>, ghost after: Edit)
    requires Describes(fields, done) && b == EncodeFields(fields) && FieldOk(f)
    requires InTurn(fields, t) && t == Turn(f)
    ensures Describes(more, after) && c == EncodeFields(more) && after == Apply(done, f) && InTurn(more, t)
  {
    TurnMore(fields, t, f);
    DescribesMore(fields, done, f);
    c, more, after := b + EncodeField(f), fields + [f], Apply(done, f);
  }

  method PutPointers(e: Edit, start: Bytes, ghost before: seq<Field>) returns (b: Bytes, ghost fields: seq<Field>)
    requires EditOk(e) && Describes(before, e.(pointers := [], deleted := {}, added := []))
             && start == EncodeFields(before) && InTurn(before, 4)
    ensures Describes(fields, e.(deleted := {}, added := [])) && b == EncodeFields(fields) && InTurn(fields, 5)
  {
    hide Describes, EncodeField, EncodeFields, InTurn, FieldOk, TagOf;
    TurnLater(before, 4, 5);
    b, fields := start, before;
    ghost var done := e.(pointers := [], deleted := {}, added := []);
    for i := 0 to |e.pointers|
      invariant Describes(fields, done) && b == EncodeFields(fields)
                && done == e.(pointers := e.pointers[..i], deleted := {}, added := []) && InTurn(fields, 5)
    {
      b, fields, done := PutField(b, fields, done, Pointer(e.pointers[i].0, e.pointers[i].1), 5);
    }
    assert e.pointers[..|e.pointers|] == e.pointers;
  }

  method PutDeleted(e: Edit, start: Bytes, ghost before: seq<Field>) returns (b: Bytes, ghost fields: seq<Field>)
    requires EditOk(e) && Describes(before, e.(deleted := {}, added := [])) && start == EncodeFields(before)
             && InTurn(before, 5)
    ensures Describes(fields, e.(added := [])) && b == EncodeFields(fields) && InTurn(fields, 6)
  {
    hide Describes, EncodeField, EncodeFields, InTurn, FieldOk, TagOf;
    TurnLater(before, 5, 6);
    b, fields := start, before;
    ghost var done := e.(deleted := {}, added := []);
    var rest := e.deleted;
    while rest != {}
      invariant rest <= e.deleted && Describes(fields, done) && b == EncodeFields(fields)
      invariant done == e.(deleted := e.deleted - rest, added := []) && InTurn(fields, 6)
      decreases |rest|
    {
      var p :| p in rest;
      b, fields, done := PutField(b, fields, done, Deleted(p.0, p.1), 6);
      rest := rest - {p};
    }
    assert e.deleted - rest == e.deleted;
  }

  method PutAdded(e: Edit, start: Bytes, ghost before: seq<Field>) returns (b: Bytes, ghost fields: seq<Field>)
    requires EditOk(e) && Describes(before, e.(added := [])) && start == EncodeFields(before) && InTurn(before, 6)
    ensures Describes(fields, e) && b == EncodeFields(fields) && InTurn(fields, 7)
  {
    hide Describes, EncodeField, EncodeFields, InTurn, FieldOk, TagOf;
    TurnLater(before, 6, 7);
    b, fields := start, before;
    ghost var done := e.(added := []);
    for i := 0 to |e.added|
      invariant Describes(fields, done) && b == EncodeFields(fields) && done == e.(added := e.added[..i])
      invariant InTurn(fields, 7)
    {
      b, fields, done := PutField(b, fields, done, NewFile(e.added[i].0, e.added[i].1), 7);
    }
    assert e.added[..|e.added|] == e.added;
  }

  /** EncodeTo: some list of fields that rebuilds the edit. */
  method EncodeTo(e: Edit) returns (b: Bytes, ghost fields: seq<Field>)
    requires EditOk(e)
    ensures Describes(fields, e) && b == EncodeFields(fields) && InTurn(fields, 7)
  {
    b, fields := PutScalars(e);
    b, fields := PutPointers(e, b, fields);
    b, fields := PutDeleted(e, b, fields);
    b, fields := PutAdded(e, b, fields);
  }

  /** Encoding and decoding gives the edit back, after whatever compaction pointers the target already had. */
  method RoundTrip(before: Edit, e: Edit) returns (ok: bool, after: Edit)
    requires EditOk(e)
    ensures ok && after == e.(pointers := before.pointers + e.pointers)
    ensures after == e <==> before.pointers == []
  {
    ghost var fields;
    var b;
    b, fields := EncodeTo(e);
    FieldsBack(fields);
    assert Rebuilds(fields, e, before);
    ok, after := DecodeFrom(before, b);
    assert before.pointers != [] ==> |after.pointers| > |e.pointers|;
  }
}
