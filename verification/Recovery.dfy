/** The manifest as bytes: the snapshot record, the edit records, and the version a reopened database
    builds from them (db/version_set.cc, db/version_edit.cc, db/log_reader.cc). */
module Recovery {
  import opened Keys
  import opened Files
  import opened Steps
  import opened Coding
  import opened Bytewise
  import opened Manifest
  import EditCodec
  import Log

  type Edit = EditCodec.Edit
  type FileMeta = EditCodec.FileMeta

  // ---------- keys and files ----------

  /** A file number leads to its table. */
  type Tables = nat -> seq<Entry>

  function FileOf(m: FileMeta, tables: Tables): File
  {
    File(m.number, m.size, KeyOf(m.smallest), KeyOf(m.largest), tables(m.number))
  }

  function FileEdit(e: Edit, tables: Tables): VersionEdit
  {
    VersionEdit(e.deleted, seq(|e.added|, i requires 0 <= i < |e.added| =>
        (e.added[i].0, FileOf(e.added[i].1, tables))))
  }

  function FileEdits(edits: seq<Edit>, tables: Tables): (r: seq<VersionEdit>)
    ensures |r| == |edits|
  {
    seq(|edits|, i requires 0 <= i < |edits| => FileEdit(edits[i], tables))
  }

  /** The files of a version as FileMetaData. */
  type Metas = seq<seq<FileMeta>>

  function VersionOf(metas: Metas, tables: Tables): Version
  {
    seq(|metas|, l requires 0 <= l < |metas| =>
      seq(|metas[l]|, i requires 0 <= i < |metas[l]| => FileOf(metas[l][i], tables)))
  }

  const NO_FILES: Version := [[], [], [], [], [], [], []]

  // ---------- the snapshot record ----------

  /** All files below level n, level by level. */
  function AllAdded(metas: Metas, n: nat): seq<(nat, FileMeta)>
    requires n <= |metas|
  {
    if n == 0 then [] else AllAdded(metas, n - 1) + AtLevel(n - 1, metas[n - 1])
  }

  function AtLevel(level: nat, files: seq<FileMeta>): (r: seq<(nat, FileMeta)>)
    ensures |r| == |files|
  {
    seq(|files|, i requires 0 <= i < |files| => (level, files[i]))
  }

  function SnapshotEdit(name: Bytes, pointers: seq<(nat, Bytes)>, metas: Metas): Edit
  {
    EditCodec.Edit(Some(name), None, None, None, None, pointers, {}, AllAdded(metas, |metas|))
  }

  /** The bytes are a record of the edit. */
  ghost predicate Encodes(record: Bytes, e: Edit)
  {
    exists fields :: EditCodec.Describes(fields, e) && record == EditCodec.EncodeFields(fields)
  }

  /** WriteSnapshot: the comparator's name, the compaction pointers that are set, and every file. */
  method WriteSnapshot(name: Bytes, compactPointers: seq<Bytes>, metas: Metas)
      returns (record: Bytes, ghost pointers: seq<(nat, Bytes)>)
    requires |compactPointers| == |metas| == NUM_LEVELS && SliceOk(name)
    requires forall l :: 0 <= l < NUM_LEVELS ==> SliceOk(compactPointers[l])
    requires forall l, i :: 0 <= l < NUM_LEVELS && 0 <= i < |metas[l]| ==>
             EditCodec.FieldOk(EditCodec.NewFile(l, metas[l][i]))
    ensures Encodes(record, SnapshotEdit(name, pointers, metas))
    ensures IsSnapshot(SnapshotEdit(name, pointers, metas), name, pointers, metas)
    ensures forall p :: p in pointers <==> p.0 < NUM_LEVELS && p.1 == compactPointers[p.0] != []
    ensures forall i, j :: 0 <= i < j < |pointers| ==> pointers[i].0 < pointers[j].0
  {
    var marks: seq<(nat, Bytes)>, added := [], [];
    for l := 0 to NUM_LEVELS
      invariant forall p :: p in marks <==> p.0 < l && p.1 == compactPointers[p.0] != []
      invariant forall i :: 0 <= i < |marks| ==> marks[i].0 < l
      invariant forall i, j :: 0 <= i < j < |marks| ==> marks[i].0 < marks[j].0
    {
      if compactPointers[l] != [] {
        marks := marks + [(l, compactPointers[l])];
      }
    }
    pointers := marks;
    for l := 0 to NUM_LEVELS
      invariant added == AllAdded(metas, l)
    {
      var files := metas[l];
      for i := 0 to |files|
        invariant added == AllAdded(metas, l) + AtLevel(l, files)[..i]
      {
        added := added + [(l, files[i])];
      }
    }
    var edit := EditCodec.Edit(Some(name), None, None, None, None, marks, {}, added);
    AllAddedOk(metas, NUM_LEVELS);
    SnapshotIs(name, marks, metas);
    hide IsSnapshot;
    ghost var fields;
    record, fields := EditCodec.EncodeTo(edit);
  }

  lemma {:induction false} AllAddedOk(metas: Metas, n: nat)
    requires n <= |metas| == NUM_LEVELS
    requires forall l, i :: 0 <= l < NUM_LEVELS && 0 <= i < |metas[l]| ==>
             EditCodec.FieldOk(EditCodec.NewFile(l, metas[l][i]))
    ensures forall k :: 0 <= k < |AllAdded(metas, n)| ==>
              EditCodec.FieldOk(EditCodec.NewFile(AllAdded(metas, n)[k].0, AllAdded(metas, n)[k].1))
  {
    if n > 0 { AllAddedOk(metas, n - 1); }
  }

  lemma {:induction false} AllAddedHas(metas: Metas, n: nat, l: nat, m: FileMeta)
    requires n <= |metas|
    ensures (l, m) in AllAdded(metas, n) <==> l < n && m in metas[l]
  {
    if n > 0 {
      AllAddedHas(metas, n - 1, l, m);
      if l == n - 1 && m in metas[l] {
        var i :| 0 <= i < |metas[l]| && metas[l][i] == m;
        assert AtLevel(l, metas[l])[i] == (l, m);
      }
    }
  }

  /** The record gives the comparator and no number, and adds exactly the files of every level. */
  ghost predicate IsSnapshot(e: Edit, name: Bytes, pointers: seq<(nat, Bytes)>, metas: Metas)
  {
    && e.comparator == Some(name) && e.pointers == pointers && e.deleted == {}
    && e.logNumber.None? && e.prevLogNumber.None? && e.nextFile.None? && e.lastSequence.None?
    && forall l: nat, m :: (l, m) in e.added <==> l < |metas| && m in metas[l]
  }

  lemma SnapshotIs(name: Bytes, pointers: seq<(nat, Bytes)>, metas: Metas)
    ensures IsSnapshot(SnapshotEdit(name, pointers, metas), name, pointers, metas)
  {
    var e := SnapshotEdit(name, pointers, metas);
    forall l: nat, m: FileMeta ensures (l, m) in e.added <==> l < |metas| && m in metas[l] {
      AllAddedHas(metas, |metas|, l, m);
    }
  }

  /** Each file number once per level. */
  ghost predicate NumbersOnce(metas: Metas)
  {
    forall l, i, j :: 0 <= l < |metas| && 0 <= i < j < |metas[l]| ==> metas[l][i].number != metas[l][j].number
  }

  lemma {:induction false} AllAddedOnce(metas: Metas, n: nat)
    requires n <= |metas| && NumbersOnce(metas)
    ensures AllDiffer(AllAdded(metas, n))
  {
    if n > 0 {
      AllAddedOnce(metas, n - 1);
      var rest, last := AllAdded(metas, n - 1), AtLevel(n - 1, metas[n - 1]);
      forall i | 0 <= i < |rest| ensures rest[i].0 < n - 1 {
        assert (rest[i].0, rest[i].1) in rest;
        AllAddedHas(metas, n - 1, rest[i].0, rest[i].1);
      }
      assert AllAdded(metas, n) == rest + last;
      hide AllAdded;
      forall i, j | 0 <= i < j < |last| ensures last[i].1.number != last[j].1.number {
        assert metas[n - 1][i].number != metas[n - 1][j].number;
      }
      forall i | 0 <= i < |last| ensures last[i].0 == n - 1 {}
      Joined(rest, last);
    }
  }

  ghost predicate Differ(p: (nat, FileMeta), q: (nat, FileMeta))
  {
    p.0 != q.0 || p.1.number != q.1.number
  }

  ghost predicate AllDiffer(a: seq<(nat, FileMeta)>)
  {
    forall i, j :: 0 <= i < j < |a| ==> Differ(a[i], a[j])
  }

  lemma Joined(a: seq<(nat, FileMeta)>, b: seq<(nat, FileMeta)>)
    requires AllDiffer(a) && AllDiffer(b) && forall p, q :: p in a && q in b ==> Differ(p, q)
    ensures AllDiffer(a + b)
  {
    var c := a + b;
    forall i, j | 0 <= i < j < |c| ensures Differ(c[i], c[j]) {
      if j < |a| {
        assert c[i] == a[i] && c[j] == a[j];
      } else if i < |a| {
        assert c[i] == a[i] && c[j] == b[j - |a|] && a[i] in a && b[j - |a|] in b;
      } else {
        assert c[i] == b[i - |a|] && c[j] == b[j - |a|];
      }
    }
  }

  lemma NoFilesIs()
    ensures Saved(NO_FILES) && |MembersIn(NO_FILES)| == |NumbersIn(NO_FILES)| == NUM_LEVELS
    ensures forall l :: 0 <= l < NUM_LEVELS ==> MembersIn(NO_FILES)[l] == {} && NumbersIn(NO_FILES)[l] == {}
  {
    forall l | 0 <= l < NUM_LEVELS ensures NO_FILES[l] == [] {}
  }

  /** Installing the snapshot's edit on no files at all gives the version it was taken of. */
  lemma SnapshotInstalls(name: Bytes, pointers: seq<(nat, Bytes)>, metas: Metas, tables: Tables)
    requires |metas| == NUM_LEVELS && Saved(VersionOf(metas, tables)) && NumbersOnce(metas)
    ensures var edit := FileEdit(SnapshotEdit(name, pointers, metas), tables);
      Installs(NO_FILES, edit, VersionOf(metas, tables)) && Unused(edit, NumbersIn(NO_FILES))
  {
    var e := SnapshotEdit(name, pointers, metas);
    var edit, v := FileEdit(e, tables), VersionOf(metas, tables);
    NoFilesIs();
    LevelsBelow(metas, tables, e);
    SnapshotUnused(metas, tables, e);
    hide Unused, AllAdded, VersionOf, FileOf, Saved;
    MinusNone(MembersIn(NO_FILES));
    PlusIs(MembersIn(NO_FILES), edit, |edit.added|);
    assert edit.added[..|edit.added|] == edit.added;
    var after := AfterEdit(MembersIn(NO_FILES), edit);
    hide AfterEdit, Plus, Minus, FileEdit;
    forall l | 0 <= l < NUM_LEVELS ensures MembersIn(v)[l] == after[l] {
      forall f ensures f in MembersIn(v)[l] <==> f in after[l] { SnapshotHas(metas, tables, e, l, f); }
    }
    assert |MembersIn(v)| == |after|;
  }

  lemma SnapshotUnused(metas: Metas, tables: Tables, e: Edit)
    requires |metas| == NUM_LEVELS && NumbersOnce(metas) && e.added == AllAdded(metas, NUM_LEVELS) && e.deleted == {}
    ensures Unused(FileEdit(e, tables), NumbersIn(NO_FILES))
  {
    hide AllAdded, NumbersIn, MembersIn, Saved, FileOf;
    NoFilesIs();
    AllAddedOnce(metas, NUM_LEVELS);
    LevelsBelow(metas, tables, e);
    var edit := FileEdit(e, tables);
    forall i, j | 0 <= i < j < |edit.added|
      ensures edit.added[i].0 != edit.added[j].0 || edit.added[i].1.number != edit.added[j].1.number
    {
      assert Differ(e.added[i], e.added[j]);
      NumberStays(e.added[i].1, tables);
      NumberStays(e.added[j].1, tables);
    }
    UnusedFresh(edit, NumbersIn(NO_FILES));
  }

  lemma NumberStays(m: FileMeta, tables: Tables)
    ensures FileOf(m, tables).number == m.number
  {}

  lemma UnusedFresh(edit: VersionEdit, known: seq<set<nat>>)
    requires forall p :: p in edit.added ==> p.0 < |known| && known[p.0] == {}
    requires forall i, j :: 0 <= i < j < |edit.added| ==>
               edit.added[i].0 != edit.added[j].0 || edit.added[i].1.number != edit.added[j].1.number
    ensures Unused(edit, known)
  {
    forall i | 0 <= i < |edit.added| ensures edit.added[i].0 < |known| && known[edit.added[i].0] == {} {
      assert edit.added[i] in edit.added;
    }
  }

  lemma LevelsBelow(metas: Metas, tables: Tables, e: Edit)
    requires |metas| == NUM_LEVELS && e.added == AllAdded(metas, NUM_LEVELS) && e.deleted == {}
    ensures Manifest.EditOk(FileEdit(e, tables))
    ensures forall p :: p in FileEdit(e, tables).added ==> p.0 < NUM_LEVELS
  {
    forall p | p in FileEdit(e, tables).added ensures p.0 < NUM_LEVELS {
      var i :| 0 <= i < |e.added| && FileEdit(e, tables).added[i] == p;
      assert (e.added[i].0, e.added[i].1) in e.added;
      AllAddedHas(metas, NUM_LEVELS, e.added[i].0, e.added[i].1);
    }
  }

  lemma SnapshotHas(metas: Metas, tables: Tables, e: Edit, l: nat, f: File)
    requires |metas| == NUM_LEVELS && l < NUM_LEVELS && e.added == AllAdded(metas, NUM_LEVELS)
    ensures f in MembersIn(VersionOf(metas, tables))[l] <==> (l, f) in FileEdit(e, tables).added
  {
    hide AllAdded, FileOf;
    if f in VersionOf(metas, tables)[l] {
      var i :| 0 <= i < |metas[l]| && VersionOf(metas, tables)[l][i] == f;
      AllAddedHas(metas, NUM_LEVELS, l, metas[l][i]);
      AddedAs(e, tables, l, metas[l][i]);
    }
    if (l, f) in FileEdit(e, tables).added {
      var m := ComesFrom(e, tables, l, f);
      AllAddedHas(metas, NUM_LEVELS, l, m);
      var i :| 0 <= i < |metas[l]| && metas[l][i] == m;
      assert VersionOf(metas, tables)[l][i] == f;
    }
  }

  lemma AddedAs(e: Edit, tables: Tables, l: nat, m: FileMeta)
    requires (l, m) in e.added
    ensures (l, FileOf(m, tables)) in FileEdit(e, tables).added
  {
    var k :| 0 <= k < |e.added| && e.added[k] == (l, m);
    assert FileEdit(e, tables).added[k] == (l, FileOf(m, tables));
  }

  lemma ComesFrom(e: Edit, tables: Tables, l: nat, f: File) returns (m: FileMeta)
    requires (l, f) in FileEdit(e, tables).added
    ensures (l, m) in e.added && FileOf(m, tables) == f
  {
    var k :| 0 <= k < |e.added| && FileEdit(e, tables).added[k] == (l, f);
    m := e.added[k].1;
    assert e.added[k] == (l, m);
  }

  // ---------- recovering ----------

  /** What a record decodes to, in a fresh edit. */
  function Decoded(record: Bytes): Option<Edit>
  {
    var fields := EditCodec.ParseAll(record);
    if fields.None? then None else Some(EditCodec.ApplyAll(EditCodec.EMPTY, fields.value))
  }

  lemma EncodedDecodes(record: Bytes, e: Edit)
    requires Encodes(record, e)
    ensures Decoded(record) == Some(e)
  {
    var fields :| EditCodec.Describes(fields, e) && record == EditCodec.EncodeFields(fields);
    EditCodec.FieldsBack(fields);
    assert EditCodec.Rebuilds(fields, e, EditCodec.EMPTY);
    assert [] + e.pointers == e.pointers;
  }

  /** The numbers a manifest carries along; the last record that has one decides. */
  datatype Counters = Counters(log: Option<nat>, prevLog: Option<nat>, nextFile: Option<nat>, lastSequence: Option<nat>)

  function Latest(before: Option<nat>, after: Option<nat>): Option<nat>
  {
    if after.Some? then after else before
  }

  function CountersAfter(edits: seq<Edit>): Counters
  {
    if edits == [] then Counters(None, None, None, None)
    else CountersWith(CountersAfter(edits[..|edits| - 1]), edits[|edits| - 1])
  }

  function CountersWith(c: Counters, e: Edit): Counters
  {
    Counters(Latest(c.log, e.logNumber), Latest(c.prevLog, e.prevLogNumber),
             Latest(c.nextFile, e.nextFile), Latest(c.lastSequence, e.lastSequence))
  }

  /** The number that the last edit to give one has given. */
  ghost predicate LastGiven(edits: seq<Edit>, given: Edit -> Option<nat>, r: Option<nat>)
  {
    && (r.None? <==> forall i :: 0 <= i < |edits| ==> given(edits[i]).None?)
    && forall n: nat :: r == Some(n) <==>
         exists i :: 0 <= i < |edits| && given(edits[i]) == Some(n)
                     && forall j :: i < j < |edits| ==> given(edits[j]).None?
  }

  ghost predicate Carries(edits: seq<Edit>, c: Counters)
  {
    && LastGiven(edits, (e: Edit) => e.logNumber, c.log) && LastGiven(edits, (e: Edit) => e.prevLogNumber, c.prevLog)
    && LastGiven(edits, (e: Edit) => e.nextFile, c.nextFile)
    && LastGiven(edits, (e: Edit) => e.lastSequence, c.lastSequence)
  }

  lemma GivenMore(edits: seq<Edit>, e: Edit, given: Edit -> Option<nat>, before: Option<nat>)
    requires LastGiven(edits, given, before)
    ensures LastGiven(edits + [e], given, Latest(before, given(e)))
  {
    var more, after := edits + [e], Latest(before, given(e));
    forall n: nat ensures after == Some(n) <==>
        exists i :: 0 <= i < |more| && given(more[i]) == Some(n) && forall j :: i < j < |more| ==> given(more[j]).None?
    {
      if given(e).Some? {
        assert given(more[|edits|]) == given(e);
      } else if after == Some(n) {
        var i :| 0 <= i < |edits| && given(edits[i]) == Some(n) && forall j :: i < j < |edits| ==>
            given(edits[j]).None?;
        assert given(more[i]) == Some(n);
      } else {
        assert forall j :: 0 <= j < |edits| ==> given(edits[j]) == given(more[j]);
      }
    }
    assert after.None? <==> forall i :: 0 <= i < |more| ==> given(more[i]).None? by {
      assert forall i :: 0 <= i < |edits| ==> more[i] == edits[i];
      assert more[|edits|] == e;
    }
  }

  /** Each number of the manifest is the one given last. */
  lemma {:induction false} CountersCarry(edits: seq<Edit>)
    ensures Carries(edits, CountersAfter(edits))
  {
    if edits != [] {
      var n := |edits| - 1;
      CountersCarry(edits[..n]);
      var c, e := CountersAfter(edits[..n]), edits[n];
      assert edits == edits[..n] + [e];
      hide LastGiven, Latest;
      GivenMore(edits[..n], e, (e: Edit) => e.logNumber, c.log);
      GivenMore(edits[..n], e, (e: Edit) => e.prevLogNumber, c.prevLog);
      GivenMore(edits[..n], e, (e: Edit) => e.nextFile, c.nextFile);
      GivenMore(edits[..n], e, (e: Edit) => e.lastSequence, c.lastSequence);
    }
  }

  /** The numbers without which a database cannot be opened are given. */
  ghost predicate NumbersGiven(edits: seq<Edit>)
  {
    && (exists e <- edits :: e.nextFile.Some?) && (exists e <- edits :: e.logNumber.Some?)
    && (exists e <- edits :: e.lastSequence.Some?)
  }

  lemma CompleteMeans(edits: seq<Edit>)
    ensures Complete(CountersAfter(edits)) <==> NumbersGiven(edits)
  {
    hide CountersAfter, LastGiven;
    CountersCarry(edits);
    var c := CountersAfter(edits);
    Somewhere(edits, (e: Edit) => e.nextFile, c.nextFile);
    Somewhere(edits, (e: Edit) => e.logNumber, c.log);
    Somewhere(edits, (e: Edit) => e.lastSequence, c.lastSequence);
  }

  lemma Somewhere(edits: seq<Edit>, given: Edit -> Option<nat>, r: Option<nat>)
    requires LastGiven(edits, given, r)
    ensures r.Some? <==> exists e <- edits :: given(e).Some?
  {
    if r.Some? {
      var i :| 0 <= i < |edits| && given(edits[i]).Some?;
      assert edits[i] in edits;
    }
  }

  predicate SameComparator(e: Edit, name: Bytes)
  {
    e.comparator.None? || e.comparator.value == name
  }

  /** The records decode to these edits, up to the first that does not decode. */
  ghost predicate DecodeTo(records: seq<Bytes>, edits: seq<Edit>)
  {
    && |edits| <= |records| && (forall i :: 0 <= i < |edits| ==> Decoded(records[i]) == Some(edits[i]))
    && (|edits| < |records| ==> Decoded(records[|edits|]).None?)
  }

  predicate Complete(c: Counters)
  {
    c.nextFile.Some? && c.log.Some? && c.lastSequence.Some?
  }

  /** The reading half of VersionSet::Recover: each record goes into a fresh edit, until one is malformed or names
      another comparator. */
  method DecodeRecords(records: seq<Bytes>, name: Bytes, ghost edits: seq<Edit>)
      returns (ok: bool, found: seq<Edit>, c: Counters)
    requires DecodeTo(records, edits)
    ensures ok <==> |edits| == |records| && forall i :: 0 <= i < |edits| ==> SameComparator(edits[i], name)
    ensures ok ==> found == edits && c == CountersAfter(edits)
  {
    found, c := [], Counters(None, None, None, None);
    hide EditCodec.ParseAll, EditCodec.ApplyAll;
    for n := 0 to |records|
      invariant n <= |edits| && found == edits[..n] && c == CountersAfter(found)
      invariant forall i :: 0 <= i < n ==> SameComparator(edits[i], name)
    {
      var good, e := EditCodec.DecodeFrom(EditCodec.EMPTY, records[n]);
      if !good || !SameComparator(e, name) {
        return false, found, c;
      }
      assert (found + [e])[..n] == found;
      found := found + [e];
      c := CountersWith(c, e);
    }
    ok := true;
  }

  /** VersionSet::Recover: all edits go into one builder over no files.  It fails on a malformed record, on another
      comparator and on missing numbers; otherwise it yields the version that installing the edits one by one
      reaches, and the latest numbers. */
  method RecoverRecords(records: seq<Bytes>, name: Bytes, tables: Tables, ghost edits: seq<Edit>,
                        ghost versions: seq<Version>)
    returns (r: Option<(Version, Counters)>)
    requires DecodeTo(records, edits) && AddedOnce(NumbersIn(NO_FILES), FileEdits(edits, tables))
    requires History(versions, FileEdits(edits, tables)) && versions[0] == NO_FILES
    ensures r.Some? <==>
              && |edits| == |records| && NumbersGiven(edits)
              && forall i :: 0 <= i < |edits| && edits[i].comparator.Some? ==> edits[i].comparator.value == name
    ensures r.Some? ==> r.value == (versions[|edits|], CountersAfter(edits)) && Carries(edits, r.value.1)
  {
    CompleteMeans(edits);
    CountersCarry(edits);
    NoFilesIs();
    hide NumbersGiven, Carries;
    hide AddedOnce, History, Saved, NumbersIn;
    var ok, found, c := DecodeRecords(records, name, edits);
    if !ok || !Complete(c) {
      return None;
    }
    var v := Recover(NO_FILES, FileEdits(found, tables), versions);
    return Some((v, c));
  }

  // ---------- the manifest file ----------

  /** The edits of a manifest: its snapshot, then the edits installed later. */
  function Whole(name: Bytes, pointers: seq<(nat, Bytes)>, metas: Metas, edits: seq<Edit>): seq<Edit>
  {
    [SnapshotEdit(name, pointers, metas)] + edits
  }

  ghost predicate AllEncode(records: seq<Bytes>, edits: seq<Edit>)
  {
    |records| == |edits| && forall i :: 0 <= i < |records| ==> Encodes(records[i], edits[i])
  }

  /** The manifest file: WriteSnapshot's record, then one record for each LogAndApply. */
  method WriteManifest(step: Crc, name: Bytes, compactPointers: seq<Bytes>, metas: Metas, edits: seq<Edit>)
    returns (file: Bytes, ghost pointers: seq<(nat, Bytes)>, ghost records: seq<Bytes>)
    requires |compactPointers| == |metas| == NUM_LEVELS && SliceOk(name)
    requires forall l :: 0 <= l < NUM_LEVELS ==> SliceOk(compactPointers[l])
    requires forall l, i :: 0 <= l < NUM_LEVELS && 0 <= i < |metas[l]| ==>
             EditCodec.FieldOk(EditCodec.NewFile(l, metas[l][i]))
    requires forall i :: 0 <= i < |edits| ==> EditCodec.EditOk(edits[i])
    ensures AllEncode(records, Whole(name, pointers, metas, edits)) && file == Log.Records(step, 0, records)
  {
    hide Encodes, EditCodec.EditOk, EditCodec.FieldOk, SliceOk, Log.Records, SnapshotEdit;
    var first;
    first, pointers := WriteSnapshot(name, compactPointers, metas);
    var later := EncodeEdits(edits);
    records := [first] + later;
    file := Log.WriteAll(step, [first] + later);
  }

  method EncodeEdits(edits: seq<Edit>) returns (records: seq<Bytes>)
    requires forall i :: 0 <= i < |edits| ==> EditCodec.EditOk(edits[i])
    ensures AllEncode(records, edits)
  {
    hide EditCodec.EditOk, EditCodec.Describes, EditCodec.EncodeFields;
    records := [];
    for i := 0 to |edits|
      invariant |records| == i && forall k :: 0 <= k < i ==> Encodes(records[k], edits[k])
    {
      var record;
      ghost var fields;
      record, fields := EditCodec.EncodeTo(edits[i]);
      records := records + [record];
    }
  }

  /** Reopening a database: the manifest, written by WriteSnapshot and later LogAndApply calls and cut at any
      byte, is read and recovered.  The result is the version that the last wholly written edit had installed. */
  method Reopen(step: Crc, name: Bytes, tables: Tables, file: Bytes,
                ghost pointers: seq<(nat, Bytes)>, ghost metas: Metas, ghost edits: seq<Edit>,
                ghost records: seq<Bytes>, ghost versions: seq<Version>)
    returns (r: Option<(Version, Counters)>)
    requires |metas| == NUM_LEVELS && Saved(VersionOf(metas, tables)) && NumbersOnce(metas)
    requires AllEncode(records, Whole(name, pointers, metas, edits))
    requires file <= Log.Records(step, 0, records)
    requires AddedOnce(NumbersIn(NO_FILES), FileEdits(Whole(name, pointers, metas, edits), tables))
    requires History(versions, FileEdits(edits, tables)) && versions[0] == VersionOf(metas, tables)
    requires forall i :: 0 <= i < |edits| ==> SameComparator(edits[i], name)
    ensures var m := Log.Whole(step, 0, records, |file|);
      && r == Reached(Whole(name, pointers, metas, edits), versions, m)
      && (r.Some? <==> NumbersGiven(Whole(name, pointers, metas, edits)[..m]))
      && (r.Some? ==> m > 0 && r.value.0 == versions[m - 1]
                      && Carries(Whole(name, pointers, metas, edits)[..m], r.value.1))
  {
    hide *;
    var found, _ := Log.ReadFile(step, true, file);
    ghost var all, m := Whole(name, pointers, metas, edits), Log.Whole(step, 0, records, |file|);
    Sizes(name, pointers, metas, edits, tables, records, versions);
    FoundPrefix(step, records, all, file);
    HistoryPrefix(name, pointers, metas, edits, tables, versions, m);
    OncePrefix(all, tables, m);
    SameNames(name, pointers, metas, edits);
    NamesPrefix(all, name, m);
    r := RecoverRecords(found, name, tables, all[..m], ([NO_FILES] + versions)[..m + 1]);
    ReachedIs(all, versions, m, r);
  }

  lemma Sizes(name: Bytes, pointers: seq<(nat, Bytes)>, metas: Metas, edits: seq<Edit>, tables: Tables,
              records: seq<Bytes>, versions: seq<Version>)
    requires AllEncode(records, Whole(name, pointers, metas, edits)) && History(versions, FileEdits(edits, tables))
    ensures |records| == |Whole(name, pointers, metas, edits)| == |edits| + 1 == |versions|
  {}

  lemma ReachedIs(all: seq<Edit>, versions: seq<Version>, m: nat, r: Option<(Version, Counters)>)
    requires m <= |all| == |versions|
    requires r.Some? <==> NumbersGiven(all[..m])
    requires r.Some? ==> r.value == (([NO_FILES] + versions)[..m + 1][m], CountersAfter(all[..m]))
    ensures r == Reached(all, versions, m) && (r.Some? ==> m > 0 && r.value.0 == versions[m - 1])
  {
    CompleteMeans(all[..m]);
    hide Carries;
    assert m == 0 ==> all[..m] == [];
    assert m > 0 ==> ([NO_FILES] + versions)[..m + 1][m] == versions[m - 1];
  }

  lemma NamesPrefix(all: seq<Edit>, name: Bytes, m: nat)
    requires m <= |all| && forall i :: 0 <= i < |all| ==> SameComparator(all[i], name)
    ensures |all[..m]| == m
    ensures forall i :: 0 <= i < |all[..m]| && all[..m][i].comparator.Some? ==> all[..m][i].comparator.value == name
  {}

  lemma FoundPrefix(step: Crc, records: seq<Bytes>, all: seq<Edit>, file: Bytes)
    requires AllEncode(records, all) && file <= Log.Records(step, 0, records)
    ensures var m := Log.Whole(step, 0, records, |file|);
      m <= |all| && Log.ReadAll(step, true, file, 0) == (records[..m], 0) && DecodeTo(records[..m], all[..m])
  {
    hide Encodes, Log.Records, Log.ReadAll, Log.Whole;
    assert Log.Records(step, 0, records)[..|file|] == file;
    Log.CrashTruncation(step, true, records, |file|);
    DecodePrefix(records, all, Log.Whole(step, 0, records, |file|));
  }

  /** What recovering the first m records of a manifest comes to: nothing before the numbers are complete. */
  ghost function Reached(all: seq<Edit>, versions: seq<Version>, m: nat): Option<(Version, Counters)>
    requires m <= |all| == |versions|
  {
    var c := CountersAfter(all[..m]);
    if m > 0 && Complete(c) then Some((versions[m - 1], c)) else None
  }

  lemma DecodePrefix(records: seq<Bytes>, all: seq<Edit>, m: nat)
    requires AllEncode(records, all) && m <= |all|
    ensures DecodeTo(records[..m], all[..m])
  {
    forall i | 0 <= i < m ensures Decoded(records[i]) == Some(all[i]) { EncodedDecodes(records[i], all[i]); }
  }

  lemma HistoryPrefix(name: Bytes, pointers: seq<(nat, Bytes)>, metas: Metas, edits: seq<Edit>, tables: Tables,
                      versions: seq<Version>, m: nat)
    requires |metas| == NUM_LEVELS && Saved(VersionOf(metas, tables)) && NumbersOnce(metas)
    requires History(versions, FileEdits(edits, tables)) && versions[0] == VersionOf(metas, tables) && m <= |edits| + 1
    ensures History(([NO_FILES] + versions)[..m + 1], FileEdits(Whole(name, pointers, metas, edits)[..m], tables))
  {
    hide Installs, SnapshotEdit, FileEdit, VersionOf, NumbersOnce, NumbersIn, Saved;
    var all, vs := Whole(name, pointers, metas, edits), [NO_FILES] + versions;
    var cut := FileEdits(all[..m], tables);
    SnapshotInstalls(name, pointers, metas, tables);
    NoFilesIs();
    forall n | 0 <= n < m ensures Installs(vs[n], cut[n], vs[n + 1]) {
      if n > 0 { assert Installs(versions[n - 1], FileEdits(edits, tables)[n - 1], versions[n]); }
    }
  }

  lemma OncePrefix(all: seq<Edit>, tables: Tables, m: nat)
    requires AddedOnce(NumbersIn(NO_FILES), FileEdits(all, tables)) && m <= |all|
    ensures AddedOnce(NumbersIn(NO_FILES), FileEdits(all[..m], tables))
  {
    var whole, cut := FileEdits(all, tables), FileEdits(all[..m], tables);
    hide FileEdit, Unused, NumbersIn;
    assert cut == whole[..m];
    forall e | e in cut ensures e in whole {}
    forall n | 0 <= n < m ensures cut[..n] == whole[..n] {}
  }

  lemma SameNames(name: Bytes, pointers: seq<(nat, Bytes)>, metas: Metas, edits: seq<Edit>)
    requires forall i :: 0 <= i < |edits| ==> SameComparator(edits[i], name)
    ensures var all := Whole(name, pointers, metas, edits);
      forall i :: 0 <= i < |all| ==> SameComparator(all[i], name)
  {}
}
