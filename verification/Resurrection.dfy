/** A run in which a compaction brings a deleted value back.  AddBoundaryInputs is not applied to the
    next level (db/version_set.cc), so a deletion and the value it hides can sit in neighbouring files
    of that level, of which only the first is compacted. */
module Resurrection {
  import opened Keys
  import opened Lists
  import opened Files
  import opened Selection
  import opened Compaction
  import opened Steps
  import opened Store

  /** Two one-byte user keys. */
  const K1: UserKey := Rank([1])
  const K2: UserKey := Rank([2])

  const X1 := Entry(InternalKey(K1, 1, Value), "x")
  const OLD2 := Entry(InternalKey(K2, 2, Value), "old")
  const DEL2 := Entry(InternalKey(K2, 3, Deletion), "")
  const A1 := Entry(InternalKey(K1, 4, Value), "a")
  const B1 := Entry(InternalKey(K1, 5, Value), "b")

  const BOTTOM := FlushedFile(0, 0, [X1])
  const FLUSHED := FlushedFile(1, 0, [A1, DEL2, OLD2])
  const LEFT := FlushedFile(2, 3, [A1, X1, DEL2])
  const RIGHT := FlushedFile(3, 1, [OLD2])
  const UPPER := FlushedFile(4, 0, [B1])
  const MERGED := FlushedFile(5, 1, [B1])

  lemma KeyOrder()
    ensures 0.0 < K1 < K2
  {
    assert Rank([]) == 0.0 && [1 as Byte][1..] == [] && [2 as Byte][1..] == [];
  }

  function Levels(l2: seq<File>, l3: seq<File>): Version
  {
    [[], [], l2, l3, [], [], []]
  }

  const BEFORE := Store([], None, Levels([UPPER], [LEFT, RIGHT]), 5, [], 5, [X1, OLD2, DEL2, A1, B1], 2)
  const AFTER := Store([], None, Levels([], [MERGED, RIGHT]), 5, [], 6, [X1, OLD2, DEL2, A1, B1], 5)

  /** A file is flushed and moved down; two versions of K2, kept apart by a snapshot, are flushed and merged
      with it, and the output is cut between them; a newer K1 then pulls only the first half into a
      compaction. */
  const STEPS: seq<Step> := [
    Write(X1), SwitchMemtable, Flush(2, 0), Move(2, BOTTOM),
    Write(OLD2), TakeSnapshot, Write(DEL2), Write(A1), SwitchMemtable, Flush(2, 0),
    Compact(2, [FLUSHED], [BOTTOM], [A1, X1, DEL2, OLD2], [LEFT, RIGHT]),
    ReleaseSnapshot(0), Write(B1), SwitchMemtable, Flush(2, 0),
    Compact(2, [UPPER], [LEFT], [B1, A1, X1, DEL2], [MERGED])]

  const STATES: seq<Store> := [
    Store([], None, Levels([], []), 0, [], 0, [], 0),
    Store([X1], None, Levels([], []), 1, [], 0, [X1], 0),
    Store([], Some([X1]), Levels([], []), 1, [], 0, [X1], 0),
    Store([], None, Levels([BOTTOM], []), 1, [], 1, [X1], 0),
    Store([], None, Levels([], [BOTTOM]), 1, [], 1, [X1], 0),
    Store([OLD2], None, Levels([], [BOTTOM]), 2, [], 1, [X1, OLD2], 0),
    Store([OLD2], None, Levels([], [BOTTOM]), 2, [2], 1, [X1, OLD2], 0),
    Store([DEL2, OLD2], None, Levels([], [BOTTOM]), 3, [2], 1, [X1, OLD2, DEL2], 0),
    Store([A1, DEL2, OLD2], None, Levels([], [BOTTOM]), 4, [2], 1, [X1, OLD2, DEL2, A1], 0),
    Store([], Some([A1, DEL2, OLD2]), Levels([], [BOTTOM]), 4, [2], 1, [X1, OLD2, DEL2, A1], 0),
    Store([], None, Levels([FLUSHED], [BOTTOM]), 4, [2], 2, [X1, OLD2, DEL2, A1], 0),
    Store([], None, Levels([], [LEFT, RIGHT]), 4, [2], 4, [X1, OLD2, DEL2, A1], 2),
    Store([], None, Levels([], [LEFT, RIGHT]), 4, [], 4, [X1, OLD2, DEL2, A1], 2),
    Store([B1], None, Levels([], [LEFT, RIGHT]), 5, [], 4, [X1, OLD2, DEL2, A1, B1], 2),
    Store([], Some([B1]), Levels([], [LEFT, RIGHT]), 5, [], 4, [X1, OLD2, DEL2, A1, B1], 2),
    BEFORE,
    AFTER]

  // ---------- it is a run ----------

  lemma Inserts()
    ensures InsertSorted([], X1) == [X1] && InsertSorted([], OLD2) == [OLD2] && InsertSorted([], B1) == [B1]
    ensures InsertSorted([OLD2], DEL2) == [DEL2, OLD2]
    ensures InsertSorted([DEL2, OLD2], A1) == [A1, DEL2, OLD2]
  {
    KeyOrder();
  }

  lemma FirstWrites(i: nat)
    requires i in {0, 1, 4, 5}
    ensures Next(STATES[i], STATES[i + 1], STEPS[i])
  {
    Inserts();
    hide InsertSorted, Levels;
  }

  lemma MoreWrites(i: nat)
    requires i in {6, 7, 8}
    ensures Next(STATES[i], STATES[i + 1], STEPS[i])
  {
    Inserts();
    hide InsertSorted, Levels;
  }

  lemma LastWrites(i: nat)
    requires i in {11, 12, 13}
    ensures Next(STATES[i], STATES[i + 1], STEPS[i])
  {
    Inserts();
    hide InsertSorted, Levels;
  }

  lemma EditedDeep(l2: seq<File>, l3: seq<File>, m2: seq<File>, m3: seq<File>,
                   removed: set<(nat, File)>, added: set<(nat, File)>)
    requires BySmallest(m2) && BySmallest(m3)
    requires forall f :: f in m2 <==> (f in l2 && (2, f) !in removed) || (2, f) in added
    requires forall f :: f in m3 <==> (f in l3 && (3, f) !in removed) || (3, f) in added
    requires forall p :: p in added ==> p.0 == 2 || p.0 == 3
    ensures Edited(Levels(l2, l3), Levels(m2, m3), removed, added)
  {}

  lemma FirstFlush()
    ensures Next(STATES[2], STATES[3], STEPS[2])
  {
    EditedDeep([], [], [BOTTOM], [], {}, {(2, BOTTOM)});
    hide Edited;
  }

  lemma SecondFlush()
    ensures Next(STATES[9], STATES[10], STEPS[9])
  {
    EditedDeep([], [BOTTOM], [FLUSHED], [BOTTOM], {}, {(2, FLUSHED)});
    hide Edited;
  }

  lemma ThirdFlush()
    ensures Next(STATES[14], BEFORE, STEPS[14])
  {
    EditedDeep([], [LEFT, RIGHT], [UPPER], [LEFT, RIGHT], {}, {(2, UPPER)});
    hide Edited;
  }

  /** Level 2 holds one file: every compaction there takes it, and with it exactly the files of level 3 that it
      meets. */
  lemma OneChoice(f: File, l3: seq<File>, in0: seq<File>, in1: seq<File>)
    requires ValidInputs(Levels([f], l3), 2, in0, in1)
    ensures in0 == [f] && forall g :: g in in1 <==> g in l3 && Meets(g, f.smallest.user, f.largest.user)
  {
    var v := Levels([f], l3);
    assert v[2] == [f] && v[3] == l3;
    ExactlyOne(in0, f);
  }

  lemma InputsOk(f: File, l3: seq<File>, in1: seq<File>)
    requires FileOk(f) && NoDups(in1)
    requires forall g :: g in in1 <==> g in l3 && Meets(g, f.smallest.user, f.largest.user)
    ensures ValidInputs(Levels([f], l3), 2, [f], in1)
  {
    assert f in [f];
  }

  lemma FilesAreOk()
    ensures FileOk(BOTTOM) && FileOk(FLUSHED) && FileOk(UPPER)
  {
    KeyOrder();
  }

  lemma MoveDown()
    ensures Next(STATES[3], STATES[4], STEPS[3])
  {
    FilesAreOk();
    InputsOk(BOTTOM, [], []);
    EditedDeep([BOTTOM], [], [], [BOTTOM], {(2, BOTTOM)}, {(3, BOTTOM)});
    hide Edited, ValidInputs;
  }

  lemma TableOf(f: File)
    ensures FileEntries([f]) == Elements(f.table)
  {}

  lemma NothingDeep(l2: seq<File>, l3: seq<File>, user: UserKey)
    ensures BaseLevel(Levels(l2, l3), 2, user)
  {}

  // ---------- the first compaction ----------

  lemma FirstDrops()
    ensures forall e :: e in [A1, X1, DEL2, OLD2] ==>
              !Obsolete(Levels([FLUSHED], [BOTTOM]), 2, Elements([A1, X1, DEL2, OLD2]), 2, e)
  {
    KeyOrder();
  }

  lemma FirstKept()
    ensures Kept(Levels([FLUSHED], [BOTTOM]), 2, [A1, X1, DEL2, OLD2], 2, 4) == [A1, X1, DEL2, OLD2]
  {
    var v, input := Levels([FLUSHED], [BOTTOM]), [A1, X1, DEL2, OLD2];
    FirstDrops();
    hide Obsolete;
    assert Kept(v, 2, input, 2, 1) == [A1];
    assert Kept(v, 2, input, 2, 2) == [A1, X1];
    assert Kept(v, 2, input, 2, 3) == [A1, X1, DEL2];
  }

  lemma FirstInputs()
    ensures ValidInputs(Levels([FLUSHED], [BOTTOM]), 2, [FLUSHED], [BOTTOM])
    ensures Elements([A1, X1, DEL2, OLD2]) == FileEntries([FLUSHED]) + FileEntries([BOTTOM])
  {
    KeyOrder();
    FilesAreOk();
    InputsOk(FLUSHED, [BOTTOM], [BOTTOM]);
    TableOf(FLUSHED);
    TableOf(BOTTOM);
    hide ValidInputs, FileEntries;
  }

  lemma FirstFlat()
    ensures Flat([LEFT, RIGHT]) == [A1, X1, DEL2, OLD2] && Numbered([LEFT, RIGHT], 2)
    ensures forall f :: f in [LEFT, RIGHT] ==> Sealed(f)
  {
    assert [LEFT, RIGHT][..1] == [LEFT] && [LEFT][..0] == [];
    assert Flat([LEFT]) == LEFT.table;
  }

  lemma FirstEdit()
    ensures Edited(Levels([FLUSHED], [BOTTOM]), Levels([], [LEFT, RIGHT]),
                   Inputs(2, [FLUSHED], [BOTTOM]), Steps.At(3, [LEFT, RIGHT]))
  {
    KeyOrder();
    EditedDeep([FLUSHED], [BOTTOM], [], [LEFT, RIGHT], Inputs(2, [FLUSHED], [BOTTOM]), Steps.At(3, [LEFT, RIGHT]));
  }

  lemma FirstSorted()
    ensures SortedTable([A1, X1, DEL2, OLD2]) && SortedTable([B1, A1, X1, DEL2])
  {
    KeyOrder();
  }

  lemma FirstCompaction()
    ensures Next(STATES[10], STATES[11], STEPS[10])
  {
    hide ValidInputs, Kept, Flat, Numbered, Edited, FileEntries, Sealed, Levels, Elements, SortedTable;
    FirstSorted();
    FirstInputs();
    FirstKept();
    FirstFlat();
    FirstEdit();
  }

  // ---------- the second compaction ----------

  lemma SecondDrops()
    ensures var v, E := Levels([UPPER], [LEFT, RIGHT]), Elements([B1, A1, X1, DEL2]);
      && !Obsolete(v, 2, E, 5, B1) && Obsolete(v, 2, E, 5, A1) && Obsolete(v, 2, E, 5, X1) && Obsolete(v, 2, E, 5, DEL2)
  {
    KeyOrder();
    NothingDeep([UPPER], [LEFT, RIGHT], K2);
    assert B1 in Elements([B1, A1, X1, DEL2]);
  }

  lemma SecondKept()
    ensures Kept(Levels([UPPER], [LEFT, RIGHT]), 2, [B1, A1, X1, DEL2], 5, 4) == [B1]
  {
    var v, input := Levels([UPPER], [LEFT, RIGHT]), [B1, A1, X1, DEL2];
    SecondDrops();
    hide Obsolete;
    assert Kept(v, 2, input, 5, 1) == [B1];
    assert Kept(v, 2, input, 5, 2) == [B1];
    assert Kept(v, 2, input, 5, 3) == [B1];
  }

  lemma SecondInputs()
    ensures ValidInputs(Levels([UPPER], [LEFT, RIGHT]), 2, [UPPER], [LEFT])
    ensures Elements([B1, A1, X1, DEL2]) == FileEntries([UPPER]) + FileEntries([LEFT])
  {
    KeyOrder();
    FilesAreOk();
    InputsOk(UPPER, [LEFT, RIGHT], [LEFT]);
    TableOf(UPPER);
    TableOf(LEFT);
    hide ValidInputs, FileEntries;
  }

  lemma SecondEdit()
    ensures Edited(Levels([UPPER], [LEFT, RIGHT]), Levels([], [MERGED, RIGHT]), Inputs(2, [UPPER], [LEFT]),
            Steps.At(3, [MERGED]))
    ensures Flat([MERGED]) == [B1] && Numbered([MERGED], 5) && Sealed(MERGED)
  {
    KeyOrder();
    EditedDeep([UPPER], [LEFT, RIGHT], [], [MERGED, RIGHT], Inputs(2, [UPPER], [LEFT]), Steps.At(3, [MERGED]));
    assert [MERGED][..0] == [];
  }

  lemma SecondCompaction()
    ensures Next(BEFORE, AFTER, STEPS[15])
  {
    hide ValidInputs, Kept, Flat, Numbered, Edited, FileEntries, Sealed, Levels, Elements, SortedTable;
    FirstSorted();
    SecondInputs();
    SecondKept();
    SecondEdit();
  }

  // ---------- the source takes these steps ----------

  function Count(t: seq<Entry>): nat
  {
    |t|
  }

  const NO_STOPS := [false, false, false, false]

  lemma CutAtThree()
    ensures Outputs([], [A1, X1], 2).Add(DEL2, Count, 3) == Outputs([LEFT], [], 2)
    ensures Outputs([LEFT], [OLD2], 2).Ok() && Outputs([LEFT], [OLD2], 2).Cut(Count).files == [LEFT, RIGHT]
  {
    assert [A1, X1] + [DEL2] == [A1, X1, DEL2];
    assert [] + [LEFT] == [LEFT] && [LEFT] + [RIGHT] == [LEFT, RIGHT];
  }

  /** With a size limit of three entries, the first compaction cuts its output between the two versions of K2. */
  lemma FirstOutputs()
    ensures Emitted(Levels([FLUSHED], [BOTTOM]), 2, [A1, X1, DEL2, OLD2], 2, 2, NO_STOPS,
            Count, 3, 4).Cut(Count).files == [LEFT, RIGHT]
  {
    var v, input := Levels([FLUSHED], [BOTTOM]), [A1, X1, DEL2, OLD2];
    FirstDrops();
    CutAtThree();
    hide Obsolete, Levels;
    assert Emitted(v, 2, input, 2, 2, NO_STOPS, Count, 3, 0) == Outputs([], [], 2);
    assert Emitted(v, 2, input, 2, 2, NO_STOPS, Count, 3, 1) == Outputs([], [A1], 2);
    assert Emitted(v, 2, input, 2, 2, NO_STOPS, Count, 3, 2) == Outputs([], [A1, X1], 2);
    assert Emitted(v, 2, input, 2, 2, NO_STOPS, Count, 3, 3) == Outputs([LEFT], [], 2);
    assert Emitted(v, 2, input, 2, 2, NO_STOPS, Count, 3, 4) == Outputs([LEFT], [OLD2], 2);
  }

  lemma SecondOutputs()
    ensures Emitted(BEFORE.version, 2, [B1, A1, X1, DEL2], 5, 5, NO_STOPS, Count, 3, 4).Cut(Count).files == [MERGED]
  {
    var v, input := BEFORE.version, [B1, A1, X1, DEL2];
    SecondDrops();
    hide Obsolete, Levels;
    assert Emitted(v, 2, input, 5, 5, NO_STOPS, Count, 3, 0) == Outputs([], [], 5);
    assert Emitted(v, 2, input, 5, 5, NO_STOPS, Count, 3, 1) == Outputs([], [B1], 5);
    assert Emitted(v, 2, input, 5, 5, NO_STOPS, Count, 3, 2) == Outputs([], [B1], 5);
    assert Emitted(v, 2, input, 5, 5, NO_STOPS, Count, 3, 3) == Outputs([], [B1], 5);
  }

  /** PickLevelForMemTableOutput lets a table sink to level 2 past free levels, over little data at level 3. */
  lemma SinksToTwo(l3: seq<File>, lo: UserKey, hi: UserKey, maxFileSize: nat)
    requires TotalSize(Under(l3, Some(lo), Some(hi))) <= 10 * maxFileSize
    ensures IsPicked(Levels([], l3), lo, hi, maxFileSize, 2)
  {
    var v := Levels([], l3);
    assert Under([], Some(lo), Some(hi)) == [];
    assert v[2] == [] && v[3] == l3;
  }

  /** Each flush goes to the picked level, each compaction takes the only inputs there are, and writes the files
      that DoCompactionWork writes. */
  lemma TheCodeTakesTheseSteps()
    ensures IsPicked(STATES[2].version, K1, K1, 3, 2)
    ensures IsPicked(STATES[9].version, K1, K2, 3, 2)
    ensures IsPicked(STATES[14].version, K1, K1, 3, 2)
    ensures forall in0, in1 :: ValidInputs(STATES[3].version, 2, in0, in1) ==> in0 == [BOTTOM] && in1 == []
    ensures forall in0, in1 :: ValidInputs(STATES[10].version, 2, in0, in1) ==> in0 == [FLUSHED] && in1 == [BOTTOM]
    ensures forall in0, in1 :: ValidInputs(BEFORE.version, 2, in0, in1) ==> in0 == [UPPER] && in1 == [LEFT]
    ensures Emitted(STATES[10].version, 2, [A1, X1, DEL2, OLD2], 2, 2, NO_STOPS, Count, 3, 4).Cut(Count).files ==
            [LEFT, RIGHT]
    ensures Emitted(BEFORE.version, 2, [B1, A1, X1, DEL2], 5, 5, NO_STOPS, Count, 3, 4).Cut(Count).files == [MERGED]
  {
    FirstOutputs();
    SecondOutputs();
    Picks();
    hide IsPicked, Emitted, ValidInputs, Levels;
    forall in0, in1 | ValidInputs(STATES[3].version, 2, in0, in1) ensures in0 == [BOTTOM] && in1 == [] {
      assert in1 != [] ==> in1[0] in in1;
      OneChoice(BOTTOM, [], in0, in1);
    }
    forall in0, in1 | ValidInputs(STATES[10].version, 2, in0, in1) ensures in0 == [FLUSHED] && in1 == [BOTTOM] {
      FirstChoice(in0, in1);
    }
    forall in0, in1 | ValidInputs(BEFORE.version, 2, in0, in1) ensures in0 == [UPPER] && in1 == [LEFT] {
      SecondChoice(in0, in1);
    }
  }

  lemma Picks()
    ensures IsPicked(STATES[2].version, K1, K1, 3, 2)
    ensures IsPicked(STATES[9].version, K1, K2, 3, 2)
    ensures IsPicked(STATES[14].version, K1, K1, 3, 2)
  {
    SmallBelow([], K1, K1);
    SmallBelow([BOTTOM], K1, K2);
    SmallBelow([LEFT, RIGHT], K1, K1);
    SinksToTwo([], K1, K1, 3);
    SinksToTwo([BOTTOM], K1, K2, 3);
    SinksToTwo([LEFT, RIGHT], K1, K1, 3);
    hide IsPicked, Levels;
  }

  /** The files in question hold at most four entries' worth of bytes. */
  lemma SmallBelow(l3: seq<File>, lo: UserKey, hi: UserKey)
    requires l3 == [] || l3 == [BOTTOM] || l3 == [LEFT, RIGHT]
    ensures TotalSize(Under(l3, Some(lo), Some(hi))) <= 30
  {
    UnderSmaller(l3, Some(lo), Some(hi));
    SizeOfTwo(LEFT, RIGHT);
    SizeOfTwo(BOTTOM, BOTTOM);
    hide TotalSize, Under;
  }

  lemma ExactlyOne(in1: seq<File>, g: File)
    requires NoDups(in1) && in1 != [] && forall f :: f in in1 ==> f == g
    ensures in1 == [g]
  {
    assert |in1| > 1 ==> in1[0] != in1[1];
    forall i | 0 <= i < |in1| ensures in1[i] == g { assert in1[i] in in1; }
  }

  lemma FirstChoice(in0: seq<File>, in1: seq<File>)
    requires ValidInputs(Levels([FLUSHED], [BOTTOM]), 2, in0, in1)
    ensures in0 == [FLUSHED] && in1 == [BOTTOM]
  {
    KeyOrder();
    OneChoice(FLUSHED, [BOTTOM], in0, in1);
    ExactlyOne(in1, BOTTOM);
  }

  lemma SecondChoice(in0: seq<File>, in1: seq<File>)
    requires ValidInputs(Levels([UPPER], [LEFT, RIGHT]), 2, in0, in1)
    ensures in0 == [UPPER] && in1 == [LEFT]
  {
    KeyOrder();
    OneChoice(UPPER, [LEFT, RIGHT], in0, in1);
    ExactlyOne(in1, LEFT);
  }

  // ---------- what it reads ----------

  /** A deleted key comes back: a run from the empty store after which K2 reads its old value at the present,
      although its newest write is a deletion, and before whose last compaction it read as absent. */
  lemma DeletedValueReturns()
    ensures Run(STATES, STEPS) && STATES[15] == BEFORE && STATES[16] == AFTER
    ensures Read(Elements(AFTER.history), K2, 5).None?
    ensures Read(Contents(BEFORE), K2, 5).None?
    ensures Read(Contents(AFTER), K2, 5) == Some("old")
  {
    forall i | 0 <= i < |STEPS| ensures Next(STATES[i], STATES[i + 1], STEPS[i]) {
      OneStep(i);
    }
    RunsKeepInv(STATES, STEPS, 15);
    RunsKeepInv(STATES, STEPS, 16);
    LastReadings();
  }

  lemma OneStep(i: nat)
    requires i < |STEPS|
    ensures Next(STATES[i], STATES[i + 1], STEPS[i])
  {
    hide Next;
    if i == 2 { FirstFlush(); }
    else if i == 3 { MoveDown(); }
    else if i == 9 { SecondFlush(); }
    else if i == 10 { FirstCompaction(); }
    else if i == 14 { ThirdFlush(); }
    else if i == 15 { SecondCompaction(); }
    else if i < 6 { FirstWrites(i); }
    else if i < 9 { MoreWrites(i); }
    else { LastWrites(i); }
  }

  lemma LastReadings()
    requires Inv(BEFORE) && Inv(AFTER)
    ensures Read(Elements(AFTER.history), K2, 5).None?
    ensures Read(Contents(BEFORE), K2, 5).None?
    ensures Read(Contents(AFTER), K2, 5) == Some("old")
  {
    HistoryDistinct(BEFORE);
    HistoryDistinct(AFTER);
    WhereTheyAre();
    NewestOf2(Elements(AFTER.history), DEL2);
    NewestOf2(Contents(BEFORE), DEL2);
    NewestOf2(Contents(AFTER), OLD2);
    hide Contents, Inv, Elements, Read;
  }

  lemma NewestOf2(E: set<Entry>, e: Entry)
    requires Distinct(E) && e in E && Visible(e, K2, 5)
    requires forall d :: d in E && d.key.user == K2 ==> d.key.sequence <= e.key.sequence
    ensures Read(E, K2, 5) == if e.key.kind.Value? then Some(e.value) else None
  {
    NewestIs(E, K2, 5, e);
  }

  lemma WhereTheyAre()
    requires Inv(BEFORE)
    ensures forall d :: d in Contents(BEFORE) && d.key.user == K2 ==> d.key.sequence <= 3
    ensures forall d :: d in Elements(AFTER.history) && d.key.user == K2 ==> d.key.sequence <= 3
    ensures DEL2 in Contents(BEFORE) && DEL2 in Elements(AFTER.history)
    ensures OLD2 in Contents(AFTER) && forall e :: e in Contents(AFTER) && e.key.user == K2 ==> e.key.sequence <= 2
  {
    hide Layered, Above, SnapshotsOk, Newest;
    KeyOrder();
    EntryOf(BEFORE.version, 3, LEFT, DEL2);
    AfterHolds();
  }

  lemma AfterHolds()
    ensures OLD2 in Contents(AFTER) && forall e :: e in Contents(AFTER) && e.key.user == K2 ==> e.key.sequence <= 2
  {
    KeyOrder();
    EntryOf(AFTER.version, 3, RIGHT, OLD2);
    forall e | e in Contents(AFTER) && e.key.user == K2 ensures e == OLD2 {
      var l, f := HomeOf(AFTER.version, e);
      assert l == 3;
    }
  }
}
