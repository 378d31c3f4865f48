/** A run in which a written key can no longer be found.  While a compaction of two files is at work, a memtable
    whose keys lie between them is flushed to the level of the outputs (db/db_impl.cc, db/version_set.cc); the output
    then covers the flushed file, and the binary search of that level never asks it. */
module LostKey {
  import opened Keys
  import opened Lists
  import opened Files
  import opened Lookup
  import opened Selection
  import opened Compaction
  import opened Steps
  import opened Late
  import Store
  import opened Nested

  /** Three one-byte user keys. */
  const KA: UserKey := Rank([1])
  const KM: UserKey := Rank([2])
  const KZ: UserKey := Rank([3])

  const A1 := Entry(InternalKey(KA, 1, Value), "a")
  const Z2 := Entry(InternalKey(KZ, 2, Value), "z")
  const A3 := Entry(InternalKey(KA, 3, Value), "aa")
  const Z4 := Entry(InternalKey(KZ, 4, Value), "zz")
  const M5 := Entry(InternalKey(KM, 5, Value), "m")

  const LOWER_A := Store.FlushedFile(0, 1, [A1])
  const LOWER_Z := Store.FlushedFile(1, 1, [Z2])
  const UPPER_A := Store.FlushedFile(2, 1, [A3])
  const UPPER_Z := Store.FlushedFile(3, 1, [Z4])
  const BETWEEN := Store.FlushedFile(4, 1, [M5])
  const OUTPUT := Store.FlushedFile(5, 2, [A3, Z4])

  lemma KeyOrder()
    ensures 0.0 < KA < KM < KZ
  {
    assert Rank([]) == 0.0 && [1 as Byte][1..] == [] && [2 as Byte][1..] == [] && [3 as Byte][1..] == [];
  }

  function Levels(l1: seq<File>, l2: seq<File>): Version
  {
    [[], l1, l2, [], [], [], []]
  }

  /** Nothing is running, no snapshot is held. */
  function Idle(mem: seq<Entry>, imm: Option<seq<Entry>>, l1: seq<File>, l2: seq<File>, last: nat, next: nat): State
    requires last <= 5
  {
    State(Store.Store(mem, imm, Levels(l1, l2), last, [], next, [A1, Z2, A3, Z4, M5][..last], 0), None)
  }

  const BASE := Levels([UPPER_A, UPPER_Z], [LOWER_A, LOWER_Z])

  function Busy(mem: seq<Entry>, imm: Option<seq<Entry>>, l2: seq<File>, last: nat, next: nat, numbers: seq<nat>): State
    requires last <= 5
  {
    Idle(mem, imm, [UPPER_A, UPPER_Z], l2, last, next)
      .(running := Some(Running(BASE, 1, [UPPER_A, UPPER_Z], [LOWER_A, LOWER_Z], 4, numbers)))
  }

  const STEPS: seq<Step> := [
    Plain(Store.Write(A1)), Plain(Store.SwitchMemtable), Plain(Store.Flush(2, 1)),
    Plain(Store.Write(Z2)), Plain(Store.SwitchMemtable), Plain(Store.Flush(2, 1)),
    Plain(Store.Write(A3)), Plain(Store.SwitchMemtable), Plain(Store.Flush(1, 1)),
    Plain(Store.Write(Z4)), Plain(Store.SwitchMemtable), Plain(Store.Flush(1, 1)),
    Start(1, [UPPER_A, UPPER_Z], [LOWER_A, LOWER_Z]),
    Plain(Store.Write(M5)), Plain(Store.SwitchMemtable), Plain(Store.Flush(2, 1)),
    OpenOutput, Install([A3, A1, Z4, Z2], [OUTPUT])]

  const BOTH := [LOWER_A, LOWER_Z]

  const LOST := State(Store.Store([], None, Levels([], [OUTPUT, BETWEEN]), 5, [], 6, [A1, Z2, A3, Z4, M5], 4), None)

  const STATES: seq<State> := [
    Idle([], None, [], [], 0, 0),
    Idle([A1], None, [], [], 1, 0),
    Idle([], Some([A1]), [], [], 1, 0),
    Idle([], None, [], [LOWER_A], 1, 1),
    Idle([Z2], None, [], [LOWER_A], 2, 1),
    Idle([], Some([Z2]), [], [LOWER_A], 2, 1),
    Idle([], None, [], BOTH, 2, 2),
    Idle([A3], None, [], BOTH, 3, 2),
    Idle([], Some([A3]), [], BOTH, 3, 2),
    Idle([], None, [UPPER_A], BOTH, 3, 3),
    Idle([Z4], None, [UPPER_A], BOTH, 4, 3),
    Idle([], Some([Z4]), [UPPER_A], BOTH, 4, 3),
    Idle([], None, [UPPER_A, UPPER_Z], BOTH, 4, 4),
    Busy([], None, BOTH, 4, 4, []),
    Busy([M5], None, BOTH, 5, 4, []),
    Busy([], Some([M5]), BOTH, 5, 4, []),
    Busy([], None, [LOWER_A, BETWEEN, LOWER_Z], 5, 5, []),
    Busy([], None, [LOWER_A, BETWEEN, LOWER_Z], 5, 6, [5]),
    LOST]

  // ---------- it is a run ----------

  lemma Histories()
    ensures var h := [A1, Z2, A3, Z4, M5];
      && h[..0] == [] && h[..0] + [A1] == h[..1] && h[..1] + [Z2] == h[..2] && h[..2] + [A3] == h[..3]
      && h[..3] + [Z4] == h[..4] && h[..4] + [M5] == h[..5] && h[..5] == h
  {}

  lemma Writes(i: nat)
    requires i in {0, 3, 6}
    ensures Next(STATES[i], STATES[i + 1], STEPS[i])
  {
    Histories();
    hide Levels;
  }

  lemma LaterWrites(i: nat)
    requires i in {9, 13}
    ensures Next(STATES[i], STATES[i + 1], STEPS[i])
  {
    Histories();
    hide Levels;
  }

  lemma Switches(i: nat)
    requires i in {1, 4, 7}
    ensures Next(STATES[i], STATES[i + 1], STEPS[i])
  {
    hide Levels;
  }

  lemma LaterSwitches(i: nat)
    requires i in {10, 14}
    ensures Next(STATES[i], STATES[i + 1], STEPS[i])
  {
    hide Levels;
  }

  lemma Opens()
    ensures Next(STATES[16], STATES[17], STEPS[16])
  {
    hide Levels;
    assert [] + [5 as nat] == [5];
  }

  lemma EditedHere(l1: seq<File>, l2: seq<File>, m1: seq<File>, m2: seq<File>,
                   removed: set<(nat, File)>, added: set<(nat, File)>)
    requires BySmallest(m1) && BySmallest(m2)
    requires forall f :: f in m1 <==> (f in l1 && (1, f) !in removed) || (1, f) in added
    requires forall f :: f in m2 <==> (f in l2 && (2, f) !in removed) || (2, f) in added
    requires forall p :: p in added ==> p.0 == 1 || p.0 == 2
    ensures Edited(Levels(l1, l2), Levels(m1, m2), removed, added)
  {}

  lemma FirstFlush()
    ensures Next(STATES[2], STATES[3], STEPS[2])
  {
    EditedHere([], [], [], [LOWER_A], {}, {(2, LOWER_A)});
    hide Edited;
  }

  lemma SecondFlush()
    ensures Next(STATES[5], STATES[6], STEPS[5])
  {
    KeyOrder();
    EditedHere([], [LOWER_A], [], BOTH, {}, {(2, LOWER_Z)});
    hide Edited;
  }

  lemma ThirdFlush()
    ensures Next(STATES[8], STATES[9], STEPS[8])
  {
    EditedHere([], BOTH, [UPPER_A], BOTH, {}, {(1, UPPER_A)});
    hide Edited;
  }

  lemma FourthFlush()
    ensures Next(STATES[11], STATES[12], STEPS[11])
  {
    KeyOrder();
    EditedHere([UPPER_A], BOTH, [UPPER_A, UPPER_Z], BOTH, {}, {(1, UPPER_Z)});
    hide Edited;
  }

  lemma FlushBetween()
    ensures Next(STATES[15], STATES[16], STEPS[15])
  {
    KeyOrder();
    EditedHere([UPPER_A, UPPER_Z], BOTH, [UPPER_A, UPPER_Z], [LOWER_A, BETWEEN, LOWER_Z], {}, {(2, BETWEEN)});
    hide Edited;
  }

  lemma TwoTables(f: File, g: File)
    ensures FileEntries([f, g]) == Elements(f.table) + Elements(g.table)
  {}

  lemma InputsChosen()
    ensures ValidInputs(BASE, 1, [UPPER_A, UPPER_Z], BOTH)
    ensures Elements([A3, A1, Z4, Z2]) == FileEntries([UPPER_A, UPPER_Z]) + FileEntries(BOTH)
  {
    KeyOrder();
    TwoTables(UPPER_A, UPPER_Z);
    TwoTables(LOWER_A, LOWER_Z);
    hide FileEntries;
    assert UPPER_A in [UPPER_A, UPPER_Z] && UPPER_Z in [UPPER_A, UPPER_Z];
    assert BASE[1] == [UPPER_A, UPPER_Z] && BASE[2] == BOTH;
  }

  lemma Drops()
    ensures var E := Elements([A3, A1, Z4, Z2]);
      && !Obsolete(BASE, 1, E, 4, A3) && Obsolete(BASE, 1, E, 4, A1)
      && !Obsolete(BASE, 1, E, 4, Z4) && Obsolete(BASE, 1, E, 4, Z2)
  {
    KeyOrder();
    assert A3 in [A3, A1, Z4, Z2] && Z4 in [A3, A1, Z4, Z2];
  }

  lemma OutputWritten()
    ensures Kept(BASE, 1, [A3, A1, Z4, Z2], 4, 4) == [A3, Z4] == Flat([OUTPUT]) && Sealed(OUTPUT)
    ensures SortedTable([A3, A1, Z4, Z2])
  {
    var input := [A3, A1, Z4, Z2];
    KeyOrder();
    Drops();
    hide Obsolete;
    assert Kept(BASE, 1, input, 4, 1) == [A3];
    assert Kept(BASE, 1, input, 4, 2) == [A3];
    assert Kept(BASE, 1, input, 4, 3) == [A3, Z4];
    assert [OUTPUT][..0] == [];
  }

  lemma FourInputs(f: File, g: File, h: File, k: File)
    ensures forall p :: p in Inputs(1, [f, g], [h, k]) <==> p in {(1, f), (1, g), (2, h), (2, k)}
  {
    forall p ensures p in Inputs(1, [f, g], [h, k]) <==> p in {(1, f), (1, g), (2, h), (2, k)} {
      assert f in [f, g] && g in [f, g] && h in [h, k] && k in [h, k];
    }
  }

  lemma LastEdit()
    ensures Edited(Levels([UPPER_A, UPPER_Z], [LOWER_A, BETWEEN, LOWER_Z]), Levels([], [OUTPUT, BETWEEN]),
                   Inputs(1, [UPPER_A, UPPER_Z], BOTH), At(2, [OUTPUT]))
  {
    KeyOrder();
    var removed, added := Inputs(1, [UPPER_A, UPPER_Z], BOTH), At(2, [OUTPUT]);
    FourInputs(UPPER_A, UPPER_Z, LOWER_A, LOWER_Z);
    assert added == {(2, OUTPUT)};
    hide Inputs, At;
    EditedHere([UPPER_A, UPPER_Z], [LOWER_A, BETWEEN, LOWER_Z], [], [OUTPUT, BETWEEN], removed, added);
  }

  lemma Starts()
    ensures Next(STATES[12], STATES[13], STEPS[12])
  {
    InputsChosen();
    hide ValidInputs, Levels;
  }

  lemma Installs()
    ensures Next(STATES[17], STATES[18], STEPS[17])
  {
    hide ValidInputs, Kept, Flat, Edited, FileEntries, Sealed, Levels, Elements, SortedTable;
    InputsChosen();
    OutputWritten();
    LastEdit();
    Histories();
  }

  lemma OneStep(i: nat)
    requires i < |STEPS|
    ensures Next(STATES[i], STATES[i + 1], STEPS[i])
  {
    hide Next;
    if i == 2 { FirstFlush(); }
    else if i == 5 { SecondFlush(); }
    else if i == 8 { ThirdFlush(); }
    else if i == 11 { FourthFlush(); }
    else if i == 12 { Starts(); }
    else if i == 15 { FlushBetween(); }
    else if i == 17 { Installs(); }
    else if i == 16 { Opens(); }
    else if i in {0, 3, 6} { Writes(i); }
    else if i in {9, 13} { LaterWrites(i); }
    else if i in {1, 4, 7} { Switches(i); }
    else { LaterSwitches(i); }
  }

  // ---------- what is found ----------

  lemma NotFound()
    ensures Answered(LOST.store.version, 0, KM, 5) == Missing
  {
    KeyOrder();
    var v, files, key := LOST.store.version, [OUTPUT, BETWEEN], LookupKey(KM, 5);
    assert FoundFile(files, key, 0, 1) == FoundFile(files, key, 0, 0) == 0;
    assert FoundFile(files, key, 0, 2) == 0;
    assert SeekIndex([Z4], key) == 0 && [A3, Z4][1..] == [Z4];
    assert SeekIndex([A3, Z4], key) == 1;
    assert LevelAnswer(files, KM, 5) == Missing;
    EmptyLevels(v);
  }

  /** Empty levels do not answer. */
  lemma EmptyLevels(v: Version)
    requires |v| == NUM_LEVELS && LevelAnswer(v[2], KM, 5) == Missing
    requires forall l :: 0 <= l < NUM_LEVELS && l != 2 ==> v[l] == []
    ensures Answered(v, 0, KM, 5) == Missing
  {
    forall l | 0 <= l < NUM_LEVELS ensures AnswerAt(v, l, KM, 5) == Missing {}
    hide AnswerAt;
    Silent(v, 0);
  }

  lemma {:induction false} Silent(v: Version, level: nat)
    requires level <= |v| && forall l :: 0 <= l < |v| ==> AnswerAt(v, l, KM, 5) == Missing
    ensures Answered(v, level, KM, 5) == Missing
    decreases |v| - level
  {
    if level < |v| { Silent(v, level + 1); }
  }

  lemma StillWritten()
    ensures Read(Elements(LOST.store.history), KM, 5) == Some("m")
    ensures Read(Store.Contents(LOST.store), KM, 5) == Some("m")
  {
    KeyOrder();
    var H, C := Elements(LOST.store.history), Store.Contents(LOST.store);
    assert M5 in H;
    forall e | e in H && e.key.user == KM ensures e == M5 {}
    NewestOfM(H);
    ContentsOfM();
    NewestOfM(C);
  }

  lemma ContentsOfM()
    ensures M5 in Store.Contents(LOST.store)
    ensures forall e :: e in Store.Contents(LOST.store) && e.key.user == KM ==> e == M5
  {
    KeyOrder();
    var v := LOST.store.version;
    EntryOf(v, 2, BETWEEN, M5);
    forall e | e in Store.Contents(LOST.store) && e.key.user == KM ensures e == M5 {
      var l, f := HomeOf(v, e);
      assert l == 2;
    }
  }

  lemma NewestOfM(E: set<Entry>)
    requires M5 in E && forall e :: e in E && e.key.user == KM ==> e == M5
    ensures Read(E, KM, 5) == Some("m")
  {}

  /** The key in the middle was written last, is still stored, and is not found. */
  lemma WrittenKeyIsLost()
    ensures Run(STATES, STEPS) && STATES[18] == LOST
    ensures Read(Elements(LOST.store.history), KM, 5) == Read(Store.Contents(LOST.store), KM, 5) == Some("m")
    ensures Store.Found(LOST.store.mem, LOST.store.imm, LOST.store.version, KM, 5) == Missing
  {
    hide Next, Run, Store.Contents, Answered, Read, Elements;
    IsRun();
    StillWritten();
    NotFound();
  }

  lemma IsRun()
    ensures Run(STATES, STEPS) && STATES[18] == LOST
  {
    hide Next;
    assert STATES[0].store.history == [];
    forall i | 0 <= i < |STEPS| ensures Next(STATES[i], STATES[i + 1], STEPS[i]) {
      OneStep(i);
    }
  }

  // ---------- the source takes these steps ----------

  lemma UnderOne(f: File, g: File, k: UserKey)
    ensures TotalSize(Under([f, g], Some(k), Some(k))) <= f.size + g.size
            && TotalSize(Under([f], Some(k), Some(k))) <= f.size
    ensures Under([], Some(k), Some(k)) == []
  {
    UnderSmaller([f], Some(k), Some(k));
    UnderSmaller([f, g], Some(k), Some(k));
    SizeOfTwo(f, g);
  }

  /** Each flush goes to the level that PickLevelForMemTableOutput picks: the last one to the level of the outputs,
      because nothing of the version overlaps it.  The inputs are those of a manual compaction of the whole level, and
      the output is what DoCompactionWork writes. */
  lemma TheCodeTakesTheseSteps()
    ensures IsPicked(STATES[2].store.version, KA, KA, 1, 2)
    ensures IsPicked(STATES[5].store.version, KZ, KZ, 1, 2)
    ensures IsPicked(STATES[8].store.version, KA, KA, 1, 1)
    ensures IsPicked(STATES[11].store.version, KZ, KZ, 1, 1)
    ensures IsPicked(STATES[15].store.version, KM, KM, 1, 2)
    ensures RangeFiles(STATES[12].store.version, 1, None, None, 10) == [UPPER_A, UPPER_Z]
    ensures Emitted(BASE, 1, [A3, A1, Z4, Z2], 4, 5, NO_STOPS, Count, 3, 4).Cut(Count).files == [OUTPUT]
    ensures !ClearStep(STATES[17], STEPS[17])
  {
    hide IsPicked, Levels, RangeFiles, Clear, Emitted;
    OneOutput();
    Picks();
    WholeLevel();
    NotClear();
  }

  function Count(t: seq<Entry>): nat
  {
    |t|
  }

  const NO_STOPS := [false, false, false, false]

  lemma OneOutput()
    ensures Emitted(BASE, 1, [A3, A1, Z4, Z2], 4, 5, NO_STOPS, Count, 3, 4).Cut(Count).files == [OUTPUT]
  {
    Drops();
    hide Obsolete, Levels, Emitted;
    NothingEmitted();
    EmitsOne(0);
    EmitsOne(1);
    EmitsOne(2);
    EmitsOne(3);
    assert [] + [A3] == [A3] && [A3] + [Z4] == [A3, Z4] && [] + [OUTPUT] == [OUTPUT];
  }

  lemma NothingEmitted()
    ensures Emitted(BASE, 1, [A3, A1, Z4, Z2], 4, 5, NO_STOPS, Count, 3, 0) == Outputs([], [], 5)
  {
    hide Levels;
  }

  /** With no stop the entry is added, or dropped. */
  lemma EmitsOne(n: nat)
    requires n < 4
    ensures var input := [A3, A1, Z4, Z2];
      var before := Emitted(BASE, 1, input, 4, 5, NO_STOPS, Count, 3, n);
      Emitted(BASE, 1, input, 4, 5, NO_STOPS, Count, 3, n + 1) ==
        if Obsolete(BASE, 1, Elements(input), 4, input[n]) then before else before.Add(input[n], Count, 3)
  {
    hide Obsolete, Levels, Outputs.Add, Outputs.Cut;
  }

  lemma Picks()
    ensures IsPicked(Levels([], []), KA, KA, 1, 2) && IsPicked(Levels([], [LOWER_A]), KZ, KZ, 1, 2)
    ensures IsPicked(Levels([], BOTH), KA, KA, 1, 1) && IsPicked(Levels([UPPER_A], BOTH), KZ, KZ, 1, 1)
    ensures IsPicked(Levels([UPPER_A, UPPER_Z], BOTH), KM, KM, 1, 2)
  {
    hide IsPicked, Levels;
    KeyOrder();
    Sinks([], [], KA);
    Sinks([], [LOWER_A], KZ);
    Stops([], KA);
    Stops([UPPER_A], KZ);
    Sinks([UPPER_A, UPPER_Z], BOTH, KM);
  }

  lemma Sinks(l1: seq<File>, l2: seq<File>, k: UserKey)
    requires (forall f :: f in l1 || f in l2 ==> !Meets(f, k, k)) && (l2 == [] || l2 == [LOWER_A] || l2 == BOTH)
    ensures IsPicked(Levels(l1, l2), k, k, 1, 2)
  {
    UnderOne(LOWER_A, LOWER_Z, k);
    hide Under;
    var v := Levels(l1, l2);
    assert v[0] == [] && v[1] == l1 && v[2] == l2 && v[3] == [];
  }

  lemma Stops(l1: seq<File>, k: UserKey)
    requires (forall f :: f in l1 ==> !Meets(f, k, k)) && (k == KA || k == KZ)
    ensures IsPicked(Levels(l1, BOTH), k, k, 1, 1)
  {
    UnderOne(LOWER_A, LOWER_Z, k);
    hide Under;
    var v := Levels(l1, BOTH);
    assert v[0] == [] && v[1] == l1 && v[2] == BOTH;
    var f := if k == KA then LOWER_A else LOWER_Z;
    assert InLevel(v, 2, f) && Meets(f, k, k);
  }

  lemma WholeLevel()
    ensures RangeFiles(BASE, 1, None, None, 10) == [UPPER_A, UPPER_Z]
  {
    var files := [UPPER_A, UPPER_Z];
    assert BASE[1] == files && files[..1] == [UPPER_A] && [UPPER_A][..0] == [];
    assert Under(files[..1], None, None) == [UPPER_A];
    assert Under(files, None, None) == files;
    assert FilesWithin(files, 10, 0) == 2;
  }

  lemma NotClear()
    ensures !Clear(BASE, Levels([UPPER_A, UPPER_Z], [LOWER_A, BETWEEN, LOWER_Z]), 1, [OUTPUT])
  {
    KeyOrder();
    var v := Levels([UPPER_A, UPPER_Z], [LOWER_A, BETWEEN, LOWER_Z]);
    assert v[2] == [LOWER_A, BETWEEN, LOWER_Z] && BASE[2] == BOTH;
    assert Arrived(BASE, v, 2, BETWEEN) && OUTPUT in [OUTPUT];
  }
}
