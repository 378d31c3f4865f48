/** Background work end to end: what BackgroundCompaction and CompactMemTable do to a store is one step of
    its state machine (db/db_impl.cc). */
module Background {
  import opened Keys
  import opened Lists
  import opened Files
  import opened Selection
  import opened Compaction
  import opened Steps
  import opened Manifest
  import opened Merger
  import opened Store

  // ---------- the merged input ----------

  ghost predicate Comparable(E: seq<Entry>)
  {
    forall a, b :: a in E && b in E ==> a == b || Before(a.key, b.key) || Before(b.key, a.key)
  }

  lemma {:induction false} Insert(t: seq<Entry>, e: Entry) returns (r: seq<Entry>)
    requires SortedTable(t) && forall d :: d in t ==> Before(e.key, d.key) || Before(d.key, e.key)
    ensures SortedTable(r) && forall d :: d in r <==> d in t || d == e
  {
    if t == [] || Before(e.key, t[0].key) {
      r := [e] + t;
      forall i | 0 <= i < |t| ensures Before(e.key, t[i].key) { assert i > 0 ==> Before(t[0].key, t[i].key); }
    } else {
      assert t == [t[0]] + t[1..];
      var rest := Insert(t[1..], e);
      r := [t[0]] + rest;
      forall i | 0 <= i < |rest| ensures Before(t[0].key, rest[i].key) {
        assert rest[i] in rest;
        if rest[i] != e {
          var j :| 0 <= j < |t[1..]| && t[1..][j] == rest[i];
          assert Before(t[0].key, t[j + 1].key);
        }
      }
    }
  }

  lemma {:induction false} Sort(E: seq<Entry>) returns (r: seq<Entry>)
    requires Comparable(E)
    ensures SortedTable(r) && forall d :: d in r <==> d in E
  {
    if E == [] {
      r := [];
    } else {
      assert E == [E[0]] + E[1..];
      r := Sort(E[1..]);
      if E[0] !in r {
        r := Insert(r, E[0]);
      }
    }
  }

  /** Reading a merging iterator to the end gives the sorted union of its children. */
  method Drain(children: seq<seq<Entry>>, ghost all: seq<Entry>) returns (input: seq<Entry>)
    requires AllSorted(children) && KeysDiffer(children) && IsUnion(all, children)
    ensures input == all
  {
    hide AllSorted, KeysDiffer, IsUnion, CutAt, BackAt;
    var it := new MergingIterator(children, all);
    it.SeekToFirst();
    input := [];
    while it.IsValid()
      invariant fresh(it) && it.Valid() && it.all == all && it.at == |input| && input == all[..|input|]
      decreases |all| - |input|
    {
      input := input + [it.Entry()];
      it.Next();
    }
  }

  ghost predicate IsInput(v: Version, level: nat, f: File)
  {
    InLevel(v, level, f) || InLevel(v, level + 1, f)
  }

  function Tables(files: seq<File>): (r: seq<seq<Entry>>)
    ensures |r| == |files| && forall i :: 0 <= i < |r| ==> r[i] == files[i].table
  {
    seq(|files|, i requires 0 <= i < |files| => files[i].table)
  }

  /** Entries of different input files have different keys. */
  lemma InputsDiffer(v: Version, level: nat, files: seq<File>)
    requires Layered(v) && Distinct(Entries(v)) && NoDups(files) && forall f :: f in files ==> IsInput(v, level, f)
    ensures AllSorted(Tables(files)) && KeysDiffer(Tables(files)) && Comparable(Flatten(Tables(files)))
  {
    forall i | 0 <= i < |files| ensures SortedTable(files[i].table) { assert files[i] in files && FileOk(files[i]); }
    forall i, j, a, b | 0 <= i < |files| && 0 <= j < |files| && a in files[i].table && b in files[j].table
      ensures i == j || Before(a.key, b.key) || Before(b.key, a.key)
      ensures a == b || Before(a.key, b.key) || Before(b.key, a.key)
    {
      EntriesDiffer(v, level, files[i], files[j], a, b);
    }
    forall a, b | a in Flatten(Tables(files)) && b in Flatten(Tables(files))
      ensures a == b || Before(a.key, b.key) || Before(b.key, a.key) {
      FlattenHas(Tables(files), a);
      FlattenHas(Tables(files), b);
    }
  }

  lemma EntriesDiffer(v: Version, level: nat, f: File, g: File, a: Entry, b: Entry)
    requires Layered(v) && Distinct(Entries(v)) && IsInput(v, level, f) && IsInput(v, level, g)
             && a in f.table && b in g.table
    ensures a == b || Before(a.key, b.key) || Before(b.key, a.key)
    ensures a == b ==> f == g
  {}

  ghost function Flatten(children: seq<seq<Entry>>): seq<Entry>
  {
    if children == [] then [] else children[0] + Flatten(children[1..])
  }

  lemma {:induction false} FlattenHas(children: seq<seq<Entry>>, e: Entry)
    ensures e in Flatten(children) <==> exists i :: 0 <= i < |children| && e in children[i]
  {
    if children != [] {
      FlattenHas(children[1..], e);
      if i :| 0 <= i < |children[1..]| && e in children[1..][i] { assert e in children[i + 1]; }
      if i :| 0 <= i < |children| && e in children[i] { assert i > 0 ==> e in children[1..][i - 1]; }
    }
  }

  /** The merged input of a compaction. */
  method MergeInputs(v: Version, level: nat, in0: seq<File>, in1: seq<File>) returns (input: seq<Entry>)
    requires Layered(v) && Distinct(Entries(v)) && ValidInputs(v, level, in0, in1)
    ensures SortedTable(input) && Elements(input) == FileEntries(in0) + FileEntries(in1)
  {
    var files := in0 + in1;
    InputFiles(v, level, in0, in1);
    InputsDiffer(v, level, files);
    hide Layered, Entries, ValidInputs, AllSorted, KeysDiffer, Comparable;
    ghost var all := Sort(Flatten(Tables(files)));
    forall e ensures e in all <==> exists i :: 0 <= i < |files| && e in Tables(files)[i] {
      FlattenHas(Tables(files), e);
    }
    input := Drain(Tables(files), all);
    forall e ensures e in input <==> e in FileEntries(in0) + FileEntries(in1) { InputEntry(in0, in1, e); }
  }

  lemma InputEntry(in0: seq<File>, in1: seq<File>, e: Entry)
    ensures e in FileEntries(in0) + FileEntries(in1) <==> exists i :: 0 <= i < |in0 + in1| && e in Tables(in0 + in1)[i]
  {
    var files := in0 + in1;
    if e in FileEntries(in0) + FileEntries(in1) {
      var f :| f in files && e in f.table;
      var i :| 0 <= i < |files| && files[i] == f;
      assert e in Tables(files)[i];
    }
    if i :| 0 <= i < |files| && e in Tables(files)[i] {
      assert files[i] in files && (files[i] in in0 || files[i] in in1);
    }
  }

  lemma InputFiles(v: Version, level: nat, in0: seq<File>, in1: seq<File>)
    requires Layered(v) && ValidInputs(v, level, in0, in1)
    ensures NoDups(in0 + in1) && forall f :: f in in0 + in1 ==> IsInput(v, level, f)
  {
    var files := in0 + in1;
    forall i, j | 0 <= i < j < |files| ensures files[i] != files[j] {
      if i < |in0| <= j {
        assert InLevel(v, level, files[i]) && InLevel(v, level + 1, files[j]);
      }
    }
  }

  // ---------- installing the result ----------

  /** AddInputDeletions, and the outputs at the next level. */
  function CompactionEdit(level: nat, in0: seq<File>, in1: seq<File>, outputs: seq<File>): VersionEdit
  {
    VersionEdit((set f | f in in0 :: (level, f.number)) + (set f | f in in1 :: (level + 1, f.number)),
                seq(|outputs|, i requires 0 <= i < |outputs| => (level + 1, outputs[i])))
  }

  lemma DeletesInputs(v: Version, level: nat, in0: seq<File>, in1: seq<File>, outputs: seq<File>, l: nat, f: File)
    requires Layered(v) && ValidInputs(v, level, in0, in1) && InLevel(v, l, f)
    ensures (l, f) in Inputs(level, in0, in1) <==> (l, f.number) in CompactionEdit(level, in0, in1, outputs).deleted
  {
    var deleted := CompactionEdit(level, in0, in1, outputs).deleted;
    if (l, f.number) in deleted {
      var g :| (g in in0 && (level, g.number) == (l, f.number)) || (g in in1 && (level + 1, g.number) == (l, f.number));
      assert InLevel(v, l, g);
    }
  }

  lemma EditFits(v: Version, level: nat, in0: seq<File>, in1: seq<File>, outputs: seq<File>, firstNumber: nat)
    requires Layered(v) && ValidInputs(v, level, in0, in1) && Numbered(outputs, firstNumber)
    requires forall l: nat, g :: InLevel(v, l, g) ==> g.number < firstNumber
    ensures var edit := CompactionEdit(level, in0, in1, outputs);
      && EditOk(edit) && Unused(edit, NumbersIn(v)) && (set p | p in edit.added) == Steps.At(level + 1, outputs)
  {
    var edit := CompactionEdit(level, in0, in1, outputs);
    forall i | 0 <= i < |edit.added| ensures edit.added[i].1.number !in NumbersIn(v)[level + 1] {
      if f :| f in v[level + 1] && f.number == edit.added[i].1.number { assert InLevel(v, level + 1, f); }
    }
    forall p ensures p in edit.added <==> p in Steps.At(level + 1, outputs) {
      if p in Steps.At(level + 1, outputs) {
        var f :| f in outputs && p == (level + 1, f);
        var i :| 0 <= i < |outputs| && outputs[i] == f;
        assert edit.added[i] == p;
      }
    }
  }

  method InstallResults(v: Version, level: nat, in0: seq<File>, in1: seq<File>, outputs: seq<File>, firstNumber: nat)
      returns (w: Version)
    requires Layered(v) && Saved(v) && ValidInputs(v, level, in0, in1) && Numbered(outputs, firstNumber)
    requires forall l: nat, g :: InLevel(v, l, g) ==> g.number < firstNumber
    ensures Edited(v, w, Inputs(level, in0, in1), Steps.At(level + 1, outputs)) && Saved(w)
  {
    hide Layered, ValidInputs, Numbered;
    EditFits(v, level, in0, in1, outputs, firstNumber);
    var edit := CompactionEdit(level, in0, in1, outputs);
    w := LogAndApply(v, edit);
    forall l: nat, f | InLevel(v, l, f) ensures (l, f) in Inputs(level, in0, in1) <==> (l, f.number) in edit.deleted {
      DeletesInputs(v, level, in0, in1, outputs, l, f);
    }
    InstallIsEdit(v, edit, w, Inputs(level, in0, in1));
  }

  function Stops(input: seq<Entry>, stopBefore: nat -> bool): (r: seq<bool>)
    ensures |r| == |input|
  {
    seq(|input|, i requires 0 <= i < |input| => stopBefore(i))
  }

  /** DoCompactionWork and InstallCompactionResults on chosen inputs. */
  method RunCompaction(s: Store, level: nat, in0: seq<File>, in1: seq<File>,
                 stopBefore: nat -> bool, sizeOf: seq<Entry> -> nat, maxOutputFileSize: nat)
                     returns (t: Store, ghost step: Step)
    requires Inv(s) && Saved(s.version) && ValidInputs(s.version, level, in0, in1)
    ensures step.Compact? && step.level == level && step.in0 == in0 && step.in1 == in1
    ensures Next(s, t, step) && Saved(t.version)
    ensures CutWhereDue(step.outputs, step.input, Stops(step.input, stopBefore), sizeOf, maxOutputFileSize)
  {
    hide Layered, Entries, ValidInputs, Saved, Above, HistoryOk, Emitted, Kept, Flat, Sealed, Numbered, Edited,
         FileEntries, SortedTable, Distinct, InLevel, CutWhereDue;
    var v, smallest := s.version, SmallestSnapshot(s);
    HistoryDistinct(s);
    var input := MergeInputs(v, level, in0, in1);
    InputsDistinct(s, level, in0, in1, input);
    var outputs := DoCompactionWork(v, level, input, smallest, s.nextNumber, Stops(input, stopBefore),
                                    sizeOf, maxOutputFileSize);
    var w := InstallResults(v, level, in0, in1, outputs, s.nextNumber);
    t := s.(version := w, nextNumber := s.nextNumber + |outputs|, horizon := smallest);
    step := Step.Compact(level, in0, in1, input, outputs);
  }

  lemma InputsDistinct(s: Store, level: nat, in0: seq<File>, in1: seq<File>, input: seq<Entry>)
    requires Inv(s) && ValidInputs(s.version, level, in0, in1) && Elements(input) == FileEntries(in0) + FileEntries(in1)
    ensures Distinct(Elements(input)) && SmallestSnapshot(s) < MAX_SEQUENCE
  {
    HistoryDistinct(s);
    InputsSplit(s, Step.Compact(level, in0, in1, input, []));
  }

  lemma MoveEditFits(v: Version, level: nat, f: File)
    requires Layered(v) && ValidInputs(v, level, [f], [])
    ensures var edit := VersionEdit({(level, f.number)}, [(level + 1, f)]);
      && EditOk(edit) && Unused(edit, NumbersIn(v)) && (set p | p in edit.added) == {(level + 1, f)}
      && forall l: nat, g :: InLevel(v, l, g) ==> ((l, g) in {(level, f)} <==> (l, g.number) in edit.deleted)
  {
    assert f in [f] && InLevel(v, level, f);
    if f.number in NumbersIn(v)[level + 1] {
      var g :| g in v[level + 1] && g.number == f.number;
      assert InLevel(v, level + 1, g);
    }
  }

  /** A file is moved to the next level without being rewritten. */
  method MoveFile(s: Store, level: nat, f: File) returns (t: Store)
    requires Inv(s) && Saved(s.version) && ValidInputs(s.version, level, [f], [])
    ensures Next(s, t, Move(level, f)) && Saved(t.version)
  {
    hide Layered, Above, HistoryOk, ValidInputs;
    MoveEditFits(s.version, level, f);
    var edit := VersionEdit({(level, f.number)}, [(level + 1, f)]);
    var w := LogAndApply(s.version, edit);
    InstallIsEdit(s.version, edit, w, {(level, f)});
    t := s.(version := w);
  }

  /** The files that a compaction or a move takes from its own level. */
  function TakenBy(step: Step): seq<File>
  {
    match step
    case Compact(_, in0, _, _, _) => in0
    case Move(_, f) => [f]
    case _ => []
  }

  /** The files that it takes from the next level. */
  function TakenBelow(step: Step): seq<File>
  {
    if step.Compact? then step.in1 else []
  }

  /** BackgroundCompaction, manual or by size: choose inputs, then move a lone file or rewrite; nothing when there
      is nothing to compact.  `grandparentsSmall` is the outcome of the overlap test of IsTrivialMove. */
  method BackgroundCompaction(s: Store, level: nat, manual: Option<(Option<UserKey>, Option<UserKey>)>,
                              pointer: Option<InternalKey>,
                              fileLimit: nat, sizeLimit: nat, grandparentsSmall: bool,
                              stopBefore: nat -> bool, sizeOf: seq<Entry> -> nat, maxOutputFileSize: nat)
    returns (t: Store, ghost step: Option<Step>)
    requires Inv(s) && Saved(s.version) && level + 1 < NUM_LEVELS
    ensures Inv(t) && Saved(t.version)
    ensures if step.Some? then Next(s, t, step.value) && (step.value.Compact? || (manual.None? && step.value.Move?))
            else t == s
    ensures step.Some? && manual.Some? ==>
              var range := RangeFiles(s.version, level, manual.value.0, manual.value.1, fileLimit);
              && Sublist(range, TakenBy(step.value))
              && Chosen(s.version, level, FileSet(range), sizeLimit, TakenBy(step.value), TakenBelow(step.value))
    ensures step.Some? && manual.None? ==>
              exists f :: IsNextFile(s.version[level], pointer, f) && f in TakenBy(step.value)
                          && Chosen(s.version, level, {f}, sizeLimit, TakenBy(step.value), TakenBelow(step.value))
    ensures step.Some? ==>
              (step.value.Move? <==>
                manual.None? && |TakenBy(step.value)| == 1 && TakenBelow(step.value) == [] && grandparentsSmall)
    ensures step.None? <==>
              if manual.Some? then forall f :: f in s.version[level] ==> !Overlaps(f, manual.value.0, manual.value.1)
              else s.version[level] == []
  {
    assert Layered(s.version) && |s.version| == NUM_LEVELS;
    hide Inv, Layered, ValidInputs, Saved, Next, RangeFiles, IsNextFile, Chosen, CutWhereDue, FileSet;
    var in0, in1 := [], [];
    if manual.Some? {
      in0, in1 := CompactRange(s.version, level, manual.value.0, manual.value.1, fileLimit, sizeLimit);
      if in0 == [] {
        NoInputs(s.version, level, in1);
        return s, None;
      }
    } else if s.version[level] == [] {
      return s, None;
    } else {
      in0, in1 := PickCompaction(s.version, level, pointer, sizeLimit);
    }
    if manual.None? && |in0| == 1 && |in1| == 0 && grandparentsSmall {
      assert in0 == [in0[0]] && in1 == [];
      t := MoveFile(s, level, in0[0]);
      step := Some(Move(level, in0[0]));
    } else {
      ghost var compact;
      t, compact := RunCompaction(s, level, in0, in1, stopBefore, sizeOf, maxOutputFileSize);
      step := Some(compact);
    }
    StepKeepsInv(s, t, step.value);
  }

  lemma NoInputs(v: Version, level: nat, in1: seq<File>)
    ensures !ValidInputs(v, level, [], in1)
  {}

  lemma FlushEditFits(v: Version, level: nat, f: File)
    requires Layered(v) && level < NUM_LEVELS && forall l: nat, g :: InLevel(v, l, g) ==> g.number < f.number
    ensures var edit := VersionEdit({}, [(level, f)]);
      && EditOk(edit) && Unused(edit, NumbersIn(v)) && (set p | p in edit.added) == {(level, f)}
  {
    if f.number in NumbersIn(v)[level] {
      var g :| g in v[level] && g.number == f.number;
      assert InLevel(v, level, g);
    }
  }

  /** CompactMemTable: the immutable memtable becomes a table at the picked level. */
  method CompactMemTable(s: Store, size: nat, maxFileSize: nat) returns (t: Store, ghost step: Step)
    requires Inv(s) && Saved(s.version) && s.imm.Some?
    ensures step.Flush? && Next(s, t, step) && Saved(t.version) && Inv(t)
    ensures s.imm.value != [] ==>
              var f := FlushedFile(s.nextNumber, step.size, s.imm.value);
              step.size == size && IsPicked(s.version, f.smallest.user, f.largest.user, maxFileSize, step.level)
  {
    if s.imm.value == [] {
      t, step := s.(imm := None), Flush(0, size);
    } else {
      BelowMax(s);
      var f := FlushedFile(s.nextNumber, size, s.imm.value);
      var level := PickLevelForMemTableOutput(s.version, f.smallest.user, f.largest.user, maxFileSize);
      FlushEditFits(s.version, level, f);
      hide Layered, Above, HistoryOk, Contents, Memory;
      var w := LogAndApply(s.version, VersionEdit({}, [(level, f)]));
      InstallIsEdit(s.version, VersionEdit({}, [(level, f)]), w, {});
      t, step := s.(imm := None, version := w, nextNumber := s.nextNumber + 1), Flush(level, size);
    }
    hide Inv;
    StepKeepsInv(s, t, step);
  }

  lemma BelowMax(s: Store)
    requires Inv(s)
    ensures forall e :: e in Entries(s.version) ==> e.key.sequence < MAX_SEQUENCE
  {}
}
