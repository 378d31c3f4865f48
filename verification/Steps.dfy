/** What one edit of the version keeps: flushing a memtable, moving a file down, and installing the
    outputs of a compaction (db/db_impl.cc, db/version_set.cc). */
module Steps {
  import opened Keys
  import opened Lists
  import opened Files
  import opened Selection
  import opened Compaction

  /** The order of the files in a level: by smallest key, then by number. */
  predicate SmallestBefore(f: File, g: File)
  {
    Before(f.smallest, g.smallest) || (f.smallest == g.smallest && f.number < g.number)
  }

  ghost predicate BySmallest(files: seq<File>)
  {
    forall i, j :: 0 <= i < j < |files| ==> SmallestBefore(files[i], files[j])
  }

  /** Files that begin alike are ordered by age. */
  lemma BySmallestIs(files: seq<File>)
    ensures BySmallest(files) <==> forall i, j :: 0 <= i < j < |files| ==>
              || Before(files[i].smallest, files[j].smallest)
              || (files[i].smallest == files[j].smallest && files[i].number < files[j].number)
  {}

  /** `w` is `v` without the removed files and with the added ones, every level in file order. */
  ghost predicate Edited(v: Version, w: Version, removed: set<(nat, File)>, added: set<(nat, File)>)
  {
    && |w| == |v|
    && (forall l :: 0 <= l < |w| ==> BySmallest(w[l]))
    && forall l: nat, f :: InLevel(w, l, f) <==>
         l < |v| && ((InLevel(v, l, f) && (l, f) !in removed) || (l, f) in added)
  }

  lemma PairwiseDisjoint(files: seq<File>)
    requires FilesOk(files) && BySmallest(files)
    requires forall f, g :: f in files && g in files && f != g ==>
             Before(f.largest, g.smallest) || Before(g.largest, f.smallest)
    ensures Disjoint(files)
  {}

  /** What an edit must respect, file by file. */
  ghost predicate Fits(v: Version, removed: set<(nat, File)>, added: set<(nat, File)>)
  {
    && (forall p :: p in added ==> p.0 < NUM_LEVELS && FileOk(p.1))
    && (forall p, q :: p in added && q in added && p.1.number == q.1.number ==> p == q)
    && (forall p, l: nat, f :: p in added && InLevel(v, l, f) && (l, f) !in removed ==> f.number != p.1.number)
    && (forall p, q :: p in added && q in added ==> Compatible(p, q))
    && (forall p, l: nat, f :: p in added && InLevel(v, l, f) && (l, f) !in removed ==> Compatible(p, (l, f)))
  }

  /** Two files at their levels respect the layering. */
  ghost predicate Compatible(p: (nat, File), q: (nat, File))
  {
    && (p.0 < q.0 ==> Newer(p.1, q.1))
    && (q.0 < p.0 ==> Newer(q.1, p.1))
    && (p.0 == q.0 == 0 && p.1.number > q.1.number ==> Newer(p.1, q.1))
    && (p.0 == q.0 == 0 && q.1.number > p.1.number ==> Newer(q.1, p.1))
    && (p.0 == q.0 > 0 && p.1 != q.1 ==> Before(p.1.largest, q.1.smallest) || Before(q.1.largest, p.1.smallest))
  }

  lemma EditedCompatible(v: Version, w: Version, removed: set<(nat, File)>, added: set<(nat, File)>,
                         l: nat, f: File, m: nat, g: File)
    requires Layered(v) && Edited(v, w, removed, added) && Fits(v, removed, added)
    requires InLevel(w, l, f) && InLevel(w, m, g)
    ensures Compatible((l, f), (m, g))
    ensures f.number == g.number ==> l == m && f == g
    ensures FileOk(f)
  {}

  /** An edit that fits keeps the layering invariant. */
  lemma FittingEditKeepsLayers(v: Version, w: Version, removed: set<(nat, File)>, added: set<(nat, File)>)
    requires Layered(v) && Edited(v, w, removed, added) && Fits(v, removed, added)
    ensures Layered(w)
  {
    forall l: nat, f, m: nat, g | InLevel(w, l, f) && InLevel(w, m, g)
      ensures Compatible((l, f), (m, g)) && (f.number == g.number ==> l == m && f == g) && FileOk(f)
    {
      EditedCompatible(v, w, removed, added, l, f, m, g);
    }
    LayersFromPairs(w);
  }

  lemma LevelDisjoint(w: Version, l: nat)
    requires 1 <= l < |w| && BySmallest(w[l])
    requires forall l: nat, f, m: nat, g :: InLevel(w, l, f) && InLevel(w, m, g) ==>
               Compatible((l, f), (m, g)) && (f.number == g.number ==> l == m && f == g) && FileOk(f)
    ensures Disjoint(w[l])
  {
    forall f, g | f in w[l] && g in w[l]
      ensures FileOk(f) && (f == g || Before(f.largest, g.smallest) || Before(g.largest, f.smallest))
    {
      assert InLevel(w, l, f) && InLevel(w, l, g);
      assert Compatible((l, f), (l, g));
    }
    PairwiseDisjoint(w[l]);
  }

  lemma LayersFromPairs(w: Version)
    requires |w| == NUM_LEVELS && forall l :: 0 <= l < |w| ==> BySmallest(w[l])
    requires forall l: nat, f, m: nat, g :: InLevel(w, l, f) && InLevel(w, m, g) ==>
               Compatible((l, f), (m, g)) && (f.number == g.number ==> l == m && f == g) && FileOk(f)
    ensures Layered(w)
  {
    forall l | 1 <= l < |w| ensures Disjoint(w[l]) { LevelDisjoint(w, l); }
    hide Disjoint, FileOk, Newer;
    forall f, g | f in w[0] && g in w[0] && f.number > g.number ensures Newer(f, g) {
      assert InLevel(w, 0, f) && InLevel(w, 0, g);
      assert Compatible((0, f), (0, g));
    }
    forall l: nat, f, m: nat, g | l < m && InLevel(w, l, f) && InLevel(w, m, g) ensures Newer(f, g) {
      assert Compatible((l, f), (m, g));
    }
    assert NoDups(w[0]) by {
      assert BySmallest(w[0]);
    }
    assert forall l: nat, f :: InLevel(w, l, f) ==> FileOk(f);
  }

  // ---------- flushing a memtable ----------

  /** WriteLevel0Table: a fresh file whose entries are newer than everything in the version fits at the picked level. */
  lemma FlushFits(v: Version, level: nat, f: File)
    requires Layered(v) && level < NUM_LEVELS && FileOk(f)
    requires forall l: nat, g :: InLevel(v, l, g) ==> Newer(f, g) && g.number < f.number
    requires level > 0 ==> forall l: nat, g :: l <= level && InLevel(v, l, g) ==>
             !Meets(g, f.smallest.user, f.largest.user)
    ensures Fits(v, {}, {(level, f)})
  {
    forall l: nat, g | InLevel(v, l, g) ensures Compatible((level, f), (l, g)) {
      if l < level {
        forall e, d | e in g.table && d in f.table && e.key.user == d.key.user ensures false {
          FileRange(g, e);
          FileRange(f, d);
        }
      }
    }
  }

  // ---------- what moves down one level ----------

  /** Every entry of `o` is taken from an input file. */
  ghost predicate TakenFrom(o: File, in0: seq<File>, in1: seq<File>)
  {
    forall e :: e in o.table ==> exists f :: (f in in0 || f in in1) && e in f.table
  }

  lemma MeetsHull(in0: seq<File>, f: File, g: File)
    requires f in in0 && Meets(g, f.smallest.user, f.largest.user)
    ensures InHull(in0, g)
  {}

  /** Files left at the compacted level stay newer than what moves below them. */
  lemma LeftBehindIsNewer(v: Version, level: nat, in0: seq<File>, in1: seq<File>, g: File, e: Entry, f: File, d: Entry)
    requires Layered(v) && ValidInputs(v, level, in0, in1) && Distinct(Entries(v))
    requires InLevel(v, level, g) && g !in in0 && e in g.table
    requires (f in in0 || f in in1) && d in f.table && e.key.user == d.key.user
    ensures e.key.sequence > d.key.sequence
  {
    if f in in1 {
      assert InLevel(v, level + 1, f) && Newer(g, f);
    } else {
      assert InLevel(v, level, f);
      FileRange(g, e);
      FileRange(f, d);
      if level == 0 {
        MeetsHull(in0, f, g);
      } else {
        LeftBeforeInput(v, level, in0, in1, g, f);
        EntryOf(v, level, g, e);
        EntryOf(v, level, f, d);
      }
    }
  }

  lemma LeftBeforeInput(v: Version, level: nat, in0: seq<File>, in1: seq<File>, g: File, f: File)
    requires Layered(v) && ValidInputs(v, level, in0, in1) && level > 0
    requires InLevel(v, level, g) && InLevel(v, level, f) && g !in in0 && f in in0 && g.largest.user == f.smallest.user
    ensures Before(g.largest, f.smallest)
  {
    LevelOk(v, level);
    DisjointPair(v[level], g, f);
  }

  /** A file left at the next level lies wholly before or wholly after all inputs. */
  lemma LeftNextIsApart(v: Version, level: nat, in0: seq<File>, in1: seq<File>, g: File) returns (after: bool)
    requires Layered(v) && ValidInputs(v, level, in0, in1)
    requires InLevel(v, level + 1, g) && g !in in1
    ensures after ==> forall f :: f in in0 || f in in1 ==> Before(f.largest, g.smallest)
    ensures !after ==> forall f :: f in in0 || f in in1 ==> Before(g.largest, f.smallest)
  {
    after := forall h :: h in in0 ==> h.largest.user < g.smallest.user;
    assert !InHull(in0, g);
    assert !after ==> forall f :: f in in0 ==> g.largest.user < f.smallest.user;
    LevelOk(v, level + 1);
    forall k | k in in1
      ensures after ==> Before(k.largest, g.smallest)
      ensures !after ==> Before(g.largest, k.smallest)
    {
      assert InHull(in0, k);
      DisjointPair(v[level + 1], k, g);
      StartNotAfterEnd(k);
      StartNotAfterEnd(g);
    }
  }

  lemma OutputCompatible(v: Version, level: nat, in0: seq<File>, in1: seq<File>, o: File, l: nat, g: File)
    requires Layered(v) && ValidInputs(v, level, in0, in1) && Distinct(Entries(v))
    requires FileOk(o) && TakenFrom(o, in0, in1)
    requires InLevel(v, l, g) && !(l == level && g in in0) && !(l == level + 1 && g in in1)
    ensures Compatible((level + 1, o), (l, g))
  {
    if l == level + 1 {
      OutputApart(v, level, in0, in1, o, g);
    } else {
      forall e, d | e in g.table && d in o.table && e.key.user == d.key.user
        ensures if l <= level then e.key.sequence > d.key.sequence else d.key.sequence > e.key.sequence
      {
        var f :| (f in in0 || f in in1) && d in f.table;
        if l == level {
          LeftBehindIsNewer(v, level, in0, in1, g, e, f, d);
        } else {
          var m := if f in in0 then level else level + 1;
          assert InLevel(v, m, f);
          assert if l < level then Newer(g, f) else Newer(f, g);
        }
      }
    }
  }

  lemma OutputApart(v: Version, level: nat, in0: seq<File>, in1: seq<File>, o: File, g: File)
    requires Layered(v) && ValidInputs(v, level, in0, in1)
    requires FileOk(o) && TakenFrom(o, in0, in1)
    requires InLevel(v, level + 1, g) && g !in in1
    ensures Before(o.largest, g.smallest) || Before(g.largest, o.smallest)
  {
    var after := LeftNextIsApart(v, level, in0, in1, g);
    var e := if after then o.table[|o.table| - 1] else o.table[0];
    assert e in o.table;
    var f :| (f in in0 || f in in1) && e in f.table;
    assert InLevel(v, if f in in0 then level else level + 1, f);
    FileRange(f, e);
  }

  ghost function Inputs(level: nat, in0: seq<File>, in1: seq<File>): set<(nat, File)>
  {
    (set f | f in in0 :: (level, f)) + (set f | f in in1 :: (level + 1, f))
  }

  ghost function At(level: nat, files: seq<File>): set<(nat, File)>
  {
    set f | f in files :: (level, f)
  }

  /** IsTrivialMove: a single input with nothing beside it below fits one level down. */
  lemma MoveFits(v: Version, level: nat, f: File)
    requires Layered(v) && ValidInputs(v, level, [f], []) && Distinct(Entries(v))
    ensures Fits(v, {(level, f)}, {(level + 1, f)})
  {
    assert f in [f] && InLevel(v, level, f);
    forall l: nat, g | InLevel(v, l, g) && (l, g) !in {(level, f)}
      ensures Compatible((level + 1, f), (l, g)) && g.number != f.number
    {
      OutputCompatible(v, level, [f], [], f, l, g);
    }
  }

  lemma InputsInside(v: Version, level: nat, in0: seq<File>, in1: seq<File>)
    requires ValidInputs(v, level, in0, in1)
    ensures |v| == NUM_LEVELS && level + 1 < NUM_LEVELS
  {}

  /** InstallCompactionResults: the output files fit in place of the inputs. */
  lemma CompactionFits(v: Version, level: nat, in0: seq<File>, in1: seq<File>, outputs: seq<File>, firstNumber: nat)
    requires Layered(v) && ValidInputs(v, level, in0, in1) && Distinct(Entries(v))
    requires FilesOk(outputs) && Disjoint(outputs) && Numbered(outputs, firstNumber)
    requires forall l: nat, g :: InLevel(v, l, g) ==> g.number < firstNumber
    requires forall o :: o in outputs ==> TakenFrom(o, in0, in1)
    ensures Fits(v, Inputs(level, in0, in1), At(level + 1, outputs))
  {
    var removed, added := Inputs(level, in0, in1), At(level + 1, outputs);
    forall p, l: nat, g | p in added && InLevel(v, l, g) && (l, g) !in removed
      ensures Compatible(p, (l, g)) && g.number != p.1.number
    {
      OutputCompatible(v, level, in0, in1, p.1, l, g);
    }
    forall p, q | p in added && q in added
      ensures Compatible(p, q) && (p.1.number == q.1.number ==> p == q)
    {
      DisjointPair(outputs, p.1, q.1);
    }
  }

  // ---------- inputs and the rest ----------

  /** An entry lives in one file only. */
  lemma OneHome(v: Version, l: nat, f: File, m: nat, g: File, e: Entry)
    requires Layered(v) && InLevel(v, l, f) && InLevel(v, m, g) && e in f.table && e in g.table
    ensures l == m && f == g
  {}

  ghost predicate Holds(v: Version, level: nat, in0: seq<File>, in1: seq<File>)
  {
    level + 1 < |v| && Sublist(in0, v[level]) && Sublist(in1, v[level + 1])
  }

  lemma InputHome(v: Version, level: nat, in0: seq<File>, in1: seq<File>, e: Entry) returns (l: nat, f: File)
    requires Holds(v, level, in0, in1) && e in FileEntries(in0) + FileEntries(in1)
    ensures InLevel(v, l, f) && (l, f) in Inputs(level, in0, in1) && e in f.table
    ensures (l == level && f in in0) || (l == level + 1 && f in in1)
  {
    if e in FileEntries(in0) {
      l := level;
      f :| f in in0 && e in f.table;
    } else {
      l := level + 1;
      f :| f in in1 && e in f.table;
    }
  }

  lemma DeeperFile(v: Version, level: nat, in0: seq<File>, in1: seq<File>, l: nat, f: File,
                   e: Entry, m: nat, g: File, d: Entry)
    requires Layered(v) && ValidInputs(v, level, in0, in1) && Distinct(Entries(v))
    requires InLevel(v, l, f) && e in f.table && ((l == level && f in in0) || (l == level + 1 && f in in1))
    requires InLevel(v, m, g) && d in g.table && !(m == level && g in in0) && m != level + 1
    requires e.key.user == d.key.user && d.key.sequence < e.key.sequence
    ensures !BaseLevel(v, level, e.key.user)
  {
    FileRange(g, d);
    if m == level {
      LeftBehindIsNewer(v, level, in0, in1, g, d, f, e);
    }
    assert m < level ==> Newer(g, f);
  }

  /** Apart from what the next level keeps, whatever is older than an input lies deeper than both input levels,
      also when newer entries have come since the inputs were chosen. */
  lemma SplitsOff(v: Version, level: nat, in0: seq<File>, in1: seq<File>, all: set<Entry>)
    requires Layered(v) && ValidInputs(v, level, in0, in1)
    requires Entries(v) <= all && Distinct(all) && Above(all - Entries(v), Entries(v))
    ensures level + 1 < |v| && FileEntries(in0) + FileEntries(in1) <= Entries(v)
    ensures var inputs := FileEntries(in0) + FileEntries(in1);
      Split(v, level, inputs, all - inputs, LeftNext(v, level, in1))
  {
    InputsInside(v, level, in0, in1);
    InputsTaken(v, level, in0, in1);
    var inputs, next := FileEntries(in0) + FileEntries(in1), LeftNext(v, level, in1);
    forall e, d | e in inputs && d in all - inputs - next && e.key.user == d.key.user && d.key.sequence < e.key.sequence
      ensures !BaseLevel(v, level, e.key.user)
    {
      assert d in Entries(v);
      OlderIsDeeper(v, level, in0, in1, e, d);
    }
    hide Layered, ValidInputs, Entries, FileEntries, BaseLevel, LeftNext;
    assert inputs + (all - inputs) == all;
  }

  lemma InputsTaken(v: Version, level: nat, in0: seq<File>, in1: seq<File>)
    requires Layered(v) && ValidInputs(v, level, in0, in1) && level + 1 < |v|
    ensures var inputs := FileEntries(in0) + FileEntries(in1);
      inputs <= Entries(v) && LeftNext(v, level, in1) <= Entries(v) - inputs
  {
    var inputs := FileEntries(in0) + FileEntries(in1);
    forall e | e in inputs ensures e in Entries(v) {
      var l, f := InputHome(v, level, in0, in1, e);
      EntryOf(v, l, f, e);
    }
    forall e | e in LeftNext(v, level, in1) ensures e in Entries(v) && e !in inputs {
      var g :| g in v[level + 1] && g !in in1 && e in g.table;
      EntryOf(v, level + 1, g, e);
      if e in inputs {
        var l, f := InputHome(v, level, in0, in1, e);
        OneHome(v, l, f, level + 1, g, e);
      }
    }
  }

  lemma OlderIsDeeper(v: Version, level: nat, in0: seq<File>, in1: seq<File>, e: Entry, d: Entry)
    requires Layered(v) && ValidInputs(v, level, in0, in1) && Distinct(Entries(v)) && level + 1 < |v|
    requires e in FileEntries(in0) + FileEntries(in1) && d in Entries(v)
    requires d !in FileEntries(in0) + FileEntries(in1) && d !in LeftNext(v, level, in1)
    requires e.key.user == d.key.user && d.key.sequence < e.key.sequence
    ensures !BaseLevel(v, level, e.key.user)
  {
    var m, g := HomeOf(v, d);
    var l, f := InputHome(v, level, in0, in1, e);
    assert !(m == level && g in in0) && m != level + 1;
    hide Layered, ValidInputs, Entries;
    DeeperFile(v, level, in0, in1, l, f, e, m, g, d);
  }
}
