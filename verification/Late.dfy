/** A compaction whose outputs are installed after memtables were flushed beside it: DoCompactionWork calls
    CompactMemTable between two entries (db/db_impl.cc), which picks a level without regard to the outputs. */
module Late {
  import opened Keys
  import opened Lists
  import opened Files
  import opened Selection
  import opened Compaction
  import opened Steps

  /** The file came to the version since it was `base`. */
  predicate Arrived(base: Version, v: Version, l: nat, g: File)
  {
    InLevel(v, l, g) && !InLevel(base, l, g)
  }

  /** A flushed file: newer than everything in `base`, at a level that it could sink to. */
  ghost predicate Landed(base: Version, l: nat, g: File)
  {
    && FileOk(g)
    && (forall m: nat, f :: InLevel(base, m, f) ==> AllNewer(g, f))
    && (l > 0 ==> forall m: nat, f :: m <= l && InLevel(base, m, f) ==> !Meets(f, g.smallest.user, g.largest.user))
  }

  ghost predicate AllNewer(g: File, f: File)
  {
    forall e, d :: e in g.table && d in f.table ==> e.key.sequence > d.key.sequence
  }

  /** Since `base`, nothing has happened to the version but flushes. */
  ghost predicate Grown(base: Version, v: Version)
  {
    && |v| == |base| == NUM_LEVELS
    && (forall l: nat, f :: InLevel(base, l, f) ==> InLevel(v, l, f))
    && (forall l: nat, g :: Arrived(base, v, l, g) ==> Landed(base, l, g))
  }

  lemma FlushGrows(base: Version, v: Version, w: Version, level: nat, f: File)
    requires Grown(base, v) && Edited(v, w, {}, {(level, f)}) && FileOk(f)
    requires forall l: nat, g :: InLevel(v, l, g) ==> AllNewer(f, g)
    requires level > 0 ==> forall l: nat, g :: l <= level && InLevel(v, l, g) ==>
             !Meets(g, f.smallest.user, f.largest.user)
    ensures Grown(base, w)
  {
    hide FileOk, AllNewer, Meets;
    forall l: nat, g | Arrived(base, w, l, g) ensures Landed(base, l, g) {
      if (l, g) != (level, f) {
        assert Arrived(base, v, l, g);
      }
    }
  }

  /** What has come since is newer than all that was there. */
  lemma GrownEntries(base: Version, v: Version)
    requires Grown(base, v)
    ensures Entries(base) <= Entries(v) && Above(Entries(v) - Entries(base), Entries(base))
  {
    forall e | e in Entries(base) ensures e in Entries(v) {
      var l, f := HomeOf(base, e);
      EntryOf(v, l, f, e);
    }
    forall e, d | e in Entries(v) - Entries(base) && d in Entries(base) ensures e.key.sequence > d.key.sequence {
      var l, g := HomeOf(v, e);
      var m, f := HomeOf(base, d);
      if InLevel(base, l, g) { EntryOf(base, l, g, e); }
      assert Arrived(base, v, l, g) && AllNewer(g, f);
    }
  }

  /** Every file that reached the output level in the meantime lies wholly before or wholly after every output. */
  ghost predicate Clear(base: Version, v: Version, level: nat, outputs: seq<File>)
  {
    forall g, o :: Arrived(base, v, level + 1, g) && o in outputs ==>
      Before(o.largest, g.smallest) || Before(g.largest, o.smallest)
  }

  ghost predicate NewNumbers(v: Version, outputs: seq<File>)
  {
    && (forall i, j :: 0 <= i < j < |outputs| ==> outputs[i].number != outputs[j].number)
    && (forall l: nat, g, o :: InLevel(v, l, g) && o in outputs ==> g.number != o.number)
  }

  /** Outside the output level an output respects whatever was flushed meanwhile. */
  lemma LandedCompatible(base: Version, level: nat, in0: seq<File>, in1: seq<File>, o: File, l: nat, g: File)
    requires |base| == NUM_LEVELS && ValidInputs(base, level, in0, in1)
             && (forall m: nat, f :: InLevel(base, m, f) ==> FileOk(f))
    requires FileOk(o) && TakenFrom(o, in0, in1) && Landed(base, l, g) && l != level + 1
    ensures Compatible((level + 1, o), (l, g))
  {
    forall e, d | e in g.table && d in o.table && e.key.user == d.key.user
      ensures l < level + 1 && e.key.sequence > d.key.sequence
    {
      var f :| (f in in0 || f in in1) && d in f.table;
      var m := if f in in0 then level else level + 1;
      assert InLevel(base, m, f) && AllNewer(g, f);
      FileRange(f, d);
      FileRange(g, e);
    }
  }

  /** The outputs fit into the version as it has become, if and only if they are clear of the files that arrived. */
  lemma LateFits(base: Version, v: Version, level: nat, in0: seq<File>, in1: seq<File>, outputs: seq<File>)
    requires Layered(base) && Distinct(Entries(base)) && Grown(base, v) && ValidInputs(base, level, in0, in1)
    requires FilesOk(outputs) && Disjoint(outputs) && NewNumbers(v, outputs)
    requires forall o :: o in outputs ==> TakenFrom(o, in0, in1)
    ensures Fits(v, Inputs(level, in0, in1), At(level + 1, outputs)) <==> Clear(base, v, level, outputs)
  {
    var removed, added := Inputs(level, in0, in1), At(level + 1, outputs);
    if Fits(v, removed, added) {
      FitsMeansClear(base, v, level, in0, in1, outputs);
    } else if Clear(base, v, level, outputs) {
      ClearFits(base, v, level, in0, in1, outputs);
    }
  }

  lemma FitsMeansClear(base: Version, v: Version, level: nat, in0: seq<File>, in1: seq<File>, outputs: seq<File>)
    requires ValidInputs(base, level, in0, in1) && Fits(v, Inputs(level, in0, in1), At(level + 1, outputs))
    ensures Clear(base, v, level, outputs)
  {
    forall g, o | Arrived(base, v, level + 1, g) && o in outputs
      ensures Before(o.largest, g.smallest) || Before(g.largest, o.smallest)
    {
      assert (level + 1, g) !in Inputs(level, in0, in1);
      assert (level + 1, o) in At(level + 1, outputs);
      assert g.number != o.number && Compatible((level + 1, o), (level + 1, g));
    }
  }

  lemma ClearFits(base: Version, v: Version, level: nat, in0: seq<File>, in1: seq<File>, outputs: seq<File>)
    requires Layered(base) && Distinct(Entries(base)) && Grown(base, v) && ValidInputs(base, level, in0, in1)
    requires FilesOk(outputs) && Disjoint(outputs) && NewNumbers(v, outputs)
    requires forall o :: o in outputs ==> TakenFrom(o, in0, in1)
    requires Clear(base, v, level, outputs)
    ensures Fits(v, Inputs(level, in0, in1), At(level + 1, outputs))
  {
    hide Layered, Distinct, Entries, ValidInputs, FileOk, TakenFrom, Landed, Compatible, Grown, Before;
    var removed, added := Inputs(level, in0, in1), At(level + 1, outputs);
    forall p, l: nat, g | p in added && InLevel(v, l, g) && (l, g) !in removed
      ensures Compatible(p, (l, g)) && g.number != p.1.number
    {
      OutputFits(base, v, level, in0, in1, outputs, p.1, l, g);
    }
    forall p, q | p in added && q in added
      ensures Compatible(p, q) && (p.1.number == q.1.number ==> p == q)
    {
      OutputsApart(level + 1, outputs, p.1, q.1);
    }
    assert level + 1 < NUM_LEVELS by { InputsInside(base, level, in0, in1); }
  }

  lemma OutputsApart(level: nat, outputs: seq<File>, o: File, p: File)
    requires FilesOk(outputs) && Disjoint(outputs) && o in outputs && p in outputs && level > 0
    requires forall i, j :: 0 <= i < j < |outputs| ==> outputs[i].number != outputs[j].number
    ensures Compatible((level, o), (level, p)) && (o.number == p.number ==> o == p)
  {
    DisjointPair(outputs, o, p);
  }

  lemma OutputFits(base: Version, v: Version, level: nat, in0: seq<File>, in1: seq<File>, outputs: seq<File>,
                   o: File, l: nat, g: File)
    requires Layered(base) && Distinct(Entries(base)) && Grown(base, v) && ValidInputs(base, level, in0, in1)
    requires FilesOk(outputs) && TakenFrom(o, in0, in1) && o in outputs && Clear(base, v, level, outputs)
    requires InLevel(v, l, g) && (l, g) !in Inputs(level, in0, in1)
    ensures Compatible((level + 1, o), (l, g))
  {
    if InLevel(base, l, g) {
      hide Layered, Distinct, Entries, ValidInputs, Grown;
      OutputCompatible(base, level, in0, in1, o, l, g);
    } else if l == level + 1 {
      assert Arrived(base, v, l, g);
    } else {
      assert Arrived(base, v, l, g);
      LandedCompatible(base, level, in0, in1, o, l, g);
    }
  }

  /** Installing the outputs keeps the layering if and only if they are clear. */
  lemma LateLayers(base: Version, v: Version, w: Version, level: nat, in0: seq<File>, in1: seq<File>,
                   outputs: seq<File>)
    requires Layered(base) && Distinct(Entries(base)) && Layered(v) && Grown(base, v)
    requires ValidInputs(base, level, in0, in1)
    requires FilesOk(outputs) && Disjoint(outputs) && NewNumbers(v, outputs)
    requires forall o :: o in outputs ==> TakenFrom(o, in0, in1)
    requires Edited(v, w, Inputs(level, in0, in1), At(level + 1, outputs))
    ensures Layered(w) <==> Clear(base, v, level, outputs)
  {
    if Clear(base, v, level, outputs) {
      LateFits(base, v, level, in0, in1, outputs);
      FittingEditKeepsLayers(v, w, Inputs(level, in0, in1), At(level + 1, outputs));
    } else if Layered(w) {
      LayeredMeansClear(base, v, w, level, in0, in1, outputs);
    }
  }

  lemma LayeredMeansClear(base: Version, v: Version, w: Version, level: nat, in0: seq<File>, in1: seq<File>,
                          outputs: seq<File>)
    requires Layered(w) && ValidInputs(base, level, in0, in1) && NewNumbers(v, outputs) && |v| == NUM_LEVELS
    requires Edited(v, w, Inputs(level, in0, in1), At(level + 1, outputs))
    ensures Clear(base, v, level, outputs)
  {
    forall g, o | Arrived(base, v, level + 1, g) && o in outputs
      ensures Before(o.largest, g.smallest) || Before(g.largest, o.smallest)
    {
      assert (level + 1, g) !in Inputs(level, in0, in1) && (level + 1, o) in At(level + 1, outputs);
      assert InLevel(w, level + 1, g) && InLevel(w, level + 1, o) && g.number != o.number;
      LevelOk(w, level + 1);
      var i :| 0 <= i < |w[level + 1]| && w[level + 1][i] == g;
      var j :| 0 <= j < |w[level + 1]| && w[level + 1][j] == o;
      assert Disjoint(w[level + 1]);
    }
  }
}
