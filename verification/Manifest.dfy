/** VersionSet::Builder, and recovery of a version from the edits of a manifest (db/version_set.cc). */
module Manifest {
  import opened Keys
  import opened Files
  import opened Steps

  /** The file part of a VersionEdit. */
  datatype VersionEdit = VersionEdit(deleted: set<(nat, nat)>, added: seq<(nat, File)>)

  ghost predicate EditOk(edit: VersionEdit)
  {
    && (forall p :: p in edit.deleted ==> p.0 < NUM_LEVELS)
    && (forall p :: p in edit.added ==> p.0 < NUM_LEVELS)
  }

  ghost function Members(files: seq<File>): set<File>
  {
    set f | f in files
  }

  ghost function Undeleted(files: set<File>, deleted: set<nat>): set<File>
  {
    set f | f in files && f.number !in deleted
  }

  // ---------- one level ----------

  /** Ordered insertion into a std::set: an equivalent element is left alone. */
  method InsertFile(files: seq<File>, f: File) returns (r: seq<File>)
    requires BySmallest(files)
    ensures BySmallest(r)
    ensures Members(r) == Members(files) + {f} ||
            (r == files && exists g :: g in files && g.smallest == f.smallest && g.number == f.number)
  {
    var i := 0;
    while i < |files| && SmallestBefore(files[i], f)
      invariant 0 <= i <= |files|
      invariant forall j :: 0 <= j < i ==> SmallestBefore(files[j], f)
    {
      i := i + 1;
    }
    if i < |files| && !SmallestBefore(f, files[i]) {
      SameRank(files[i], f);
      r := files;
      return;
    }
    InsertAt(files, i, f);
    r := files[..i] + [f] + files[i..];
  }

  lemma InsertAt(files: seq<File>, i: nat, f: File)
    requires BySmallest(files) && i <= |files|
    requires forall j :: 0 <= j < i ==> SmallestBefore(files[j], f)
    requires i < |files| ==> SmallestBefore(f, files[i])
    ensures BySmallest(files[..i] + [f] + files[i..])
    ensures Members(files[..i] + [f] + files[i..]) == Members(files) + {f}
  {}

  lemma SameRank(f: File, g: File)
    requires !SmallestBefore(f, g) && !SmallestBefore(g, f)
    ensures f.smallest == g.smallest && f.number == g.number
  {}

  /** SaveTo for one level: merges the base files with the added ones, leaving out deleted numbers. */
  method MergeLevel(base: seq<File>, added: seq<File>, deleted: set<nat>) returns (files: seq<File>)
    requires BySmallest(base) && BySmallest(added)
    requires forall f, g :: f in base && g in added ==> f.number != g.number
    ensures BySmallest(files)
    ensures Members(files) == Undeleted(Members(base) + Members(added), deleted)
  {
    files := [];
    var i := 0;
    for j := 0 to |added|
      invariant 0 <= i <= |base|
      invariant Merged(files, base[..i], added[..j], deleted)
      invariant Interleaved(base, i, added, j)
    {
      var f := added[j];
      while i < |base| && !SmallestBefore(f, base[i])
        invariant 0 <= i <= |base|
        invariant Merged(files, base[..i], added[..j], deleted)
        invariant Interleaved(base, i, added, j)
      {
        BaseNext(base, i, added, j);
        files := Push(files, base[..i], added[..j], deleted, base[i]);
        assert base[..i + 1] == base[..i] + [base[i]];
        i := i + 1;
      }
      files := Push(files, added[..j], base[..i], deleted, f);
      assert added[..j + 1] == added[..j] + [f];
      AddedNext(base, i, added, j);
    }
    assert added[..|added|] == added;
    while i < |base|
      invariant 0 <= i <= |base|
      invariant Merged(files, base[..i], added, deleted)
      invariant Interleaved(base, i, added, |added|)
    {
      files := Push(files, base[..i], added, deleted, base[i]);
      assert base[..i + 1] == base[..i] + [base[i]];
      i := i + 1;
    }
    assert base[..i] == base;
  }

  /** What has been merged comes before what has not. */
  ghost predicate Interleaved(base: seq<File>, i: nat, added: seq<File>, j: nat)
    requires i <= |base| && j <= |added|
  {
    && (forall k, m :: 0 <= k < j && i <= m < |base| ==> SmallestBefore(added[k], base[m]))
    && (forall k, m :: 0 <= k < i && j <= m < |added| ==> SmallestBefore(base[k], added[m]))
  }

  lemma BaseNext(base: seq<File>, i: nat, added: seq<File>, j: nat)
    requires BySmallest(base) && BySmallest(added) && i < |base| && j < |added| && Interleaved(base, i, added, j)
    requires !SmallestBefore(added[j], base[i]) && base[i].number != added[j].number
    ensures Interleaved(base, i + 1, added, j)
  {}

  lemma AddedNext(base: seq<File>, i: nat, added: seq<File>, j: nat)
    requires BySmallest(base) && BySmallest(added) && i <= |base| && j < |added| && Interleaved(base, i, added, j)
    requires i < |base| ==> SmallestBefore(added[j], base[i])
    ensures Interleaved(base, i, added, j + 1)
  {}

  /** `files` is the ordered list of the undeleted members of `a` and `b`. */
  ghost predicate Merged(files: seq<File>, a: seq<File>, b: seq<File>, deleted: set<nat>)
  {
    && BySmallest(files)
    && Members(files) == Undeleted(Members(a) + Members(b), deleted)
  }

  /** MaybeAddFile. */
  function Push(files: seq<File>, ghost a: seq<File>, ghost b: seq<File>, deleted: set<nat>, f: File): (r: seq<File>)
    requires Merged(files, a, b, deleted)
    requires forall i :: 0 <= i < |a| ==> SmallestBefore(a[i], f)
    requires forall i :: 0 <= i < |b| ==> SmallestBefore(b[i], f)
    ensures Merged(r, a + [f], b, deleted) && Merged(r, b, a + [f], deleted)
  {
    if f.number in deleted then
      assert Members(a + [f]) == Members(a) + {f};
      files
    else
      assert forall i :: 0 <= i < |files| ==> files[i] in Members(files);
      assert Members(files + [f]) == Members(files) + {f};
      assert Members(a + [f]) == Members(a) + {f};
      files + [f]
  }

  // ---------- the builder ----------

  class Builder {
    const base: Version
    var deleted: seq<set<nat>>
    var added: seq<seq<File>>

    ghost predicate Valid()
      reads this
    {
      && |base| == |deleted| == |added| == NUM_LEVELS
      && forall l :: 0 <= l < NUM_LEVELS ==> BySmallest(base[l]) && BySmallest(added[l])
    }

    /** What SaveTo would store at each level. */
    ghost function Pending(): seq<set<File>>
      requires Valid()
      reads this
    {
      PendingOf(base, added, deleted)
    }

    /** No file of the base was added again. */
    ghost predicate Separate()
      requires Valid()
      reads this
    {
      forall l, f, g :: 0 <= l < NUM_LEVELS && f in base[l] && g in added[l] ==> f.number != g.number
    }

    constructor (base: Version)
      requires |base| == NUM_LEVELS && forall l :: 0 <= l < NUM_LEVELS ==> BySmallest(base[l])
      ensures Valid() && Separate() && this.base == base
      ensures Pending() == MembersIn(base) && Known() == NumbersIn(base)
    {
      this.base := base;
      deleted := seq(NUM_LEVELS, _ => {});
      added := seq(NUM_LEVELS, _ => []);
      new;
      StartOf(base, added, deleted);
    }

    /** Adds one file of an edit. */
    method AddFile(l: nat, f: File)
      requires Valid() && Separate() && l < NUM_LEVELS && f.number !in Known()[l]
      modifies this
      ensures Valid() && Separate()
      ensures Pending() == old(Pending())[l := old(Pending())[l] + {f}]
      ensures Known() == old(Known())[l := old(Known())[l] + {f.number}]
    {
      assert forall g :: g in base[l] || g in added[l] ==> g.number in Known()[l];
      var files := InsertFile(added[l], f);
      assert Members(files) == Members(added[l]) + {f};
      PendingOfAdd(base, added, deleted, l, files, f);
      KnownOfAdd(base, added, l, files, f);
      deleted := deleted[l := deleted[l] - {f.number}];
      added := added[l := files];
      assert forall g :: g in files ==> g in Members(files);
    }

    method DeleteFile(l: nat, number: nat)
      requires Valid() && Separate() && l < NUM_LEVELS
      modifies this`deleted
      ensures Valid() && Separate() && Known() == old(Known())
      ensures Pending() == old(Pending())[l := Undeleted(old(Pending())[l], {number})]
    {
      PendingOfDelete(base, added, deleted, l, number);
      deleted := deleted[l := deleted[l] + {number}];
    }

    method DeleteFiles(files: set<(nat, nat)>)
      requires Valid() && Separate() && forall p :: p in files ==> p.0 < NUM_LEVELS
      modifies this`deleted
      ensures Valid() && Separate() && Known() == old(Known())
      ensures Pending() == Minus(old(Pending()), files)
    {
      var rest := files;
      MinusNone(Pending());
      assert files - rest == {};
      while rest != {}
        invariant rest <= files && Valid() && Separate() && Known() == old(Known())
        invariant Pending() == Minus(old(Pending()), files - rest)
      {
        var p :| p in rest;
        DeleteFile(p.0, p.1);
        assert files - (rest - {p}) == (files - rest) + {p};
        MinusOneMore(old(Pending()), files - rest, p);
        rest := rest - {p};
      }
      assert files - rest == files;
    }

    method AddFiles(edit: VersionEdit)
      requires Valid() && Separate() && EditOk(edit) && Unused(edit, Known())
      modifies this
      ensures Valid() && Separate()
      ensures Pending() == Plus(old(Pending()), edit, |edit.added|)
      ensures Known() == KnownAfter(old(Known()), edit)
    {
      for i := 0 to |edit.added|
        invariant Valid() && Separate()
        invariant Pending() == Plus(old(Pending()), edit, i)
        invariant Known() == KnownUpTo(old(Known()), edit, i)
      {
        var (l, f) := edit.added[i];
        UnusedAt(edit, old(Known()), i);
        AddFile(l, f);
      }
    }

    /** Apply: first the deletions of the edit, then its additions. */
    method Apply(edit: VersionEdit)
      requires Valid() && Separate() && EditOk(edit) && Unused(edit, Known())
      modifies this
      ensures Valid() && Separate()
      ensures Pending() == AfterEdit(old(Pending()), edit)
      ensures Known() == KnownAfter(old(Known()), edit)
    {
      DeleteFiles(edit.deleted);
      AddFiles(edit);
    }

    /** File numbers the builder has met at each level. */
    ghost function Known(): seq<set<nat>>
      requires Valid()
      reads this
    {
      KnownOf(base, added)
    }

    /** SaveTo. */
    method SaveTo() returns (v: Version)
      requires Valid() && Separate()
      ensures Saved(v) && MembersIn(v) == Pending()
    {
      v := [];
      for l := 0 to NUM_LEVELS
        invariant |v| == l
        invariant forall m :: 0 <= m < l ==> BySmallest(v[m]) && Members(v[m]) == Pending()[m]
      {
        var files := MergeLevel(base[l], added[l], deleted[l]);
        v := v + [files];
      }
    }
  }

  ghost function PendingOf(base: Version, added: seq<seq<File>>, deleted: seq<set<nat>>): seq<set<File>>
    requires |base| == |added| == |deleted|
  {
    seq(|base|, l requires 0 <= l < |base| => Undeleted(Members(base[l]) + Members(added[l]), deleted[l]))
  }

  ghost function KnownOf(base: Version, added: seq<seq<File>>): seq<set<nat>>
    requires |base| == |added|
  {
    seq(|base|, l requires 0 <= l < |base| => Numbers(Members(base[l]) + Members(added[l])))
  }

  ghost function MembersIn(v: Version): seq<set<File>>
  {
    seq(|v|, l requires 0 <= l < |v| => Members(v[l]))
  }

  ghost function NumbersIn(v: Version): seq<set<nat>>
  {
    seq(|v|, l requires 0 <= l < |v| => Numbers(Members(v[l])))
  }

  lemma StartOf(base: Version, added: seq<seq<File>>, deleted: seq<set<nat>>)
    requires |base| == |added| == |deleted|
    requires forall l :: 0 <= l < |base| ==> added[l] == [] && deleted[l] == {}
    ensures PendingOf(base, added, deleted) == MembersIn(base) && KnownOf(base, added) == NumbersIn(base)
  {
    forall l | 0 <= l < |base|
      ensures Undeleted(Members(base[l]) + Members(added[l]), deleted[l]) == Members(base[l]) == Members(base[l]) +
              Members(added[l])
    {
    }
  }

  lemma PendingOfAdd(base: Version, added: seq<seq<File>>, deleted: seq<set<nat>>, l: nat, files: seq<File>, f: File)
    requires |base| == |added| == |deleted| && l < |base| && Members(files) == Members(added[l]) + {f}
    requires forall g :: g in base[l] || g in added[l] ==> g.number != f.number
    ensures var p := PendingOf(base, added, deleted);
            PendingOf(base, added[l := files], deleted[l := deleted[l] - {f.number}]) == p[l := p[l] + {f}]
  {
    assert Undeleted(Members(base[l]) + Members(files), deleted[l] - {f.number}) ==
           Undeleted(Members(base[l]) + Members(added[l]), deleted[l]) + {f};
  }

  lemma PendingOfDelete(base: Version, added: seq<seq<File>>, deleted: seq<set<nat>>, l: nat, number: nat)
    requires |base| == |added| == |deleted| && l < |base|
    ensures var p := PendingOf(base, added, deleted);
            PendingOf(base, added, deleted[l := deleted[l] + {number}]) == p[l := Undeleted(p[l], {number})]
  {
    var files := Members(base[l]) + Members(added[l]);
    assert Undeleted(files, deleted[l] + {number}) == Undeleted(Undeleted(files, deleted[l]), {number});
  }

  lemma KnownOfAdd(base: Version, added: seq<seq<File>>, l: nat, files: seq<File>, f: File)
    requires |base| == |added| && l < |base| && Members(files) == Members(added[l]) + {f}
    ensures KnownOf(base, added[l := files]) == KnownOf(base, added)[l := KnownOf(base, added)[l] + {f.number}]
  {
    assert Numbers(Members(base[l]) + Members(files)) == Numbers(Members(base[l]) + Members(added[l])) + {f.number};
  }

  ghost predicate Saved(v: Version)
  {
    |v| == NUM_LEVELS && forall l :: 0 <= l < NUM_LEVELS ==> BySmallest(v[l])
  }

  // ---------- the meaning of an edit ----------

  ghost function NumbersAt(deleted: set<(nat, nat)>, l: nat): set<nat>
  {
    set p | p in deleted && p.0 == l :: p.1
  }

  /** Every level without its deleted numbers. */
  ghost function Minus(files: seq<set<File>>, deleted: set<(nat, nat)>): seq<set<File>>
  {
    seq(|files|, l requires 0 <= l < |files| => Undeleted(files[l], NumbersAt(deleted, l)))
  }

  lemma MinusNone(files: seq<set<File>>)
    ensures Minus(files, {}) == files
  {
    forall l | 0 <= l < |files| ensures Minus(files, {})[l] == files[l] {
      assert NumbersAt({}, l) == {};
    }
  }

  lemma MinusOneMore(files: seq<set<File>>, deleted: set<(nat, nat)>, p: (nat, nat))
    requires p.0 < |files|
    ensures Minus(files, deleted + {p}) == Minus(files, deleted)[p.0 := Undeleted(Minus(files, deleted)[p.0], {p.1})]
  {
    forall l: nat | l < |files|
      ensures NumbersAt(deleted + {p}, l) == NumbersAt(deleted, l) + if l == p.0 then {p.1} else {}
    {
      forall x ensures x in NumbersAt(deleted + {p}, l) <==> (l, x) in deleted + {p} {
      }
    }
    var a, b := Minus(files, deleted + {p}), Minus(files, deleted);
    forall l: nat | l < |files| && l != p.0 ensures a[l] == b[l] {
      assert NumbersAt(deleted + {p}, l) == NumbersAt(deleted, l);
    }
    assert Undeleted(files[p.0], NumbersAt(deleted, p.0) + {p.1}) ==
           Undeleted(Undeleted(files[p.0], NumbersAt(deleted, p.0)), {p.1});
  }

  /** Every level with the first `n` added files. */
  ghost function Plus(files: seq<set<File>>, edit: VersionEdit, n: nat): (r: seq<set<File>>)
    requires n <= |edit.added| && forall p :: p in edit.added ==> p.0 < |files|
    ensures |r| == |files|
  {
    if n == 0 then files
    else
      var rest, l := Plus(files, edit, n - 1), edit.added[n - 1].0;
      rest[l := rest[l] + {edit.added[n - 1].1}]
  }

  ghost function AfterEdit(files: seq<set<File>>, edit: VersionEdit): seq<set<File>>
    requires forall p :: p in edit.added ==> p.0 < |files|
  {
    Plus(Minus(files, edit.deleted), edit, |edit.added|)
  }

  lemma {:induction false} PlusIs(files: seq<set<File>>, edit: VersionEdit, n: nat)
    requires n <= |edit.added| && forall p :: p in edit.added ==> p.0 < |files|
    ensures forall l, f :: 0 <= l < |files| ==>
            (f in Plus(files, edit, n)[l] <==> f in files[l] || (l, f) in edit.added[..n])
  {
    if n == 0 {
    } else {
      PlusIs(files, edit, n - 1);
      assert edit.added[..n] == edit.added[..n - 1] + [edit.added[n - 1]];
    }
  }

  /** The edit adds each (level, number) once, and none that was known before. */
  ghost predicate Unused(edit: VersionEdit, known: seq<set<nat>>)
  {
    && (forall i :: 0 <= i < |edit.added| ==>
          edit.added[i].0 < |known| && edit.added[i].1.number !in known[edit.added[i].0])
    && (forall i, j :: 0 <= i < j < |edit.added| ==>
          edit.added[i].0 != edit.added[j].0 || edit.added[i].1.number != edit.added[j].1.number)
  }

  ghost function KnownUpTo(known: seq<set<nat>>, edit: VersionEdit, n: nat): (r: seq<set<nat>>)
    requires n <= |edit.added| && forall p :: p in edit.added ==> p.0 < |known|
    ensures |r| == |known|
  {
    if n == 0 then known
    else
      var rest, l := KnownUpTo(known, edit, n - 1), edit.added[n - 1].0;
      rest[l := rest[l] + {edit.added[n - 1].1.number}]
  }

  ghost function KnownAfter(known: seq<set<nat>>, edit: VersionEdit): (r: seq<set<nat>>)
    requires forall p :: p in edit.added ==> p.0 < |known|
    ensures |r| == |known|
  {
    KnownUpTo(known, edit, |edit.added|)
  }

  lemma {:induction false} KnownUpToIs(known: seq<set<nat>>, edit: VersionEdit, n: nat, l: nat, x: nat)
    requires n <= |edit.added| && l < |known| && forall p :: p in edit.added ==> p.0 < |known|
    ensures x in KnownUpTo(known, edit, n)[l] <==>
              x in known[l] || exists i :: 0 <= i < n && edit.added[i].0 == l && edit.added[i].1.number == x
  {
    if n == 0 {
    } else {
      KnownUpToIs(known, edit, n - 1, l, x);
    }
  }

  lemma UnusedAt(edit: VersionEdit, known: seq<set<nat>>, n: nat)
    requires Unused(edit, known) && n < |edit.added| && forall p :: p in edit.added ==> p.0 < |known|
    ensures edit.added[n].1.number !in KnownUpTo(known, edit, n)[edit.added[n].0]
  {
    KnownUpToIs(known, edit, n, edit.added[n].0, edit.added[n].1.number);
  }

  ghost function Numbers(files: set<File>): set<nat>
  {
    set f | f in files :: f.number
  }

  // ---------- step by step, or all at once ----------

  lemma {:induction false} OrderedListUnique(a: seq<File>, b: seq<File>)
    requires BySmallest(a) && BySmallest(b) && Members(a) == Members(b)
    ensures a == b
  {
    MembersEmpty(a);
    MembersEmpty(b);
    if a == [] || b == [] {
    } else {
      HeadFirst(a, b[0]);
      HeadFirst(b, a[0]);
      TailMembers(a);
      TailMembers(b);
      OrderedListUnique(a[1..], b[1..]);
      assert a == [a[0]] + a[1..] && b == [b[0]] + b[1..];
    }
  }

  lemma MembersEmpty(a: seq<File>)
    ensures a == [] <==> Members(a) == {}
    ensures a != [] ==> a[0] in Members(a)
  {
    if a != [] {
      assert a[0] in Members(a);
    }
  }

  lemma HeadFirst(a: seq<File>, f: File)
    requires BySmallest(a) && f in Members(a)
    ensures f == a[0] || SmallestBefore(a[0], f)
  {}

  lemma TailMembers(a: seq<File>)
    requires a != [] && BySmallest(a)
    ensures Members(a[1..]) == Members(a) - {a[0]}
  {}

  /** One edit installed on its own. */
  ghost predicate Installs(v: Version, edit: VersionEdit, w: Version)
  {
    Saved(v) && Saved(w) && EditOk(edit) && MembersIn(w) == AfterEdit(MembersIn(v), edit)
  }

  /** LogAndApply, the file lists: a builder over the current version, one edit, saved. */
  method LogAndApply(v: Version, edit: VersionEdit) returns (w: Version)
    requires Saved(v) && EditOk(edit) && Unused(edit, NumbersIn(v))
    ensures Installs(v, edit, w)
  {
    var builder := new Builder(v);
    builder.Apply(edit);
    w := builder.SaveTo();
  }

  /** An installed edit is the edit that the store's steps reason about. */
  lemma InstallIsEdit(v: Version, edit: VersionEdit, w: Version, removed: set<(nat, File)>)
    requires Installs(v, edit, w)
    requires forall l: nat, f :: InLevel(v, l, f) ==> ((l, f) in removed <==> (l, f.number) in edit.deleted)
    ensures Edited(v, w, removed, set p | p in edit.added)
  {
    var files := Minus(MembersIn(v), edit.deleted);
    PlusIs(files, edit, |edit.added|);
    assert edit.added[..|edit.added|] == edit.added;
    forall l: nat, f | l < NUM_LEVELS
      ensures InLevel(w, l, f) <==> (InLevel(v, l, f) && (l, f) !in removed) || (l, f) in edit.added
    {
      assert InLevel(w, l, f) <==> f in MembersIn(w)[l];
      assert f in files[l] <==> f in MembersIn(v)[l] && f.number !in NumbersAt(edit.deleted, l);
      assert f.number in NumbersAt(edit.deleted, l) <==> (l, f.number) in edit.deleted;
    }
  }

  ghost function KnownAfterAll(known: seq<set<nat>>, edits: seq<VersionEdit>): (r: seq<set<nat>>)
    requires |known| == NUM_LEVELS && forall e :: e in edits ==> EditOk(e)
    ensures |r| == |known|
  {
    if edits == [] then known
    else
      var rest, last := KnownAfterAll(known, edits[..|edits| - 1]), edits[|edits| - 1];
      assert EditOk(last) && |rest| == NUM_LEVELS;
      KnownAfter(rest, last)
  }

  /** Over the whole manifest each (level, file number) is added at most once. */
  ghost predicate AddedOnce(known: seq<set<nat>>, edits: seq<VersionEdit>)
    requires |known| == NUM_LEVELS
  {
    && (forall e :: e in edits ==> EditOk(e))
    && forall n :: 0 <= n < |edits| ==> Unused(edits[n], KnownAfterAll(known, edits[..n]))
  }

  /** The versions installed one edit at a time. */
  ghost predicate History(versions: seq<Version>, edits: seq<VersionEdit>)
  {
    && |versions| == |edits| + 1 && Saved(versions[0])
    && forall n :: 0 <= n < |edits| ==> Installs(versions[n], edits[n], versions[n + 1])
  }

  /** Recover: every edit of the manifest goes into one builder, which is saved once.  The version it
      yields is, file list by file list, the one that installing the edits one by one had reached. */
  method Recover(base: Version, edits: seq<VersionEdit>, ghost versions: seq<Version>) returns (v: Version)
    requires Saved(base) && AddedOnce(NumbersIn(base), edits)
    requires History(versions, edits) && versions[0] == base
    ensures v == versions[|edits|]
  {
    var builder := new Builder(base);
    for n := 0 to |edits|
      invariant builder.Valid() && builder.Separate() && fresh(builder)
      invariant builder.Known() == KnownAfterAll(NumbersIn(base), edits[..n])
      invariant builder.Pending() == MembersIn(versions[n])
    {
      assert edits[..n + 1][..n] == edits[..n] && edits[n] in edits;
      builder.Apply(edits[n]);
      assert Installs(versions[n], edits[n], versions[n + 1]);
    }
    assert edits[..|edits|] == edits;
    v := builder.SaveTo();
    SameLists(v, versions[|edits|]);
  }

  lemma SameLists(v: Version, w: Version)
    requires Saved(v) && Saved(w) && MembersIn(v) == MembersIn(w)
    ensures v == w
  {
    forall l | 0 <= l < NUM_LEVELS ensures v[l] == w[l] {
      assert Members(v[l]) == MembersIn(v)[l] == MembersIn(w)[l];
      OrderedListUnique(v[l], w[l]);
    }
  }
}
