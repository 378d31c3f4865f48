/** The merge loop of a compaction: which entries it drops, how it splits its output, and that
    readers cannot tell (db/db_impl.cc, db/version_set.cc). */
module Compaction {
  import opened Keys
  import opened Files
  import opened Selection

  // ---------- no deeper data for a key ----------

  ghost predicate BaseLevel(v: Version, level: nat, user: UserKey)
  {
    forall l, f :: level + 2 <= l && InLevel(v, l, f) ==> !HasUser(f, user)
  }

  /** Compaction::level_ptrs_: one cursor per deeper level, which only moves forward. */
  class LevelCursors {
    const v: Version
    const level: nat
    const ptrs: array<nat>

    constructor (v: Version, level: nat)
      requires |v| == NUM_LEVELS
      ensures this.v == v && this.level == level && fresh(ptrs)
      ensures forall user :: Passed(user)
    {
      this.v := v;
      this.level := level;
      ptrs := new nat[NUM_LEVELS](_ => 0);
    }

    /** Everything before a cursor ends before `user`. */
    ghost predicate Passed(user: UserKey)
      reads ptrs
    {
      && |v| == ptrs.Length == NUM_LEVELS
      && forall l :: 0 <= l < NUM_LEVELS ==> PassedIn(v[l], ptrs[l], user)
    }

    static ghost predicate PassedIn(files: seq<File>, n: nat, user: UserKey)
    {
      n <= |files| && forall i :: 0 <= i < n ==> files[i].largest.user < user
    }

    /** IsBaseLevelForKey, for user keys asked in ascending order. */
    method IsBaseLevelForKey(user: UserKey) returns (base: bool)
      requires Layered(v) && Passed(user)
      modifies ptrs
      ensures Passed(user)
      ensures base <==> BaseLevel(v, level, user)
    {
      var lvl := level + 2;
      while lvl < NUM_LEVELS
        invariant Passed(user)
        invariant forall l, f :: level + 2 <= l < lvl && InLevel(v, l, f) ==> !HasUser(f, user)
      {
        var files := v[lvl];
        while ptrs[lvl] < |files| && files[ptrs[lvl]].largest.user < user
          invariant Passed(user)
          decreases |files| - ptrs[lvl]
        {
          ptrs[lvl] := ptrs[lvl] + 1;
        }
        if ptrs[lvl] < |files| && files[ptrs[lvl]].smallest.user <= user {
          assert InLevel(v, lvl, files[ptrs[lvl]]);
          return false;
        }
        SkippedLevel(v, lvl, ptrs[lvl], user);
        lvl := lvl + 1;
      }
      return true;
    }
  }

  lemma SkippedLevel(v: Version, l: nat, n: nat, user: UserKey)
    requires Layered(v) && 1 <= l < |v| && LevelCursors.PassedIn(v[l], n, user)
    requires n < |v[l]| ==> user < v[l][n].smallest.user
    ensures forall f :: InLevel(v, l, f) ==> !HasUser(f, user)
  {
    forall f | InLevel(v, l, f) ensures !HasUser(f, user) {
      var i :| 0 <= i < |v[l]| && v[l][i] == f;
      if n < i {
        assert Before(v[l][n].largest, f.smallest);
        assert InLevel(v, l, v[l][n]);
        StartNotAfterEnd(v[l][n]);
      }
    }
  }

  // ---------- the drop rule ----------

  /** An older entry hidden at every snapshot from `smallest` on, or a deletion with nothing below to hide. */
  ghost predicate Obsolete(v: Version, level: nat, E: set<Entry>, smallest: nat, e: Entry)
  {
    || Superseded(E, smallest, e)
    || (e.key.kind.Deletion? && e.key.sequence <= smallest && BaseLevel(v, level, e.key.user))
  }

  ghost predicate Superseded(E: set<Entry>, smallest: nat, e: Entry)
  {
    exists d :: d in E && d.key.user == e.key.user && e.key.sequence < d.key.sequence <= smallest
  }

  ghost function Kept(v: Version, level: nat, input: seq<Entry>, smallest: nat, n: nat): seq<Entry>
    requires n <= |input|
  {
    if n == 0 then []
    else
      Kept(v, level, input, smallest, n - 1) +
      (if Obsolete(v, level, Elements(input), smallest, input[n - 1]) then [] else [input[n - 1]])
  }

  lemma {:induction false} KeptElements(v: Version, level: nat, input: seq<Entry>, smallest: nat, n: nat)
    requires n <= |input|
    ensures forall e :: e in Kept(v, level, input, smallest, n) <==>
              e in input[..n] && !Obsolete(v, level, Elements(input), smallest, e)
  {
    if n == 0 {
    } else {
      KeptElements(v, level, input, smallest, n - 1);
      assert input[..n] == input[..n - 1] + [input[n - 1]];
    }
  }

  lemma {:induction false} KeptSorted(v: Version, level: nat, input: seq<Entry>, smallest: nat, n: nat)
    requires n <= |input| && SortedTable(input)
    ensures SortedTable(Kept(v, level, input, smallest, n))
  {
    if n == 0 {
    } else {
      KeptSorted(v, level, input, smallest, n - 1);
      KeptElements(v, level, input, smallest, n - 1);
      var k := Kept(v, level, input, smallest, n - 1);
      forall i | 0 <= i < |k| ensures Before(k[i].key, input[n - 1].key) {
        assert k[i] in input[..n - 1];
      }
    }
  }

  /** An entry stays unless a newer one of its user key is visible at the oldest snapshot, or it is a deletion visible
      there and no file below the output level reaches its user key. */
  lemma KeptExactly(v: Version, level: nat, input: seq<Entry>, smallest: nat, e: Entry)
    ensures e in Kept(v, level, input, smallest, |input|) <==>
              && e in input
              && (forall d :: d in input && d.key.user == e.key.user && d.key.sequence > e.key.sequence ==>
                    d.key.sequence > smallest)
              && (e.key.kind.Deletion? && e.key.sequence <= smallest ==>
                    exists l: nat, f :: l >= level + 2 && InLevel(v, l, f)
                                        && f.smallest.user <= e.key.user <= f.largest.user)
  {
    KeptElements(v, level, input, smallest, |input|);
    assert input[..|input|] == input;
    if l: nat, f :| l >= level + 2 && InLevel(v, l, f) && f.smallest.user <= e.key.user <= f.largest.user {
      assert HasUser(f, e.key.user);
    }
  }

  /** What is kept holds one entry of a user key at most for everything up to the oldest snapshot. */
  lemma OneBelowSmallest(v: Version, level: nat, input: seq<Entry>, smallest: nat, e: Entry, d: Entry)
    requires Distinct(Elements(input)) && e.key.user == d.key.user
    requires e in Kept(v, level, input, smallest, |input|) && d in Kept(v, level, input, smallest, |input|)
    requires e.key.sequence <= smallest && d.key.sequence <= smallest
    ensures e == d
  {
    KeptExactly(v, level, input, smallest, e);
    KeptExactly(v, level, input, smallest, d);
    assert e in Elements(input) && d in Elements(input);
  }

  /** The loop's test on the previous sequence number decides whether an earlier entry supersedes this one. */
  lemma LastSequenceTest(input: seq<Entry>, smallest: nat, i: nat)
    requires SortedTable(input) && Distinct(Elements(input)) && i < |input|
    ensures Superseded(Elements(input), smallest, input[i]) <==>
              0 < i && input[i - 1].key.user == input[i].key.user && input[i - 1].key.sequence <= smallest
  {}

  /** The part of the compaction state that decides drops. */
  class DropRule {
    const cursors: LevelCursors
    const smallest: nat
    var currentUserKey: Option<UserKey>
    var lastSequenceForKey: nat

    constructor (v: Version, level: nat, smallest: nat, ghost input: seq<Entry>)
      requires |v| == NUM_LEVELS
      ensures cursors.v == v && cursors.level == level && this.smallest == smallest
      ensures fresh(cursors.ptrs) && At(input, 0)
    {
      cursors := new LevelCursors(v, level);
      this.smallest := smallest;
      currentUserKey := None;
      lastSequenceForKey := MAX_SEQUENCE;
    }

    /** The first `i` entries of the merged input have been seen. */
    ghost predicate At(input: seq<Entry>, i: nat)
      reads this, cursors.ptrs
    {
      && (if 0 < i <= |input|
          then currentUserKey == Some(input[i - 1].key.user) && lastSequenceForKey == input[i - 1].key.sequence
          else currentUserKey.None?)
      && forall j :: i <= j < |input| ==> cursors.Passed(input[j].key.user)
    }

    method Drop(ghost input: seq<Entry>, ghost i: nat, e: Entry) returns (drop: bool)
      requires Layered(cursors.v) && SortedTable(input) && Distinct(Elements(input))
      requires smallest < MAX_SEQUENCE && i < |input| && e == input[i] && At(input, i)
      modifies this, cursors.ptrs
      ensures At(input, i + 1)
      ensures drop <==> Obsolete(cursors.v, cursors.level, Elements(input), smallest, e)
    {
      if currentUserKey != Some(e.key.user) {
        currentUserKey := Some(e.key.user);
        lastSequenceForKey := MAX_SEQUENCE;
      }
      LastSequenceTest(input, smallest, i);
      drop := false;
      if lastSequenceForKey <= smallest {
        drop := true;
      } else if e.key.kind.Deletion? && e.key.sequence <= smallest {
        drop := cursors.IsBaseLevelForKey(e.key.user);
        LaterKeysStillPassed(cursors, input, i);
      }
      lastSequenceForKey := e.key.sequence;
    }
  }

  // ---------- the merge loop ----------

  /** The entries of the files, in file order. */
  ghost function Flat(files: seq<File>): seq<Entry>
  {
    if files == [] then [] else Flat(files[..|files| - 1]) + files[|files| - 1].table
  }

  ghost predicate Sealed(f: File)
  {
    |f.table| > 0 && f.smallest == f.table[0].key && f.largest == f.table[|f.table| - 1].key
  }

  ghost predicate Numbered(files: seq<File>, first: nat)
  {
    forall i :: 0 <= i < |files| ==> files[i].number == first + i
  }

  lemma LaterKeysStillPassed(cursors: LevelCursors, input: seq<Entry>, i: nat)
    requires SortedTable(input) && i < |input| && cursors.Passed(input[i].key.user)
    ensures forall j :: i <= j < |input| ==> cursors.Passed(input[j].key.user)
  {}

  /** The finished output files and the table being built. */
  datatype Outputs = Outputs(files: seq<File>, builder: seq<Entry>, firstNumber: nat) {

    ghost function Contents(): seq<Entry> { Flat(files) + builder }

    ghost predicate Ok() { (forall f :: f in files ==> Sealed(f)) && Numbered(files, firstNumber) }

    /** FinishCompactionOutputFile, when a builder is open. */
    function Cut(sizeOf: seq<Entry> -> nat): (r: Outputs)
      requires Ok()
      ensures r.Ok() && r.Contents() == Contents() && r.builder == [] && r.firstNumber == firstNumber
    {
      if builder == [] then this
      else
        var f := File(firstNumber + |files|, sizeOf(builder), builder[0].key, builder[|builder| - 1].key, builder);
        assert (files + [f])[..|files|] == files;
        Outputs(files + [f], [], firstNumber)
    }

    /** Adds one entry and closes the file once it is big enough. */
    function Add(e: Entry, sizeOf: seq<Entry> -> nat, maxOutputFileSize: nat): (r: Outputs)
      requires Ok()
      ensures r.Ok() && r.Contents() == Contents() + [e] && r.firstNumber == firstNumber
    {
      var o := this.(builder := builder + [e]);
      if sizeOf(o.builder) >= maxOutputFileSize then o.Cut(sizeOf) else o
    }
  }

  /** The output files after n entries of the merged input, for given cuts and sizes. */
  ghost function Emitted(v: Version, level: nat, input: seq<Entry>, smallest: nat, firstNumber: nat,
                         stopBefore: seq<bool>, sizeOf: seq<Entry> -> nat, maxOutputFileSize: nat, n: nat): (o: Outputs)
    requires n <= |input| == |stopBefore|
    ensures o.Ok() && o.firstNumber == firstNumber
  {
    if n == 0 then Outputs([], [], firstNumber)
    else
      var before := Emitted(v, level, input, smallest, firstNumber, stopBefore, sizeOf, maxOutputFileSize, n - 1);
      var o := if stopBefore[n - 1] then before.Cut(sizeOf) else before;
      if Obsolete(v, level, Elements(input), smallest, input[n - 1]) then o
      else o.Add(input[n - 1], sizeOf, maxOutputFileSize)
  }

  // ---------- where the output is cut ----------

  /** A stop is asked for after the input entry e and before position n. */
  ghost predicate StopSince(input: seq<Entry>, stopBefore: seq<bool>, e: Entry, n: nat)
    requires n <= |input| == |stopBefore|
  {
    exists p, k :: 0 <= p < k < n && input[p] == e && stopBefore[k]
  }

  /** A stop is asked for after the input entry e and not after the later entry d. */
  ghost predicate StopBetween(input: seq<Entry>, stopBefore: seq<bool>, e: Entry, d: Entry)
    requires |input| == |stopBefore|
  {
    exists q :: 0 <= q < |input| && input[q] == d && StopSince(input, stopBefore, e, q + 1)
  }

  /** The table reaches the limit with its last entry if at all, and holds no stop. */
  ghost predicate Uncut(t: seq<Entry>, input: seq<Entry>, stopBefore: seq<bool>, sizeOf: seq<Entry> -> nat, limit: nat)
    requires |input| == |stopBefore|
  {
    forall n :: 0 < n < |t| ==> sizeOf(t[..n]) < limit && !StopBetween(input, stopBefore, t[n - 1], t[n])
  }

  /** One table is followed by another because it has reached the limit or because a stop lies between them. */
  ghost predicate Parted(t: seq<Entry>, u: seq<Entry>, input: seq<Entry>, stopBefore: seq<bool>,
                         sizeOf: seq<Entry> -> nat, limit: nat)
    requires |input| == |stopBefore|
  {
    sizeOf(t) >= limit || (t != [] && u != [] && StopBetween(input, stopBefore, t[|t| - 1], u[0]))
  }

  /** A file ends as soon as it has reached the limit or a stop is asked for, and for no other reason. */
  ghost predicate CutWhereDue(outputs: seq<File>, input: seq<Entry>, stopBefore: seq<bool>, sizeOf: seq<Entry> -> nat,
                              limit: nat)
    requires |input| == |stopBefore|
  {
    && (forall f :: f in outputs ==> f.size == sizeOf(f.table) && Uncut(f.table, input, stopBefore, sizeOf, limit))
    && (forall i :: 0 <= i < |outputs| - 1 ==>
          Parted(outputs[i].table, outputs[i + 1].table, input, stopBefore, sizeOf, limit))
  }

  /** The same for the files finished after n entries, and what the open table must still satisfy. */
  ghost predicate CutSoFar(o: Outputs, input: seq<Entry>, stopBefore: seq<bool>, sizeOf: seq<Entry> -> nat, limit: nat,
                           n: nat)
    requires n <= |input| == |stopBefore|
  {
    var b := o.builder;
    && o.Ok() && CutWhereDue(o.files, input, stopBefore, sizeOf, limit)
    && (b != [] ==>
          && sizeOf(b) < limit && Uncut(b, input, stopBefore, sizeOf, limit)
          && b[|b| - 1] in input[..n] && !StopSince(input, stopBefore, b[|b| - 1], n))
    && (o.files != [] ==>
          var t := o.files[|o.files| - 1].table;
          if b != [] then Parted(t, b, input, stopBefore, sizeOf, limit)
          else sizeOf(t) >= limit || (t != [] && StopSince(input, stopBefore, t[|t| - 1], n)))
  }

  lemma StopBetweenAt(input: seq<Entry>, stopBefore: seq<bool>, e: Entry, q: nat)
    requires SortedTable(input) && q < |input| == |stopBefore|
    ensures StopBetween(input, stopBefore, e, input[q]) <==> StopSince(input, stopBefore, e, q + 1)
  {}

  /** Closing the open table at a reason to do so. */
  lemma CutClosed(o: Outputs, input: seq<Entry>, stopBefore: seq<bool>, sizeOf: seq<Entry> -> nat, limit: nat, n: nat)
    requires n <= |input| == |stopBefore| && o.Ok() && o.builder != []
    requires CutWhereDue(o.files, input, stopBefore, sizeOf, limit)
             && Uncut(o.builder, input, stopBefore, sizeOf, limit)
    requires o.files != [] ==>
               Parted(o.files[|o.files| - 1].table, o.builder, input, stopBefore, sizeOf, limit)
    ensures CutWhereDue(o.Cut(sizeOf).files, input, stopBefore, sizeOf, limit)
    ensures sizeOf(o.builder) >= limit || StopSince(input, stopBefore, o.builder[|o.builder| - 1], n) ==>
              CutSoFar(o.Cut(sizeOf), input, stopBefore, sizeOf, limit, n)
  {
    hide Uncut, Parted, StopSince, Flat;
    var files := o.Cut(sizeOf).files;
    assert files[..|o.files|] == o.files;
  }

  /** Position n is passed: a stop there closes the open table. */
  lemma StopPassed(o: Outputs, input: seq<Entry>, stopBefore: seq<bool>, sizeOf: seq<Entry> -> nat, limit: nat, n: nat)
    requires n < |input| == |stopBefore| && SortedTable(input) && CutSoFar(o, input, stopBefore, sizeOf, limit, n)
    ensures CutSoFar(if stopBefore[n] then o.Cut(sizeOf) else o, input, stopBefore, sizeOf, limit, n + 1)
  {
    var b := o.builder;
    if b != [] {
      var p :| 0 <= p < n && input[p] == b[|b| - 1];
      if stopBefore[n] { CutClosed(o, input, stopBefore, sizeOf, limit, n + 1); }
    }
    hide Uncut, CutWhereDue, SortedTable, Flat;
  }

  /** A kept entry joins the open table, which is closed when it has reached the limit. */
  lemma EntryAdded(o: Outputs, input: seq<Entry>, stopBefore: seq<bool>, sizeOf: seq<Entry> -> nat, limit: nat, n: nat)
    requires n < |input| == |stopBefore| && SortedTable(input) && CutSoFar(o, input, stopBefore, sizeOf, limit, n + 1)
    ensures CutSoFar(o.Add(input[n], sizeOf, limit), input, stopBefore, sizeOf, limit, n + 1)
  {
    var b, e := o.builder, input[n];
    var more := b + [e];
    var open := o.(builder := more);
    UncutMore(b, input, stopBefore, sizeOf, limit, n);
    if o.files != [] {
      var t := o.files[|o.files| - 1].table;
      if t != [] { StopBetweenAt(input, stopBefore, t[|t| - 1], n); }
    }
    NoStopYet(input, stopBefore, n);
    hide Uncut, CutWhereDue, SortedTable, Flat, StopSince, StopBetween;
    if sizeOf(more) >= limit { CutClosed(open, input, stopBefore, sizeOf, limit, n + 1); }
  }

  lemma NoStopYet(input: seq<Entry>, stopBefore: seq<bool>, n: nat)
    requires n < |input| == |stopBefore| && SortedTable(input)
    ensures !StopSince(input, stopBefore, input[n], n + 1) && input[n] in input[..n + 1]
  {
    assert input[..n + 1][n] == input[n];
  }

  lemma UncutMore(b: seq<Entry>, input: seq<Entry>, stopBefore: seq<bool>, sizeOf: seq<Entry> -> nat,
                  limit: nat, n: nat)
    requires n < |input| == |stopBefore| && SortedTable(input) && Uncut(b, input, stopBefore, sizeOf, limit)
    requires b != [] ==> sizeOf(b) < limit && !StopSince(input, stopBefore, b[|b| - 1], n + 1)
    ensures Uncut(b + [input[n]], input, stopBefore, sizeOf, limit)
  {
    var more := b + [input[n]];
    forall m | 0 < m < |more|
      ensures sizeOf(more[..m]) < limit && !StopBetween(input, stopBefore, more[m - 1], more[m])
    {
      assert more[..m] == b[..m];
      if m == |b| {
        assert b[..m] == b;
        StopBetweenAt(input, stopBefore, b[m - 1], n);
      }
    }
  }

  lemma {:induction false} EmittedCut(v: Version, level: nat, input: seq<Entry>, smallest: nat, firstNumber: nat,
                                      stopBefore: seq<bool>, sizeOf: seq<Entry> -> nat, limit: nat, n: nat)
    requires n <= |input| == |stopBefore| && SortedTable(input)
    ensures CutSoFar(Emitted(v, level, input, smallest, firstNumber, stopBefore, sizeOf, limit, n),
                     input, stopBefore, sizeOf, limit, n)
  {
    hide CutSoFar, Obsolete, SortedTable, Outputs.Add, Outputs.Cut;
    if n == 0 {
      NothingCut(firstNumber, input, stopBefore, sizeOf, limit);
    } else {
      var before := Emitted(v, level, input, smallest, firstNumber, stopBefore, sizeOf, limit, n - 1);
      EmittedCut(v, level, input, smallest, firstNumber, stopBefore, sizeOf, limit, n - 1);
      StopPassed(before, input, stopBefore, sizeOf, limit, n - 1);
      var o := if stopBefore[n - 1] then before.Cut(sizeOf) else before;
      EntryAdded(o, input, stopBefore, sizeOf, limit, n - 1);
    }
  }

  lemma NothingCut(firstNumber: nat, input: seq<Entry>, stopBefore: seq<bool>, sizeOf: seq<Entry> -> nat, limit: nat)
    requires |input| == |stopBefore|
    ensures CutSoFar(Outputs([], [], firstNumber), input, stopBefore, sizeOf, limit, 0)
  {}

  lemma LastCut(o: Outputs, input: seq<Entry>, stopBefore: seq<bool>, sizeOf: seq<Entry> -> nat, limit: nat)
    requires |input| == |stopBefore| && CutSoFar(o, input, stopBefore, sizeOf, limit, |input|)
    ensures CutWhereDue(o.Cut(sizeOf).files, input, stopBefore, sizeOf, limit)
  {
    hide CutWhereDue, Uncut, Parted, Flat;
    if o.builder != [] { CutClosed(o, input, stopBefore, sizeOf, limit, |input|); }
  }

  /** DoCompactionWork.  `stopBefore` is the outcome of ShouldStopBefore for each input entry. */
  method DoCompactionWork(v: Version, level: nat, input: seq<Entry>, smallest: nat, firstNumber: nat,
                          stopBefore: seq<bool>, sizeOf: seq<Entry> -> nat, maxOutputFileSize: nat)
    returns (outputs: seq<File>)
    requires Layered(v) && SortedTable(input) && Distinct(Elements(input))
    requires smallest < MAX_SEQUENCE && |stopBefore| == |input|
    ensures Flat(outputs) == Kept(v, level, input, smallest, |input|)
    ensures (forall f :: f in outputs ==> Sealed(f)) && Numbered(outputs, firstNumber)
    ensures outputs == Emitted(v, level, input, smallest, firstNumber,
                               stopBefore, sizeOf, maxOutputFileSize, |input|).Cut(sizeOf).files
    ensures CutWhereDue(outputs, input, stopBefore, sizeOf, maxOutputFileSize)
  {
    hide CutWhereDue, CutSoFar;
    hide Obsolete, Sealed, Numbered, SortedTable, Distinct, Outputs.Cut, Outputs.Add;
    var rule := new DropRule(v, level, smallest, input);
    var o := Outputs([], [], firstNumber);
    for i := 0 to |input|
      invariant rule.At(input, i) && fresh(rule) && fresh(rule.cursors.ptrs)
      invariant o.Ok() && o.Contents() == Kept(v, level, input, smallest, i)
      invariant o == Emitted(v, level, input, smallest, firstNumber, stopBefore, sizeOf, maxOutputFileSize, i)
    {
      if stopBefore[i] {
        o := o.Cut(sizeOf);
      }
      var drop := rule.Drop(input, i, input[i]);
      if !drop {
        o := o.Add(input[i], sizeOf, maxOutputFileSize);
      }
    }
    outputs := o.Cut(sizeOf).files;
    EmittedCut(v, level, input, smallest, firstNumber, stopBefore, sizeOf, maxOutputFileSize, |input|);
    LastCut(o, input, stopBefore, sizeOf, maxOutputFileSize);
  }

  // ---------- the output files ----------

  lemma {:induction false} FlatElements(files: seq<File>)
    ensures forall e :: e in Flat(files) <==> e in FileEntries(files)
  {
    if files == [] {
    } else {
      var rest := files[..|files| - 1];
      FlatElements(rest);
      assert files == rest + [files[|files| - 1]];
    }
  }

  /** Cutting a sorted sequence into sealed files gives well-formed disjoint files. */
  lemma {:induction false} FlatDisjoint(files: seq<File>)
    requires SortedTable(Flat(files)) && forall f :: f in files ==> Sealed(f)
    ensures FilesOk(files) && Disjoint(files)
  {
    if files == [] {
    } else {
      var rest, last := files[..|files| - 1], files[|files| - 1];
      var front, all := Flat(rest), Flat(files);
      assert forall i :: 0 <= i < |front| ==> front[i] == all[i];
      assert forall i :: 0 <= i < |last.table| ==> last.table[i] == all[|front| + i];
      FlatDisjoint(rest);
      LastFollows(files);
      hide Flat;
    }
  }

  lemma {:induction false} LastFollows(files: seq<File>)
    requires files != [] && SortedTable(Flat(files)) && forall f :: f in files ==> Sealed(f)
    ensures forall i :: 0 <= i < |files| - 1 ==> Before(files[i].largest, files[|files| - 1].smallest)
  {
    var rest, last := files[..|files| - 1], files[|files| - 1];
    var front, all := Flat(rest), Flat(files);
    FlatElements(rest);
    assert all == front + last.table && last in files;
    forall i | 0 <= i < |rest| ensures Before(rest[i].largest, last.smallest) {
      assert rest[i] in files && rest[i] in rest;
      var e := rest[i].table[|rest[i].table| - 1];
      assert e in rest[i].table && e in FileEntries(rest);
      var j :| 0 <= j < |front| && front[j] == e;
      assert Before(all[j].key, all[|front|].key);
    }
  }

  // ---------- readers cannot tell ----------

  /** Entries that the compaction leaves out of its inputs at the next level. */
  ghost function LeftNext(v: Version, level: nat, in1: seq<File>): set<Entry>
    requires level + 1 < |v|
  {
    set f, e | f in v[level + 1] && f !in in1 && e in f.table :: e
  }

  /** The set-level content of a compaction.  `rest` is everything that is not an input, `next` the
      part of it left at level+1; outside `next` anything older than an input is deeper. */
  ghost predicate Split(v: Version, level: nat, inputs: set<Entry>, rest: set<Entry>, next: set<Entry>)
  {
    && Distinct(inputs + rest) && next <= rest && inputs !! rest
    && forall e, d :: e in inputs && d in rest - next && e.key.user == d.key.user && d.key.sequence < e.key.sequence ==>
         !BaseLevel(v, level, e.key.user)
  }

  ghost function Survivors(v: Version, level: nat, inputs: set<Entry>, smallest: nat): set<Entry>
  {
    set e | e in inputs && !Obsolete(v, level, inputs, smallest, e)
  }

  /** A dropped deletion uncovers an older value at the next level. */
  ghost predicate Uncovers(v: Version, level: nat, inputs: set<Entry>, rest: set<Entry>,
                           next: set<Entry>, smallest: nat, user: UserKey)
  {
    var newest := Newest(inputs + rest, user, smallest);
    && newest.Some? && newest.value in inputs && newest.value.key.kind.Deletion?
    && BaseLevel(v, level, user)
    && Read(next, user, smallest).Some?
  }

  /** One key, one snapshot: the reading changes only in the uncovered case. */
  lemma ReadAfterDrop(v: Version, level: nat, inputs: set<Entry>, rest: set<Entry>, next: set<Entry>,
                      smallest: nat, user: UserKey, s: nat)
    requires Split(v, level, inputs, rest, next) && smallest <= s
    requires !Uncovers(v, level, inputs, rest, next, smallest, user)
    ensures Read(inputs + rest, user, s) == Read(Survivors(v, level, inputs, smallest) + rest, user, s)
  {}

  /** When a dropped deletion does uncover a value, the reading at the smallest snapshot is wrong. */
  lemma UncoveredReadChanges(v: Version, level: nat, inputs: set<Entry>, rest: set<Entry>,
                             next: set<Entry>, smallest: nat, user: UserKey)
    requires Split(v, level, inputs, rest, next)
    requires Uncovers(v, level, inputs, rest, next, smallest, user)
    ensures Read(inputs + rest, user, smallest).None?
    ensures Read(Survivors(v, level, inputs, smallest) + rest, user, smallest).Some?
  {}

  /** Exactly when the drop rule is safe: for every snapshot the compaction must respect, every key
      reads the same, if and only if no dropped deletion uncovers a value left at the next level. */
  lemma DropRuleExact(v: Version, level: nat, inputs: set<Entry>, rest: set<Entry>, next: set<Entry>, smallest: nat)
    requires Split(v, level, inputs, rest, next)
    ensures ReadsEqual(inputs + rest, Survivors(v, level, inputs, smallest) + rest, smallest) <==>
              forall user :: !Uncovers(v, level, inputs, rest, next, smallest, user)
  {
    var E, D := inputs + rest, Survivors(v, level, inputs, smallest) + rest;
    if u :| Uncovers(v, level, inputs, rest, next, smallest, u) {
      UncoveredReadChanges(v, level, inputs, rest, next, smallest, u);
      assert Read(E, u, smallest) != Read(D, u, smallest);
    } else {
      forall user, s: nat | smallest <= s ensures Read(E, user, s) == Read(D, user, s) {
        ReadAfterDrop(v, level, inputs, rest, next, smallest, user, s);
      }
    }
  }
}
