/** Which files take part: overlap tests, the level for a flushed memtable, and the input files of
    a compaction (db/version_set.cc). */
module Selection {
  import opened Keys
  import opened Lists
  import opened Files
  import opened Lookup

  /** Not wholly before `begin` and not wholly after `end`; an absent bound excludes nothing. */
  predicate Overlaps(f: File, begin: Option<UserKey>, end: Option<UserKey>)
  {
    && (begin.Some? ==> f.largest.user >= begin.value)
    && (end.Some? ==> f.smallest.user <= end.value)
  }

  /** Some key of the file's range lies within the bounds. */
  lemma OverlapsIs(f: File, begin: Option<UserKey>, end: Option<UserKey>)
    requires f.smallest.user <= f.largest.user && (begin.Some? && end.Some? ==> begin.value <= end.value)
    ensures Overlaps(f, begin, end) <==>
              exists u :: HasUser(f, u) && (begin.Some? ==> begin.value <= u) && (end.Some? ==> u <= end.value)
  {
    var u := if begin.Some? && begin.value > f.smallest.user then begin.value else f.smallest.user;
    if Overlaps(f, begin, end) { assert HasUser(f, u); }
  }

  // ---------- overlap with a key range ----------

  /** SomeFileOverlapsRange: a scan of level 0, a binary search elsewhere. */
  method SomeFileOverlapsRange(disjointSorted: bool, files: seq<File>, smallest: Option<UserKey>,
                               largest: Option<UserKey>)
    returns (overlap: bool)
    requires FilesOk(files) && (disjointSorted ==> Disjoint(files))
    requires forall f, e :: f in files && e in f.table ==> e.key.sequence < MAX_SEQUENCE
    ensures overlap <==> exists f :: f in files && Overlaps(f, smallest, largest)
  {
    if !disjointSorted {
      for i := 0 to |files|
        invariant forall j :: 0 <= j < i ==> !Overlaps(files[j], smallest, largest)
      {
        if Overlaps(files[i], smallest, largest) {
          return true;
        }
      }
      return false;
    }
    var index := 0;
    if smallest.Some? {
      var key := LookupKey(smallest.value, MAX_SEQUENCE);
      index := FindFile(files, key);
      forall i | 0 <= i < |files|
        ensures Before(files[i].largest, key) <==> files[i].largest.user < smallest.value
      {
        assert files[i] in files && files[i].table[|files[i].table| - 1] in files[i].table;
      }
    }
    if index >= |files| {
      return false;
    }
    forall i | index < i < |files|
      ensures files[index].smallest.user <= files[i].smallest.user
    {
      AscendingEnds(files, index, i);
    }
    assert files[index] in files;
    return largest.None? || files[index].smallest.user <= largest.value;
  }

  function TotalSize(files: seq<File>): nat
  {
    if files == [] then 0 else files[0].size + TotalSize(files[1..])
  }

  /** The files that overlap a range, in order. */
  function Under(files: seq<File>, begin: Option<UserKey>, end: Option<UserKey>): seq<File>
  {
    if files == [] then []
    else
      var rest, last := Under(files[..|files| - 1], begin, end), files[|files| - 1];
      if Overlaps(last, begin, end) then rest + [last] else rest
  }

  lemma {:induction false} SizeMore(files: seq<File>, f: File)
    ensures TotalSize(files + [f]) == TotalSize(files) + f.size
  {
    if files != [] {
      assert (files + [f])[1..] == files[1..] + [f];
      SizeMore(files[1..], f);
    } else {
      assert [f][1..] == [] && TotalSize([]) == 0;
    }
  }

  lemma {:induction false} UnderSmaller(files: seq<File>, begin: Option<UserKey>, end: Option<UserKey>)
    ensures TotalSize(Under(files, begin, end)) <= TotalSize(files)
  {
    if files != [] {
      var rest, last := files[..|files| - 1], files[|files| - 1];
      UnderSmaller(rest, begin, end);
      SizeMore(Under(rest, begin, end), last);
      SizeMore(rest, last);
      assert files == rest + [last];
    }
  }

  lemma SizeOfTwo(f: File, g: File)
    ensures TotalSize([]) == 0 && TotalSize([f]) == f.size && TotalSize([f, g]) == f.size + g.size
  {
    SizeMore([], f);
    SizeMore([f], g);
    assert [] + [f] == [f] && [f] + [g] == [f, g];
  }

  ghost predicate Occupied(v: Version, level: nat, lo: UserKey, hi: UserKey)
  {
    exists f :: InLevel(v, level, f) && Meets(f, lo, hi)
  }

  /** A new table at `level` may go one deeper: nothing there overlaps it, and not too much below that. */
  ghost predicate MaySink(v: Version, level: nat, lo: UserKey, hi: UserKey, maxFileSize: nat)
    requires level + 2 < |v|
  {
    !Occupied(v, level + 1, lo, hi) && TotalSize(Under(v[level + 2], Some(lo), Some(hi))) <= 10 * maxFileSize
  }

  /** The deepest level, up to 2, that a new table reaches by sinking from level 0. */
  ghost predicate IsPicked(v: Version, lo: UserKey, hi: UserKey, maxFileSize: nat, level: nat)
    requires |v| == NUM_LEVELS
  {
    if Occupied(v, 0, lo, hi) then level == 0
    else level <= 2 && (forall l :: 0 <= l < level ==> MaySink(v, l, lo, hi, maxFileSize))
         && (level < 2 ==> !MaySink(v, level, lo, hi, maxFileSize))
  }

  /** The picked level is 0 where level 0 has the range; nothing down to it has the range, and it goes no deeper for
      files there or for more than ten file sizes below. */
  lemma PickedMeans(v: Version, lo: UserKey, hi: UserKey, maxFileSize: nat, level: nat, l: nat)
    requires |v| == NUM_LEVELS && IsPicked(v, lo, hi, maxFileSize, level)
    ensures level <= 2 && ((exists f :: f in v[0] && Meets(f, lo, hi)) ==> level == 0)
    ensures l < level ==>
              (forall f :: f in v[l + 1] ==> !Meets(f, lo, hi))
              && TotalSize(Under(v[l + 2], Some(lo), Some(hi))) <= 10 * maxFileSize
    ensures l == level < 2 && (forall f :: f in v[0] ==> !Meets(f, lo, hi)) ==>
              (exists f :: f in v[l + 1] && Meets(f, lo, hi))
              || TotalSize(Under(v[l + 2], Some(lo), Some(hi))) > 10 * maxFileSize
  {
    hide Under, TotalSize, Meets;
    if l < level { assert MaySink(v, l, lo, hi, maxFileSize); }
  }

  /** PickLevelForMemTableOutput: the file sinks as long as nothing beside it overlaps and little below does. */
  method PickLevelForMemTableOutput(v: Version, lo: UserKey, hi: UserKey, maxFileSize: nat) returns (level: nat)
    requires Layered(v)
    requires forall e :: e in Entries(v) ==> e.key.sequence < MAX_SEQUENCE
    ensures IsPicked(v, lo, hi, maxFileSize, level)
    ensures level > 0 ==> forall l: nat, f :: l <= level && InLevel(v, l, f) ==> !Meets(f, lo, hi)
  {
    level := 0;
    var overlap := OverlapInLevel(v, 0, lo, hi);
    if !overlap {
      while level < 2
        invariant level <= 2 && forall l :: 0 <= l < level ==> MaySink(v, l, lo, hi, maxFileSize)
        invariant forall l: nat, f :: l <= level && InLevel(v, l, f) ==> !Meets(f, lo, hi)
      {
        overlap := OverlapInLevel(v, level + 1, lo, hi);
        if overlap {
          break;
        }
        if level + 2 < NUM_LEVELS {
          LevelOk(v, level + 2);
          var grandparents := GetOverlappingInputs(level + 2, v[level + 2], Some(lo), Some(hi));
          if TotalSize(grandparents) > 10 * maxFileSize {
            break;
          }
        }
        level := level + 1;
      }
    }
  }

  method OverlapInLevel(v: Version, level: nat, lo: UserKey, hi: UserKey) returns (overlap: bool)
    requires Layered(v) && level < NUM_LEVELS
    requires forall e :: e in Entries(v) ==> e.key.sequence < MAX_SEQUENCE
    ensures overlap <==> Occupied(v, level, lo, hi)
  {
    LevelOk(v, level);
    forall f, e | f in v[level] && e in f.table ensures e.key.sequence < MAX_SEQUENCE {
      EntryOf(v, level, f, e);
    }
    overlap := SomeFileOverlapsRange(level > 0, v[level], Some(lo), Some(hi));
    if overlap {
      var f :| f in v[level] && Overlaps(f, Some(lo), Some(hi));
      assert InLevel(v, level, f) && Meets(f, lo, hi);
    } else if f :| InLevel(v, level, f) && Meets(f, lo, hi) {
      assert f in v[level] && Overlaps(f, Some(lo), Some(hi));
    }
  }

  // ---------- overlapping inputs ----------

  /** `C` holds every file that meets the range, and every file that meets a file of `C`. */
  ghost predicate OverlapClosed(C: set<File>, files: seq<File>, begin: Option<UserKey>, end: Option<UserKey>)
  {
    && (forall f :: f in files && Overlaps(f, begin, end) ==> f in C)
    && (forall f, g :: f in files && g in files && f in C && Meets(g, f.smallest.user, f.largest.user) ==> g in C)
  }

  /** The file meets the smallest user-key interval that covers `inputs`. */
  ghost predicate InHull(inputs: seq<File>, g: File)
  {
    exists f, h :: f in inputs && h in inputs && Meets(g, f.smallest.user, h.largest.user)
  }

  ghost predicate HullClosed(inputs: seq<File>, files: seq<File>)
  {
    forall g :: g in files && InHull(inputs, g) ==> g in inputs
  }

  ghost function StartsBelow(files: seq<File>, begin: Option<UserKey>): set<File>
  {
    set f | f in files && begin.Some? && f.smallest.user < begin.value
  }

  ghost function EndsAbove(files: seq<File>, end: Option<UserKey>): set<File>
  {
    set f | f in files && end.Some? && f.largest.user > end.value
  }

  /** GetOverlappingInputs.  At level 0 a file that widens the range restarts the scan. */
  method GetOverlappingInputs(level: nat, files: seq<File>, begin: Option<UserKey>, end: Option<UserKey>)
    returns (inputs: seq<File>)
    requires FilesOk(files)
    ensures forall f :: f in inputs ==> f in files
    ensures NoDups(files) ==> NoDups(inputs)
    ensures Disjoint(files) ==> Disjoint(inputs)
    ensures forall f :: f in files && Overlaps(f, begin, end) ==> f in inputs
    ensures level > 0 ==> inputs == Under(files, begin, end) && forall f :: f in inputs ==> Overlaps(f, begin, end)
    ensures level == 0 ==> HullClosed(inputs, files)
    ensures level == 0 ==> forall C :: OverlapClosed(C, files, begin, end) ==> forall f :: f in inputs ==> f in C
  {
    hide Scanned, Within, Under, NoDups, Disjoint, OverlapClosed, FilesOk, HullClosed, StartsBelow, EndsAbove, Overlaps;
    inputs := [];
    var lo, hi := begin, end;
    var i := 0;
    ClosedHolds(files, begin, end);
    ScanStart(level, files, begin, end, lo, hi);
    while i < |files|
      invariant 0 <= i <= |files| && Scanned(level, files, begin, end, lo, hi, i, inputs)
      decreases StartsBelow(files, lo), EndsAbove(files, hi), |files| - i
    {
      var f := files[i];
      ScanMore(level, files, begin, end, lo, hi, i, inputs);
      i := i + 1;
      if Overlaps(f, lo, hi) {
        inputs := inputs + [f];
        if level == 0 && lo.Some? && f.smallest.user < lo.value {
          WidenDown(files, begin, end, lo, hi, f);
          lo, inputs, i := Some(f.smallest.user), [], 0;
          ScanStart(level, files, begin, end, lo, hi);
        } else if level == 0 && hi.Some? && f.largest.user > hi.value {
          WidenUp(files, begin, end, lo, hi, f);
          hi, inputs, i := Some(f.largest.user), [], 0;
          ScanStart(level, files, begin, end, lo, hi);
        }
      }
    }
    ScanEnd(level, files, begin, end, lo, hi, inputs);
  }

  /** The range has only been widened, and only at level 0. */
  ghost predicate Widened(level: nat, files: seq<File>, begin: Option<UserKey>, end: Option<UserKey>,
                          lo: Option<UserKey>, hi: Option<UserKey>)
  {
    && lo.Some? == begin.Some? && hi.Some? == end.Some?
    && (begin.Some? ==> lo.value <= begin.value) && (end.Some? ==> hi.value >= end.value)
    && (level > 0 ==> lo == begin && hi == end)
    && Within(files, begin, end, lo, hi)
  }

  /** The scan has taken, of the first i files, those that overlap the range as widened. */
  ghost predicate Scanned(level: nat, files: seq<File>, begin: Option<UserKey>, end: Option<UserKey>,
                          lo: Option<UserKey>, hi: Option<UserKey>, i: nat, inputs: seq<File>)
    requires i <= |files|
  {
    && Widened(level, files, begin, end, lo, hi)
    && inputs == Under(files[..i], lo, hi)
    && (level == 0 ==> forall f :: f in inputs ==> Inside(f, lo, hi))
  }

  lemma ScanStart(level: nat, files: seq<File>, begin: Option<UserKey>, end: Option<UserKey>,
                  lo: Option<UserKey>, hi: Option<UserKey>)
    requires Widened(level, files, begin, end, lo, hi)
    ensures Scanned(level, files, begin, end, lo, hi, 0, [])
  {}

  lemma ScanMore(level: nat, files: seq<File>, begin: Option<UserKey>, end: Option<UserKey>,
                 lo: Option<UserKey>, hi: Option<UserKey>, i: nat, inputs: seq<File>)
    requires i < |files| && Scanned(level, files, begin, end, lo, hi, i, inputs)
    ensures Widened(level, files, begin, end, lo, hi)
    ensures !Overlaps(files[i], lo, hi) ==> Scanned(level, files, begin, end, lo, hi, i + 1, inputs)
    ensures Overlaps(files[i], lo, hi) && (level == 0 ==> Inside(files[i], lo, hi)) ==>
              Scanned(level, files, begin, end, lo, hi, i + 1, inputs + [files[i]])
  {
    hide Within;
    UnderStep(files, i, lo, hi);
    hide Under;
  }

  lemma ScanEnd(level: nat, files: seq<File>, begin: Option<UserKey>, end: Option<UserKey>,
                lo: Option<UserKey>, hi: Option<UserKey>, inputs: seq<File>)
    requires Scanned(level, files, begin, end, lo, hi, |files|, inputs)
    ensures forall f :: f in inputs ==> f in files
    ensures NoDups(files) ==> NoDups(inputs)
    ensures Disjoint(files) ==> Disjoint(inputs)
    ensures forall f :: f in files && Overlaps(f, begin, end) ==> f in inputs
    ensures level > 0 ==> inputs == Under(files, begin, end) && forall f :: f in inputs ==> Overlaps(f, begin, end)
    ensures level == 0 ==> HullClosed(inputs, files)
    ensures level == 0 ==> forall C :: OverlapClosed(C, files, begin, end) ==> forall f :: f in inputs ==> f in C
  {
    hide Under, NoDups, Disjoint, OverlapClosed, Within, HullClosed;
    assert files[..|files|] == files;
    UnderIs(files, lo, hi);
    if level == 0 {
      InsideHull(files, inputs, lo, hi);
      WithinClosed(files, begin, end, lo, hi);
    }
  }

  lemma {:induction false} UnderIs(files: seq<File>, lo: Option<UserKey>, hi: Option<UserKey>)
    ensures var inputs := Under(files, lo, hi);
      && (forall f :: f in inputs <==> f in files && Overlaps(f, lo, hi))
      && (NoDups(files) ==> NoDups(inputs)) && (Disjoint(files) ==> Disjoint(inputs))
  {
    if files != [] {
      var n := |files| - 1;
      hide NoDups, Disjoint, Overlaps;
      UnderIs(files[..n], lo, hi);
      assert files == files[..n] + [files[n]];
      PrefixOrder(files, n);
      PushKeepsOrder(Under(files[..n], lo, hi), files, n);
    }
  }

  lemma PrefixOrder(files: seq<File>, n: nat)
    requires n <= |files|
    ensures (NoDups(files) ==> NoDups(files[..n])) && (Disjoint(files) ==> Disjoint(files[..n]))
  {}

  /** Every closed set holds the files that overlap the widened range. */
  ghost predicate Within(files: seq<File>, begin: Option<UserKey>, end: Option<UserKey>,
                         lo: Option<UserKey>, hi: Option<UserKey>)
  {
    forall C, f :: OverlapClosed(C, files, begin, end) && f in files && Overlaps(f, lo, hi) ==> f in C
  }

  lemma ClosedHolds(files: seq<File>, begin: Option<UserKey>, end: Option<UserKey>)
    ensures Within(files, begin, end, begin, end)
  {}

  lemma WithinClosed(files: seq<File>, begin: Option<UserKey>, end: Option<UserKey>, lo: Option<UserKey>,
                     hi: Option<UserKey>)
    requires Within(files, begin, end, lo, hi)
    ensures forall C :: OverlapClosed(C, files, begin, end) ==> forall f :: f in files && Overlaps(f, lo, hi) ==> f in C
  {}

  lemma UnderStep(files: seq<File>, i: nat, begin: Option<UserKey>, end: Option<UserKey>)
    requires i < |files|
    ensures Under(files[..i + 1], begin, end) ==
              Under(files[..i], begin, end) + if Overlaps(files[i], begin, end) then [files[i]] else []
  {
    assert files[..i + 1][..i] == files[..i];
  }

  lemma InsideHull(files: seq<File>, inputs: seq<File>, lo: Option<UserKey>, hi: Option<UserKey>)
    requires forall f :: f in inputs <==> f in files && Overlaps(f, lo, hi)
    requires forall f :: f in inputs ==> Inside(f, lo, hi)
    ensures HullClosed(inputs, files)
  {}

  predicate Inside(f: File, lo: Option<UserKey>, hi: Option<UserKey>)
  {
    (lo.Some? ==> lo.value <= f.smallest.user) && (hi.Some? ==> f.largest.user <= hi.value)
  }

  lemma PushKeepsOrder(inputs: seq<File>, files: seq<File>, i: nat)
    requires i < |files| && forall f :: f in inputs ==> f in files[..i]
    ensures NoDups(files) && NoDups(inputs) ==> NoDups(inputs + [files[i]])
    ensures Disjoint(files) && Disjoint(inputs) ==> Disjoint(inputs + [files[i]])
  {
    forall p | 0 <= p < |inputs|
      ensures NoDups(files) ==> inputs[p] != files[i]
      ensures Disjoint(files) ==> Before(inputs[p].largest, files[i].smallest)
    {
      assert inputs[p] in files[..i];
    }
  }

  lemma StartNotAfterEnd(f: File)
    requires FileOk(f)
    ensures f.smallest == f.largest || Before(f.smallest, f.largest)
    ensures f.smallest.user <= f.largest.user
  {}

  /** Widening to the start of an overlapping file adds no file outside the least closed set. */
  lemma WidenDown(files: seq<File>, begin: Option<UserKey>, end: Option<UserKey>, lo: Option<UserKey>,
                  hi: Option<UserKey>, f: File)
    requires FilesOk(files) && f in files && Overlaps(f, lo, hi) && lo.Some? && f.smallest.user < lo.value
    requires Within(files, begin, end, lo, hi)
    ensures Within(files, begin, end, Some(f.smallest.user), hi)
    ensures StartsBelow(files, Some(f.smallest.user)) < StartsBelow(files, lo)
  {
    forall C, g | OverlapClosed(C, files, begin, end) && g in files && Overlaps(g, Some(f.smallest.user), hi)
      ensures g in C {
      assert f in C;
      StartNotAfterEnd(g);
      assert Overlaps(g, lo, hi) || Meets(g, f.smallest.user, f.largest.user);
    }
    assert f in StartsBelow(files, lo);
  }

  lemma WidenUp(files: seq<File>, begin: Option<UserKey>, end: Option<UserKey>, lo: Option<UserKey>,
                hi: Option<UserKey>, f: File)
    requires FilesOk(files) && f in files && Overlaps(f, lo, hi) && hi.Some? && f.largest.user > hi.value
    requires Within(files, begin, end, lo, hi)
    ensures Within(files, begin, end, lo, Some(f.largest.user))
    ensures EndsAbove(files, Some(f.largest.user)) < EndsAbove(files, hi)
  {
    forall C, g | OverlapClosed(C, files, begin, end) && g in files && Overlaps(g, lo, Some(f.largest.user))
      ensures g in C {
      assert f in C;
      StartNotAfterEnd(g);
      assert Overlaps(g, lo, hi) || Meets(g, f.smallest.user, f.largest.user);
    }
    assert f in EndsAbove(files, hi);
  }

  // ---------- boundary files ----------

  ghost predicate IsLargest(files: seq<File>, key: InternalKey)
  {
    && (exists f :: f in files && f.largest == key)
    && forall f :: f in files ==> f.largest == key || Before(f.largest, key)
  }

  method FindLargestKey(files: seq<File>) returns (largest: Option<InternalKey>)
    ensures files == [] <==> largest.None?
    ensures largest.Some? ==> IsLargest(files, largest.value)
  {
    if files == [] {
      return None;
    }
    var key := files[0].largest;
    for i := 1 to |files|
      invariant exists f :: f in files && f.largest == key
      invariant forall j :: 0 <= j < i ==> files[j].largest == key || Before(files[j].largest, key)
    {
      if Before(key, files[i].largest) {
        key := files[i].largest;
      }
    }
    return Some(key);
  }

  /** The file starts after `key` but still with the same user key. */
  predicate Continues(f: File, key: InternalKey)
  {
    Before(key, f.smallest) && f.smallest.user == key.user
  }

  method FindSmallestBoundaryFile(files: seq<File>, key: InternalKey) returns (best: Option<File>)
    ensures best.None? <==> forall f :: f in files ==> !Continues(f, key)
    ensures best.Some? ==> best.value in files && Continues(best.value, key)
    ensures best.Some? ==> forall f :: f in files && Continues(f, key) ==> !Before(f.smallest, best.value.smallest)
  {
    best := None;
    for i := 0 to |files|
      invariant best.None? <==> forall j :: 0 <= j < i ==> !Continues(files[j], key)
      invariant best.Some? ==> best.value in files && Continues(best.value, key)
      invariant best.Some? ==> forall j :: 0 <= j < i && Continues(files[j], key) ==>
                !Before(files[j].smallest, best.value.smallest)
    {
      if Continues(files[i], key) {
        if best.None? || Before(files[i].smallest, best.value.smallest) {
          best := Some(files[i]);
        }
      }
    }
  }

  /** No gap: a file that starts between two chosen files is chosen. */
  ghost predicate Convex(chosen: seq<File>, files: seq<File>)
  {
    forall f, g, h :: f in chosen && h in chosen && g in files && Before(f.smallest, g.smallest)
        && Before(g.smallest, h.smallest)
      ==> g in chosen
  }

  /** No file left behind continues the last user key of a chosen file that precedes it. */
  ghost predicate BoundaryClosed(chosen: seq<File>, files: seq<File>)
  {
    forall f, g :: f in chosen && g in files && g !in chosen && Before(f.largest, g.smallest) ==>
        f.largest.user < g.smallest.user
  }

  ghost predicate Sublist(chosen: seq<File>, files: seq<File>)
  {
    forall f :: f in chosen ==> f in files
  }

  lemma DisjointPair(files: seq<File>, f: File, g: File)
    requires FilesOk(files) && Disjoint(files) && f in files && g in files
    ensures f == g || Before(f.largest, g.smallest) || Before(g.largest, f.smallest)
    ensures Before(f.smallest, g.smallest) ==> Before(f.largest, g.smallest)
  {}

  ghost function StartsAfter(files: seq<File>, key: InternalKey): set<File>
  {
    set f | f in files && Before(key, f.smallest)
  }

  ghost function FileSet(files: seq<File>): set<File>
  {
    set f | f in files
  }

  /** Closed at its level: at level 0 with every file also those it meets, deeper also those that continue its last
      user key. */
  ghost predicate ClosedAt(files: seq<File>, level: nat, C: set<File>)
  {
    forall f, g :: f in C && f in files && g in files && Pulls(level, f, g) ==> g in C
  }

  ghost predicate Pulls(level: nat, f: File, g: File)
  {
    if level == 0 then Meets(g, f.smallest.user, f.largest.user)
    else Before(f.largest, g.smallest) && f.largest.user == g.smallest.user
  }

  /** The files of the level that must go along with some of them, and no others. */
  ghost predicate IsLeast(files: seq<File>, level: nat, first: set<File>, out: seq<File>)
  {
    && NoDups(out) && Sublist(out, files) && first <= FileSet(out) && ClosedAt(files, level, FileSet(out))
    && forall C: set<File> :: ClosedAt(files, level, C) && first <= C ==> FileSet(out) <= C
  }

  /** AddBoundaryInputs: chases files that continue the largest chosen user key. */
  method AddBoundaryInputs(files: seq<File>, compaction: seq<File>) returns (out: seq<File>)
    requires FilesOk(files) && Sublist(compaction, files) && NoDups(compaction)
    ensures compaction <= out && Sublist(out, files) && NoDups(out)
    ensures forall key :: IsLargest(out, key) ==> forall f :: f in files ==> !Continues(f, key)
    ensures HullClosed(compaction, files) ==> out == compaction
    ensures Disjoint(files) && Convex(compaction, files) ==> Convex(out, files) && BoundaryClosed(out, files)
    ensures forall C: set<File> :: ClosedAt(files, 1, C) && FileSet(compaction) <= C ==> FileSet(out) <= C
  {
    hide FileSet, ClosedAt;
    out := compaction;
    var largest := FindLargestKey(compaction);
    if largest.None? {
      return;
    }
    var key := largest.value;
    var searching := true;
    while searching
      invariant compaction <= out && Sublist(out, files) && NoDups(out)
      invariant IsLargest(out, key)
      invariant !searching ==> forall f :: f in files ==> !Continues(f, key)
      invariant HullClosed(compaction, files) ==> out == compaction
      invariant Disjoint(files) && Convex(compaction, files) ==> Convex(out, files)
      invariant forall C: set<File> :: ClosedAt(files, 1, C) && FileSet(compaction) <= C ==> FileSet(out) <= C
      decreases StartsAfter(files, key), searching
    {
      var best := FindSmallestBoundaryFile(files, key);
      if best.Some? {
        BoundaryStep(files, out, key, best.value);
        BoundaryPulled(files, out, key, best.value);
        out := out + [best.value];
        key := best.value.largest;
      } else {
        searching := false;
      }
    }
    UniqueLargest(out, key);
    if Disjoint(files) && Convex(compaction, files) {
      ConvexIsBoundaryClosed(files, out, key);
    }
  }

  lemma UniqueLargest(files: seq<File>, key: InternalKey)
    requires IsLargest(files, key)
    ensures forall k :: IsLargest(files, k) ==> !Before(k, key) && !Before(key, k) && k.user == key.user
  {}

  lemma BoundaryStep(files: seq<File>, out: seq<File>, key: InternalKey, b: File)
    requires FilesOk(files) && Sublist(out, files) && NoDups(out) && IsLargest(out, key)
    requires b in files && Continues(b, key)
    requires forall f :: f in files && Continues(f, key) ==> !Before(f.smallest, b.smallest)
    ensures IsLargest(out + [b], b.largest) && NoDups(out + [b]) && Sublist(out + [b], files)
    ensures !HullClosed(out, files)
    ensures Disjoint(files) && Convex(out, files) ==> Convex(out + [b], files)
    ensures StartsAfter(files, b.largest) < StartsAfter(files, key)
  {
    BoundaryIsNew(files, out, key, b);
    var m :| m in out && m.largest == key;
    assert InHull(out, b) by {
      StartNotAfterEnd(m);
      assert Meets(b, m.smallest.user, m.largest.user);
    }
    if Disjoint(files) && Convex(out, files) {
      BoundaryStepConvex(files, out, key, b);
    }
    assert b in StartsAfter(files, key);
    assert b !in StartsAfter(files, b.largest);
  }

  /** A boundary file belongs to every closed set that holds the files so far. */
  lemma BoundaryPulled(files: seq<File>, out: seq<File>, key: InternalKey, b: File)
    requires Sublist(out, files) && IsLargest(out, key) && b in files && Continues(b, key)
    ensures forall C: set<File> :: ClosedAt(files, 1, C) && FileSet(out) <= C ==> FileSet(out + [b]) <= C
  {
    var m :| m in out && m.largest == key;
    assert Pulls(1, m, b);
    forall C: set<File> | ClosedAt(files, 1, C) && FileSet(out) <= C ensures FileSet(out + [b]) <= C {
      assert m in FileSet(out) && m in C && b in C;
    }
  }

  lemma BoundaryIsNew(files: seq<File>, out: seq<File>, key: InternalKey, b: File)
    requires FilesOk(files) && Sublist(out, files) && NoDups(out) && IsLargest(out, key)
    requires b in files && Continues(b, key)
    ensures b !in out && IsLargest(out + [b], b.largest) && NoDups(out + [b])
    ensures StartsAfter(files, b.largest) <= StartsAfter(files, key) && !Before(b.largest, b.smallest)
  {}

  lemma BoundaryStepConvex(files: seq<File>, out: seq<File>, key: InternalKey, b: File)
    requires FilesOk(files) && Sublist(out, files) && IsLargest(out, key)
    requires b in files && Continues(b, key)
    requires forall f :: f in files && Continues(f, key) ==> !Before(f.smallest, b.smallest)
    requires Disjoint(files) && Convex(out, files)
    ensures Convex(out + [b], files)
  {}

  lemma ConvexIsBoundaryClosed(files: seq<File>, out: seq<File>, key: InternalKey)
    requires FilesOk(files) && Sublist(out, files) && Disjoint(files) && Convex(out, files) && IsLargest(out, key)
    requires forall f :: f in files ==> !Continues(f, key)
    ensures BoundaryClosed(out, files)
  {}

  // ---------- the inputs of one compaction ----------

  /** GetRange. */
  method GetRange(inputs: seq<File>) returns (smallest: InternalKey, largest: InternalKey)
    requires inputs != [] && FilesOk(inputs)
    ensures forall g :: InHull(inputs, g) <==> Meets(g, smallest.user, largest.user)
  {
    smallest, largest := inputs[0].smallest, inputs[0].largest;
    for i := 1 to |inputs|
      invariant exists f :: f in inputs && f.smallest == smallest
      invariant exists f :: f in inputs && f.largest == largest
      invariant forall j :: 0 <= j < i ==>
                  smallest.user <= inputs[j].smallest.user && inputs[j].largest.user <= largest.user
    {
      if Before(inputs[i].smallest, smallest) {
        smallest := inputs[i].smallest;
      }
      if Before(largest, inputs[i].largest) {
        largest := inputs[i].largest;
      }
    }
    var f :| f in inputs && f.smallest == smallest;
    var h :| h in inputs && h.largest == largest;
    forall g | Meets(g, smallest.user, largest.user) ensures InHull(inputs, g) {
      assert Meets(g, f.smallest.user, h.largest.user);
    }
  }

  /** What the input selection guarantees to the compaction. */
  ghost predicate ValidInputs(v: Version, level: nat, in0: seq<File>, in1: seq<File>)
  {
    && |v| == NUM_LEVELS && level + 1 < NUM_LEVELS
    && in0 != [] && Sublist(in0, v[level]) && NoDups(in0)
    && Sublist(in1, v[level + 1]) && NoDups(in1)
    && (forall g :: g in v[level + 1] ==> (g in in1 <==> InHull(in0, g)))
    && (level == 0 ==> HullClosed(in0, v[0]))
    && (level > 0 ==> BoundaryClosed(in0, v[level]))
  }

  /** What PickCompaction and CompactRange choose first. */
  ghost predicate SeedInputs(v: Version, level: nat, in0: seq<File>)
  {
    && |v| == NUM_LEVELS && level + 1 < NUM_LEVELS
    && in0 != [] && Sublist(in0, v[level]) && NoDups(in0)
    && (if level == 0 then HullClosed(in0, v[0]) else Convex(in0, v[level]))
  }

  /** The files of the next level under the hull of the inputs. */
  ghost function NextFiles(v: Version, level: nat, in0: seq<File>): set<File>
    requires level + 1 < |v|
  {
    set g | g in v[level + 1] && InHull(in0, g)
  }

  /** The files of the level under the hull of both inputs. */
  ghost function HullFiles(v: Version, level: nat, in0: seq<File>, in1: seq<File>): set<File>
    requires level < |v|
  {
    set g | g in v[level] && InHull(in0 + in1, g)
  }

  ghost predicate IsNext(v: Version, level: nat, in0: seq<File>, in1: seq<File>)
    requires level + 1 < |v|
  {
    NoDups(in1) && FileSet(in1) == NextFiles(v, level, in0)
  }

  /** The inputs may grow: there are more files in them, still within the limit, and they meet no more files of the
      next level. */
  ghost predicate Grows(v: Version, level: nat, a0: seq<File>, a1: seq<File>, e0: seq<File>, sizeLimit: nat)
    requires level + 1 < |v|
  {
    && a1 != [] && |e0| > |a0| && TotalSize(a1) + TotalSize(e0) < sizeLimit
    && |NextFiles(v, level, e0)| == |NextFiles(v, level, a0)|
  }

  /** The inputs for some first files: those, closed, with the files of the next level that they meet; or, if they may
      grow, the files under the hull of both, closed, with what these meet. */
  ghost predicate Chosen(v: Version, level: nat, first: set<File>, sizeLimit: nat, in0: seq<File>, in1: seq<File>)
    requires level + 1 < |v|
  {
    exists a0, a1, e0 :: ChosenBy(v, level, first, sizeLimit, in0, in1, a0, a1, e0)
  }

  ghost predicate ChosenBy(v: Version, level: nat, first: set<File>, sizeLimit: nat, in0: seq<File>, in1: seq<File>,
                           a0: seq<File>, a1: seq<File>, e0: seq<File>)
    requires level + 1 < |v|
  {
    && IsLeast(v[level], level, first, a0) && IsNext(v, level, a0, a1)
    && (a1 != [] ==> IsLeast(v[level], level, HullFiles(v, level, a0, a1), e0))
    && IsNext(v, level, in0, in1)
    && if Grows(v, level, a0, a1, e0, sizeLimit) then in0 == e0 else in0 == a0
  }

  /** The next level's inputs: every file there that meets the hull of `in0`. */
  method NextLevelInputs(v: Version, level: nat, in0: seq<File>) returns (in1: seq<File>)
    requires Layered(v) && level + 1 < NUM_LEVELS && in0 != [] && Sublist(in0, v[level])
    ensures Sublist(in1, v[level + 1]) && NoDups(in1)
    ensures forall g :: g in v[level + 1] ==> (g in in1 <==> InHull(in0, g))
    ensures IsNext(v, level, in0, in1) && |in1| == |NextFiles(v, level, in0)|
  {
    LevelOk(v, level);
    LevelOk(v, level + 1);
    var smallest, largest := GetRange(in0);
    in1 := GetOverlappingInputs(level + 1, v[level + 1], Some(smallest.user), Some(largest.user));
    CountSet(in1);
  }

  lemma {:induction false} CountSet(files: seq<File>)
    requires NoDups(files)
    ensures |FileSet(files)| == |files|
  {
    if files != [] {
      var n := |files| - 1;
      CountSet(files[..n]);
      assert files == files[..n] + [files[n]];
      assert FileSet(files) == FileSet(files[..n]) + {files[n]};
    }
  }

  /** Closes a first choice of inputs at its own level. */
  method CloseInputs(v: Version, level: nat, seed: seq<File>) returns (in0: seq<File>)
    requires Layered(v) && level + 1 < NUM_LEVELS && Sublist(seed, v[level]) && NoDups(seed)
    requires if level == 0 then HullClosed(seed, v[0]) else Convex(seed, v[level])
    ensures seed <= in0 && Sublist(in0, v[level]) && NoDups(in0)
    ensures level == 0 ==> HullClosed(in0, v[0])
    ensures level > 0 ==> BoundaryClosed(in0, v[level])
    ensures IsLeast(v[level], level, FileSet(seed), in0)
  {
    LevelOk(v, level);
    in0 := AddBoundaryInputs(v[level], seed);
    ClosedLeast(v[level], level, seed, in0);
  }

  lemma ClosedLeast(files: seq<File>, level: nat, seed: seq<File>, out: seq<File>)
    requires FilesOk(files) && seed <= out && NoDups(out) && Sublist(out, files)
    requires if level == 0 then HullClosed(out, files) && out == seed else BoundaryClosed(out, files)
    requires forall C: set<File> :: ClosedAt(files, 1, C) && FileSet(seed) <= C ==> FileSet(out) <= C
    ensures IsLeast(files, level, FileSet(seed), out)
  {
    forall f, g | f in out && f in files && g in files && Pulls(level, f, g) ensures g in out {
      if level == 0 { assert InHull(out, g); }
    }
    forall C: set<File> | ClosedAt(files, level, C) && FileSet(seed) <= C ensures FileSet(out) <= C {
      if level > 0 { ClosedDeep(files, level, C); }
    }
  }

  lemma ClosedDeep(files: seq<File>, level: nat, C: set<File>)
    requires level > 0
    ensures ClosedAt(files, level, C) <==> ClosedAt(files, 1, C)
  {
    assert forall f, g :: Pulls(level, f, g) <==> Pulls(1, f, g);
  }

  /** SetupOtherInputs: adds boundary files, picks the next level, and grows the first set when
      that leaves the second unchanged in number. */
  method SetupOtherInputs(v: Version, level: nat, seed: seq<File>, sizeLimit: nat)
      returns (in0: seq<File>, in1: seq<File>)
    requires Layered(v) && SeedInputs(v, level, seed)
    ensures ValidInputs(v, level, in0, in1) && Sublist(seed, in0)
    ensures Chosen(v, level, FileSet(seed), sizeLimit, in0, in1)
  {
    hide IsLeast, HullFiles, NextFiles, FileSet, Layered, HullClosed, BoundaryClosed;
    in0 := CloseInputs(v, level, seed);
    in1 := NextLevelInputs(v, level, in0);
    ghost var a0, a1, e0: seq<File> := in0, in1, [];
    if in1 != [] {
      var expanded0 := GrowInputs(v, level, in0, in1);
      e0 := expanded0;
      if |expanded0| > |in0| && TotalSize(in1) + TotalSize(expanded0) < sizeLimit {
        var expanded1 := NextLevelInputs(v, level, expanded0);
        if |expanded1| == |in1| {
          in0, in1 := expanded0, expanded1;
        }
      }
    }
    assert ChosenBy(v, level, FileSet(seed), sizeLimit, in0, in1, a0, a1, e0);
  }

  /** The files of `level` under the whole range of the compaction, closed again. */
  method GrowInputs(v: Version, level: nat, in0: seq<File>, in1: seq<File>) returns (expanded0: seq<File>)
    requires Layered(v) && level + 1 < NUM_LEVELS && in0 != [] && Sublist(in0, v[level]) && Sublist(in1, v[level + 1])
    ensures Sublist(in0, expanded0) && Sublist(expanded0, v[level]) && NoDups(expanded0)
    ensures level == 0 ==> HullClosed(expanded0, v[0])
    ensures level > 0 ==> BoundaryClosed(expanded0, v[level])
    ensures IsLeast(v[level], level, HullFiles(v, level, in0, in1), expanded0)
  {
    LevelOk(v, level);
    LevelOk(v, level + 1);
    var start, limit := GetRange(in0 + in1);
    var under := GetOverlappingInputs(level, v[level], Some(start.user), Some(limit.user));
    InOwnHull(in0, in1);
    if level > 0 {
      OverlapIsConvex(v[level], under, start.user, limit.user);
    }
    LeastUnder(v[level], level, HullFiles(v, level, in0, in1), Some(start.user), Some(limit.user), under);
    hide IsLeast, OverlapClosed, HullClosed, BoundaryClosed, Layered;
    expanded0 := CloseInputs(v, level, under);
    LeastOfLeast(v[level], level, HullFiles(v, level, in0, in1), under, expanded0);
  }

  /** What GetOverlappingInputs finds: on level 0 already closed, deeper not yet. */
  ghost predicate LeastFound(files: seq<File>, level: nat, first: set<File>, under: seq<File>)
  {
    if level == 0 then IsLeast(files, 0, first, under) else FileSet(under) == first
  }

  lemma LeastUnder(files: seq<File>, level: nat, first: set<File>, begin: Option<UserKey>, end: Option<UserKey>,
                   under: seq<File>)
    requires forall f :: f in first <==> f in files && Overlaps(f, begin, end)
    requires Sublist(under, files) && NoDups(under) && (forall f :: f in files && Overlaps(f, begin, end) ==>
             f in under)
    requires level > 0 ==> forall f :: f in under ==> Overlaps(f, begin, end)
    requires level == 0 ==> HullClosed(under, files)
    requires level == 0 ==> forall C :: OverlapClosed(C, files, begin, end) ==> forall f :: f in under ==> f in C
    ensures LeastFound(files, level, first, under)
  {
    if level == 0 {
      forall f, g | f in under && g in files && Pulls(0, f, g) ensures g in under { assert InHull(under, g); }
      forall C: set<File> | ClosedAt(files, 0, C) && first <= C ensures FileSet(under) <= C {
        forall f, g | f in files && g in files && f in C && Meets(g, f.smallest.user, f.largest.user) ensures g in C {
          assert Pulls(0, f, g);
        }
        assert OverlapClosed(C, files, begin, end);
      }
    }
  }

  lemma LeastOfLeast(files: seq<File>, level: nat, first: set<File>, under: seq<File>, out: seq<File>)
    requires LeastFound(files, level, first, under) && IsLeast(files, level, FileSet(under), out)
    ensures IsLeast(files, level, first, out)
  {}

  lemma InOwnHull(in0: seq<File>, in1: seq<File>)
    requires FilesOk(in0)
    ensures forall f :: f in in0 ==> InHull(in0 + in1, f)
  {
    forall f | f in in0 ensures InHull(in0 + in1, f) {
      StartNotAfterEnd(f);
      assert f in in0 + in1 && Meets(f, f.smallest.user, f.largest.user);
    }
  }

  lemma OverlapIsConvex(files: seq<File>, chosen: seq<File>, lo: UserKey, hi: UserKey)
    requires FilesOk(files) && Disjoint(files)
    requires forall f :: f in chosen <==> f in files && Overlaps(f, Some(lo), Some(hi))
    ensures Convex(chosen, files)
  {}

  /** The first file that ends past the compaction pointer, or the first of all when none does. */
  ghost predicate IsNextFile(files: seq<File>, pointer: Option<InternalKey>, f: File)
  {
    exists i :: 0 <= i < |files| && files[i] == f && NextAt(files, pointer, i)
  }

  ghost predicate NextAt(files: seq<File>, pointer: Option<InternalKey>, i: nat)
    requires i < |files|
  {
    if pointer.None? then i == 0
    else if Before(pointer.value, files[i].largest)
    then forall j :: 0 <= j < i ==> !Before(pointer.value, files[j].largest)
    else i == 0 && forall j :: 0 <= j < |files| ==> !Before(pointer.value, files[j].largest)
  }

  /** PickCompaction, size-triggered: the first file past the compaction pointer, wrapping around. */
  method PickCompaction(v: Version, level: nat, pointer: Option<InternalKey>, sizeLimit: nat)
    returns (in0: seq<File>, in1: seq<File>)
    requires Layered(v) && level + 1 < NUM_LEVELS && v[level] != []
    ensures ValidInputs(v, level, in0, in1)
    ensures exists f :: IsNextFile(v[level], pointer, f) && f in in0 && Chosen(v, level, {f}, sizeLimit, in0, in1)
  {
    var pick := 0;
    while pick < |v[level]| && !(pointer.None? || Before(pointer.value, v[level][pick].largest))
      invariant 0 <= pick <= |v[level]| && (pointer.None? ==> pick == 0)
      invariant forall j :: 0 <= j < pick ==> pointer.Some? && !Before(pointer.value, v[level][j].largest)
    {
      pick := pick + 1;
    }
    if pick == |v[level]| {
      pick := 0;
    }
    assert NextAt(v[level], pointer, pick);
    in0, in1 := CompactFile(v, level, v[level][pick], sizeLimit);
  }

  /** The compaction of one chosen file (also PickCompaction, seek-triggered). */
  method CompactFile(v: Version, level: nat, f: File, sizeLimit: nat) returns (in0: seq<File>, in1: seq<File>)
    requires Layered(v) && level + 1 < NUM_LEVELS && InLevel(v, level, f)
    ensures ValidInputs(v, level, in0, in1) && f in in0
    ensures Chosen(v, level, {f}, sizeLimit, in0, in1)
  {
    LevelOk(v, level);
    var seed := [f];
    if level == 0 {
      var smallest, largest := GetRange(seed);
      StartNotAfterEnd(f);
      seed := GetOverlappingInputs(0, v[0], Some(smallest.user), Some(largest.user));
      assert f in [f] && InHull([f], f) by { assert Meets(f, f.smallest.user, f.largest.user); }
      LeastAround(v[0], f, Some(smallest.user), Some(largest.user), seed);
    }
    hide LeastFound, OverlapClosed, HullClosed, BoundaryClosed, Layered, Chosen;
    assert LeastFound(v[level], level, {f}, seed) by { OnlyOne(v[level], level, f, seed); }
    in0, in1 := SetupOtherInputs(v, level, seed, sizeLimit);
    ChosenFrom(v, level, {f}, seed, sizeLimit, in0, in1);
  }

  lemma OnlyOne(files: seq<File>, level: nat, f: File, seed: seq<File>)
    requires if level == 0 then LeastFound(files, 0, {f}, seed) else seed == [f]
    ensures LeastFound(files, level, {f}, seed)
  {}

  lemma LeastAround(files: seq<File>, f: File, begin: Option<UserKey>, end: Option<UserKey>, seed: seq<File>)
    requires f in files && NoDups(seed) && Sublist(seed, files) && f in seed && HullClosed(seed, files)
    requires forall g :: g in files ==> (Overlaps(g, begin, end) <==> InHull([f], g))
    requires forall C :: OverlapClosed(C, files, begin, end) ==> forall g :: g in seed ==> g in C
    ensures LeastFound(files, 0, {f}, seed)
  {
    forall g, h | g in seed && h in files && Pulls(0, g, h) ensures h in seed { assert InHull(seed, h); }
    forall C: set<File> | ClosedAt(files, 0, C) && {f} <= C ensures FileSet(seed) <= C {
      forall g | g in files && Overlaps(g, begin, end) ensures g in C { assert Pulls(0, f, g); }
      forall g, h | g in files && h in files && g in C && Meets(h, g.smallest.user, g.largest.user) ensures h in C {
        assert Pulls(0, g, h);
      }
      assert OverlapClosed(C, files, begin, end);
    }
  }

  /** The choice depends on the first files only. */
  lemma ChosenFrom(v: Version, level: nat, first: set<File>, seed: seq<File>, sizeLimit: nat, in0: seq<File>,
                   in1: seq<File>)
    requires level + 1 < |v| && LeastFound(v[level], level, first, seed)
    requires Chosen(v, level, FileSet(seed), sizeLimit, in0, in1)
    ensures Chosen(v, level, first, sizeLimit, in0, in1)
  {
    hide IsLeast, IsNext, HullFiles, NextFiles, LeastFound, FileSet, Grows;
    var a0, a1, e0 :| ChosenBy(v, level, FileSet(seed), sizeLimit, in0, in1, a0, a1, e0);
    LeastOfLeast(v[level], level, first, seed, a0);
    assert ChosenBy(v, level, first, sizeLimit, in0, in1, a0, a1, e0);
  }

  // ---------- the choice is determined ----------

  lemma {:induction false} SizeWithout(files: seq<File>, f: File)
    requires f in files
    ensures TotalSize(Without(files, f)) == TotalSize(files) - f.size
  {
    if files[0] != f { SizeWithout(files[1..], f); }
  }

  /** Lists of the same files have the same length and size. */
  lemma {:induction false} SameFiles(a: seq<File>, b: seq<File>)
    requires NoDups(a) && NoDups(b) && FileSet(a) == FileSet(b)
    ensures |a| == |b| && TotalSize(a) == TotalSize(b)
  {
    CountSet(a);
    CountSet(b);
    if a != [] {
      var f := a[0];
      assert f in FileSet(b);
      Pop(a);
      SizeWithout(b, f);
      FirstTaken(a, b);
      SameFiles(a[1..], Without(b, f));
    }
  }

  lemma FirstTaken(a: seq<File>, b: seq<File>)
    requires a != [] && NoDups(a) && NoDups(b) && FileSet(a) == FileSet(b)
    ensures FileSet(a[1..]) == FileSet(Without(b, a[0])) && NoDups(Without(b, a[0]))
  {
    Pop(a);
    forall g ensures g in FileSet(a[1..]) <==> g in FileSet(Without(b, a[0])) {
      assert g in a <==> g in FileSet(a);
      assert g in b <==> g in FileSet(b);
    }
  }

  lemma LeastUnique(files: seq<File>, level: nat, first: set<File>, a: seq<File>, b: seq<File>)
    requires IsLeast(files, level, first, a) && IsLeast(files, level, first, b)
    ensures FileSet(a) == FileSet(b) && |a| == |b| && TotalSize(a) == TotalSize(b)
  {
    hide ClosedAt, Sublist;
    SameFiles(a, b);
  }

  lemma SameHulls(v: Version, level: nat, a: seq<File>, b: seq<File>, a1: seq<File>, b1: seq<File>)
    requires level + 1 < |v| && FileSet(a) == FileSet(b) && FileSet(a1) == FileSet(b1)
    ensures NextFiles(v, level, a) == NextFiles(v, level, b) && HullFiles(v, level, a, a1) == HullFiles(v, level, b, b1)
  {
    assert forall f :: f in FileSet(a) <==> f in a;
    assert forall f :: f in FileSet(b) <==> f in b;
    assert forall f :: f in FileSet(a1) <==> f in a1;
    assert forall f :: f in FileSet(b1) <==> f in b1;
    hide FileSet, Meets;
    assert forall g :: InHull(a, g) <==> InHull(b, g);
    assert forall g :: InHull(a + a1, g) <==> InHull(b + b1, g);
    hide InHull;
  }

  /** When the inputs grow, whatever lists the files are given in: exactly when the files of the level under the hull
      of both inputs, closed, are more, fit the limit with the files of the next level, and meet no more of these. */
  lemma GrowExactly(v: Version, level: nat, first: set<File>, sizeLimit: nat, in0: seq<File>, in1: seq<File>,
                    a0: seq<File>, a1: seq<File>, e0: seq<File>)
    requires level + 1 < |v| && Chosen(v, level, first, sizeLimit, in0, in1)
    requires IsLeast(v[level], level, first, a0) && IsNext(v, level, a0, a1)
    requires IsLeast(v[level], level, HullFiles(v, level, a0, a1), e0)
    ensures FileSet(in0) ==
              if a1 != [] && |e0| > |a0| && TotalSize(a1) + TotalSize(e0) < sizeLimit
                 && |NextFiles(v, level, e0)| == |NextFiles(v, level, a0)|
              then FileSet(e0) else FileSet(a0)
    ensures FileSet(in1) == NextFiles(v, level, in0)
  {
    hide IsLeast, HullFiles, NextFiles, FileSet;
    var b0, b1, d0 :| ChosenBy(v, level, first, sizeLimit, in0, in1, b0, b1, d0);
    LeastUnique(v[level], level, first, a0, b0);
    SameHulls(v, level, a0, b0, [], []);
    SameFiles(a1, b1);
    SameHulls(v, level, a0, b0, a1, b1);
    if b1 != [] {
      LeastUnique(v[level], level, HullFiles(v, level, a0, a1), e0, d0);
      SameHulls(v, level, e0, d0, [], []);
    }
  }

  /** How many files it takes to reach the limit, or all of them. */
  function FilesWithin(files: seq<File>, limit: nat, total: nat): (n: nat)
    ensures n <= |files| && (files != [] ==> n > 0)
  {
    if files == [] then 0
    else if total + files[0].size >= limit then 1
    else 1 + FilesWithin(files[1..], limit, total + files[0].size)
  }

  /** It is the fewest files, but at least one, that reach the limit; or all, when these do not. */
  lemma {:induction false} FilesWithinIs(files: seq<File>, limit: nat, total: nat)
    ensures var n := FilesWithin(files, limit, total);
      && (n < |files| ==> total + TotalSize(files[..n]) >= limit)
      && forall m :: 0 < m < n ==> total + TotalSize(files[..m]) < limit
  {
    if files != [] {
      var n, more := FilesWithin(files, limit, total), total + files[0].size;
      FilesWithinIs(files[1..], limit, more);
      if n > 0 { SizeOfPrefix(files, n); }
      forall m | 0 < m < n ensures total + TotalSize(files[..m]) < limit {
        SizeOfPrefix(files, m);
        assert m == 1 ==> files[1..][..0] == [];
      }
      assert n == 1 ==> files[1..][..0] == [];
    }
  }

  lemma SizeOfPrefix(files: seq<File>, m: nat)
    requires 0 < m <= |files|
    ensures TotalSize(files[..m]) == files[0].size + TotalSize(files[1..][..m - 1])
  {
    assert files[..m][1..] == files[1..][..m - 1];
  }

  /** What a manual compaction of a range must take: all files under it at level 0, elsewhere the first ones. */
  function RangeFiles(v: Version, level: nat, begin: Option<UserKey>, end: Option<UserKey>, fileLimit: nat): seq<File>
    requires level < |v|
  {
    var files := Under(v[level], begin, end);
    if level == 0 then files else files[..FilesWithin(files, fileLimit, 0)]
  }

  /** CompactRange: the files under a manual range, cut short below level 0 once big enough. */
  method CompactRange(v: Version, level: nat, begin: Option<UserKey>, end: Option<UserKey>,
                      fileLimit: nat, sizeLimit: nat)
    returns (in0: seq<File>, in1: seq<File>)
    requires Layered(v) && level + 1 < NUM_LEVELS
    ensures if exists f :: f in v[level] && Overlaps(f, begin, end)
            then ValidInputs(v, level, in0, in1) && Sublist(RangeFiles(v, level, begin, end, fileLimit), in0)
                 && Chosen(v, level, FileSet(RangeFiles(v, level, begin, end, fileLimit)), sizeLimit, in0, in1)
            else in0 == in1 == []
  {
    LevelOk(v, level);
    var inputs := GetOverlappingInputs(level, v[level], begin, end);
    ghost var range := RangeFiles(v, level, begin, end, fileLimit);
    RangeIsFound(v, level, begin, end, inputs);
    hide LeastFound, OverlapClosed, HullClosed, BoundaryClosed, Layered, Chosen, IsLeast, FileSet, FilesOk, Disjoint;
    if inputs == [] {
      return [], [];
    }
    if level > 0 {
      var n := Shorten(inputs, fileLimit);
      PrefixIsConvex(v[level], inputs, begin, end, n);
      PrefixFound(v[level], level, inputs, n);
      inputs := inputs[..n];
    }
    in0, in1 := SetupOtherInputs(v, level, inputs, sizeLimit);
    RangeWithin(v[level], level, range, inputs, in0);
    ChosenFrom(v, level, FileSet(range), inputs, sizeLimit, in0, in1);
  }

  lemma RangeIsFound(v: Version, level: nat, begin: Option<UserKey>, end: Option<UserKey>, inputs: seq<File>)
    requires level < |v| && Sublist(inputs, v[level]) && NoDups(inputs)
    requires forall f :: f in v[level] && Overlaps(f, begin, end) ==> f in inputs
    requires level > 0 ==> inputs == Under(v[level], begin, end) && forall f :: f in inputs ==> Overlaps(f, begin, end)
    requires level == 0 ==> HullClosed(inputs, v[0])
    requires level == 0 ==> forall C :: OverlapClosed(C, v[0], begin, end) ==> forall f :: f in inputs ==> f in C
    ensures inputs == [] <==> forall f :: f in v[level] ==> !Overlaps(f, begin, end)
    ensures LeastFound(v[level], level, FileSet(Under(v[level], begin, end)), inputs)
  {
    UnderHas(v[level], begin, end);
    LeastUnder(v[level], level, FileSet(Under(v[level], begin, end)), begin, end, inputs);
    assert inputs != [] ==> inputs[0] in inputs;
    assert OverlapClosed({}, v[level], begin, end) || exists f :: f in v[level] && Overlaps(f, begin, end);
  }

  lemma PrefixFound(files: seq<File>, level: nat, inputs: seq<File>, n: nat)
    requires level > 0 && n <= |inputs|
    ensures LeastFound(files, level, FileSet(inputs[..n]), inputs[..n])
  {}

  lemma RangeWithin(files: seq<File>, level: nat, range: seq<File>, inputs: seq<File>, in0: seq<File>)
    requires LeastFound(files, level, FileSet(range), inputs) && Sublist(inputs, in0)
    ensures Sublist(range, in0)
  {
    forall f | f in range ensures f in in0 { assert f in FileSet(range); }
  }

  /** Avoids compacting too much in one shot. */
  method Shorten(inputs: seq<File>, limit: nat) returns (n: nat)
    ensures n == FilesWithin(inputs, limit, 0)
  {
    var total, i := 0, 0;
    n := |inputs|;
    while i < n
      invariant 0 <= i <= n <= |inputs| && total >= 0
      invariant if n == |inputs| && (i == 0 || total < limit)
                then FilesWithin(inputs, limit, 0) == i + FilesWithin(inputs[i..], limit, total)
                else n == i == FilesWithin(inputs, limit, 0)
    {
      assert inputs[i..][1..] == inputs[i + 1..];
      total := total + inputs[i].size;
      i := i + 1;
      if total >= limit {
        n := i;
      }
    }
  }

  lemma {:induction false} UnderHas(files: seq<File>, begin: Option<UserKey>, end: Option<UserKey>)
    ensures forall f :: f in Under(files, begin, end) <==> f in files && Overlaps(f, begin, end)
  {
    if files != [] {
      var n := |files| - 1;
      UnderHas(files[..n], begin, end);
      assert files == files[..n] + [files[n]];
    }
  }

  lemma PrefixIsConvex(files: seq<File>, inputs: seq<File>, begin: Option<UserKey>, end: Option<UserKey>, n: nat)
    requires FilesOk(files) && Disjoint(files) && Disjoint(inputs) && Sublist(inputs, files) && n <= |inputs|
    requires forall f :: f in inputs <==> f in files && Overlaps(f, begin, end)
    ensures Convex(inputs[..n], files)
  {
    var chosen := inputs[..n];
    forall f, g, h | f in chosen && h in chosen && g in files && Before(f.smallest, g.smallest)
        && Before(g.smallest, h.smallest)
      ensures g in chosen
    {
      DisjointPair(files, f, g);
      StartNotAfterEnd(g);
      assert f in inputs && h in inputs;
      var i, j :| 0 <= i < |inputs| && 0 <= j < n && inputs[i] == g && inputs[j] == h;
      StartNotAfterEnd(h);
      assert i <= j;
      assert chosen[i] == g;
    }
  }
}
