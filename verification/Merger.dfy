/** MergingIterator: many sorted children seen as one sorted sequence (table/merger.cc). */
module Merger {
  import opened Keys

  // ---------- positions in one sorted table; |t| means "not valid" ----------

  /** Exactly the entries before `p` come before `key`. */
  ghost predicate SplitsAt(t: seq<Entry>, p: nat, key: InternalKey)
  {
    && p <= |t|
    && (forall j :: 0 <= j < p ==> Before(t[j].key, key))
    && (forall j :: p <= j < |t| ==> !Before(t[j].key, key))
  }

  /** `p` is the last entry before `key`, or not valid when there is none. */
  ghost predicate LastBefore(t: seq<Entry>, p: nat, key: InternalKey)
  {
    && p <= |t|
    && (p < |t| ==> Before(t[p].key, key))
    && (forall j :: (if p < |t| then p < j else 0 <= j) && j < |t| ==> !Before(t[j].key, key))
  }

  method Seek(t: seq<Entry>, key: InternalKey) returns (p: nat)
    requires SortedTable(t)
    ensures SplitsAt(t, p, key)
  {
    p := 0;
    while p < |t| && Before(t[p].key, key)
      invariant p <= |t| && forall j :: 0 <= j < p ==> Before(t[j].key, key)
    {
      p := p + 1;
    }
  }

  /** The previous position, or not valid before the first. */
  function StepBack(t: seq<Entry>, p: nat): nat
    requires p < |t|
  {
    if p == 0 then |t| else p - 1
  }

  function LastPosition(t: seq<Entry>): nat
  {
    if t == [] then 0 else |t| - 1
  }

  // ---------- the sorted union ----------

  ghost predicate AllSorted(children: seq<seq<Entry>>)
  {
    forall i :: 0 <= i < |children| ==> SortedTable(children[i])
  }

  /** Keys of different children differ. */
  ghost predicate KeysDiffer(children: seq<seq<Entry>>)
  {
    forall i, j, a, b ::
      0 <= i < |children| && 0 <= j < |children| && i != j && a in children[i] && b in children[j] ==>
      Before(a.key, b.key) || Before(b.key, a.key)
  }

  /** `all` is the sorted union of the children. */
  ghost predicate IsUnion(all: seq<Entry>, children: seq<seq<Entry>>)
  {
    && SortedTable(all)
    && (forall e :: e in all ==> exists i :: 0 <= i < |children| && e in children[i])
    && (forall i, e :: 0 <= i < |children| && e in children[i] ==> e in all)
  }

  ghost predicate Positions(children: seq<seq<Entry>>, pos: seq<nat>)
  {
    |pos| == |children| && forall i :: 0 <= i < |pos| ==> pos[i] <= |children[i]|
  }

  /** The child stands at its first entry from all[n] on. */
  ghost predicate ChildCut(t: seq<Entry>, p: nat, all: seq<Entry>, n: nat)
    requires n <= |all|
  {
    if n < |all| then SplitsAt(t, p, all[n].key) else p == |t|
  }

  /** A position that splits the child the way n splits the union. */
  lemma CutChild(t: seq<Entry>, p: nat, all: seq<Entry>, n: nat)
    requires SortedTable(all) && n <= |all| && p <= |t|
    requires forall j, k :: 0 <= j < |t| && 0 <= k < |all| && t[j] == all[k] ==> (j < p <==> k < n)
    requires forall e :: e in t ==> e in all
    ensures ChildCut(t, p, all, n)
  {
    forall j | 0 <= j < |t| ensures j < p <==> n == |all| || Before(t[j].key, all[n].key) {
      assert t[j] in t && t[j] in all;
      var k :| 0 <= k < |all| && all[k] == t[j];
      assert t[j] == all[k];
    }
    if p < |t| {
      var e := t[p];
    }
  }

  lemma StandsAtKey(t: seq<Entry>, p: nat, j: nat)
    requires SortedTable(t) && j < |t| && SplitsAt(t, p, t[j].key)
    ensures p == j
  {
    assert p <= j;
    var e := t[p];
  }

  /** Every child stands at its first entry from all[n] on. */
  ghost predicate CutAt(children: seq<seq<Entry>>, pos: seq<nat>, all: seq<Entry>, n: nat)
    requires Positions(children, pos) && n <= |all|
  {
    forall i :: 0 <= i < |pos| ==> ChildCut(children[i], pos[i], all, n)
  }

  /** Every child stands at its last entry before all[n]. */
  ghost predicate BackAt(children: seq<seq<Entry>>, pos: seq<nat>, all: seq<Entry>, n: nat)
    requires Positions(children, pos) && n <= |all|
  {
    forall i :: 0 <= i < |pos| ==> if n < |all| then LastBefore(children[i], pos[i], all[n].key)
        else pos[i] == LastPosition(children[i])
  }

  ghost predicate Children(children: seq<seq<Entry>>, all: seq<Entry>)
  {
    AllSorted(children) && KeysDiffer(children) && IsUnion(all, children)
  }

  /** The smallest current key of children cut at n is all[n]. */
  lemma SmallestIsNext(children: seq<seq<Entry>>, pos: seq<nat>, all: seq<Entry>, n: nat, s: nat)
    requires Children(children, all) && Positions(children, pos) && n <= |all| && CutAt(children, pos, all, n)
    requires s < |pos| && pos[s] < |children[s]|
    requires forall i :: 0 <= i < |pos| && pos[i] < |children[i]| ==>
             !Before(children[i][pos[i]].key, children[s][pos[s]].key)
    ensures n < |all| && children[s][pos[s]] == all[n]
  {
    assert all[n] in all;
    var i :| 0 <= i < |children| && all[n] in children[i];
    var t := children[i];
    var j :| 0 <= j < |t| && t[j] == all[n];
    assert ChildCut(t, pos[i], all, n);
    StandsAtKey(t, pos[i], j);
    assert ChildCut(children[s], pos[s], all, n);
    assert children[s][pos[s]] in children[s];
  }

  lemma SomeChildIsNext(children: seq<seq<Entry>>, pos: seq<nat>, all: seq<Entry>, n: nat)
    requires Children(children, all) && Positions(children, pos) && n < |all| && CutAt(children, pos, all, n)
    ensures exists i :: 0 <= i < |pos| && pos[i] < |children[i]|
  {
    assert all[n] in all;
    var i :| 0 <= i < |children| && all[n] in children[i];
    var j :| 0 <= j < |children[i]| && children[i][j] == all[n];
    assert ChildCut(children[i], pos[i], all, n);
    assert pos[i] <= j;
  }

  /** The largest current key of children standing before all[n] is all[n-1]. */
  lemma LargestIsPrevious(children: seq<seq<Entry>>, pos: seq<nat>, all: seq<Entry>, n: nat, s: nat)
    requires Children(children, all) && Positions(children, pos) && n <= |all| && BackAt(children, pos, all, n)
    requires s < |pos| && pos[s] < |children[s]|
    requires forall i :: 0 <= i < |pos| && pos[i] < |children[i]| ==>
             !Before(children[s][pos[s]].key, children[i][pos[i]].key)
    ensures 0 < n && children[s][pos[s]] == all[n - 1]
  {
    hide BackAt, Children;
    var k := StandsBefore(children, pos, all, n, s);
    PreviousStands(children, pos, all, n);
    var i, j :| 0 <= i < |pos| && pos[i] == j < |children[i]| && children[i][j] == all[n - 1];
    var e := children[s][pos[s]];
    assert !Before(e.key, all[n - 1].key);
    SortedAt(children, all, k, n - 1);
  }

  lemma SortedAt(children: seq<seq<Entry>>, all: seq<Entry>, i: nat, j: nat)
    requires Children(children, all) && i <= j < |all|
    ensures i == j || Before(all[i].key, all[j].key)
  {}

  lemma StandsBefore(children: seq<seq<Entry>>, pos: seq<nat>, all: seq<Entry>, n: nat, s: nat) returns (k: nat)
    requires Children(children, all) && Positions(children, pos) && n <= |all| && BackAt(children, pos, all, n)
    requires s < |pos| && pos[s] < |children[s]|
    ensures k < n && all[k] == children[s][pos[s]]
  {
    var e := children[s][pos[s]];
    assert e in children[s] && e in all;
    k :| 0 <= k < |all| && all[k] == e;
    assert n < |all| ==> LastBefore(children[s], pos[s], all[n].key);
  }

  lemma PreviousStands(children: seq<seq<Entry>>, pos: seq<nat>, all: seq<Entry>, n: nat)
    requires Children(children, all) && Positions(children, pos) && 0 < n <= |all| && BackAt(children, pos, all, n)
    ensures exists i, j :: 0 <= i < |pos| && pos[i] == j < |children[i]| && children[i][j] == all[n - 1]
  {
    assert all[n - 1] in all;
    var i :| 0 <= i < |children| && all[n - 1] in children[i];
    var t := children[i];
    var j :| 0 <= j < |t| && t[j] == all[n - 1];
    var p := pos[i];
    assert if n < |all| then LastBefore(t, p, all[n].key) else p == LastPosition(t);
    if j != p {
      assert j < p < |t|;
      assert t[p] in children[i] && t[p] in all;
      StandsAlone(t, p, j, all, n);
    }
  }

  /** No entry of a child lies between the two neighbours all[n-1] and all[n]. */
  lemma StandsAlone(t: seq<Entry>, p: nat, j: nat, all: seq<Entry>, n: nat)
    requires SortedTable(t) && SortedTable(all) && 0 < n <= |all| && j < p < |t| && t[p] in all && t[j] == all[n - 1]
    ensures n < |all| && !Before(t[p].key, all[n].key)
  {
    var k :| 0 <= k < |all| && all[k] == t[p];
    assert Before(t[j].key, t[p].key);
  }

  datatype Direction = Forward | Reverse

  class MergingIterator {
    const children: seq<seq<Entry>>
    var pos: seq<nat>
    var current: Option<nat>
    var direction: Direction
    ghost const all: seq<Entry>
    ghost var at: nat

    ghost predicate Shape()
      reads this
    {
      && AllSorted(children) && KeysDiffer(children) && IsUnion(all, children)
      && |pos| == |children|
      && (forall i :: 0 <= i < |pos| ==> pos[i] <= |children[i]|)
      && at <= |all|
      && (current.Some? <==> at < |all|)
      && (current.Some? ==> current.value < |children| && pos[current.value] < |children[current.value]|
                            && children[current.value][pos[current.value]] == all[at])
    }

    /** Where the other children stand, relative to the current key. */
    ghost predicate Valid()
      reads this
    {
      && Shape()
      && (current.Some? && direction == Forward ==> forall i :: 0 <= i < |pos| ==>
          SplitsAt(children[i], pos[i], all[at].key))
      && (current.Some? && direction == Reverse ==>
            forall i :: 0 <= i < |pos| && i != current.value ==> LastBefore(children[i], pos[i], all[at].key))
    }

    constructor (children: seq<seq<Entry>>, ghost all: seq<Entry>)
      requires AllSorted(children) && KeysDiffer(children) && IsUnion(all, children)
      ensures Valid() && current.None? && this.children == children && this.all == all
    {
      this.children := children;
      pos := seq(|children|, i requires 0 <= i < |children| => |children[i]|);
      current := None;
      direction := Forward;
      this.all := all;
      at := |all|;
    }

    predicate IsValid()
      requires Valid()
      reads this
      ensures IsValid() <==> at < |all|
    {
      current.Some?
    }

    function Entry(): (e: Entry)
      requires Valid() && IsValid()
      reads this
      ensures e == all[at]
    {
      children[current.value][pos[current.value]]
    }

    /** The valid child with the smallest key. */
    method FindSmallest() returns (smallest: Option<nat>)
      requires AllSorted(children) && |pos| == |children| && forall i :: 0 <= i < |pos| ==> pos[i] <= |children[i]|
      ensures smallest.None? <==> forall i :: 0 <= i < |pos| ==> pos[i] == |children[i]|
      ensures smallest.Some? ==> smallest.value < |pos| && pos[smallest.value] < |children[smallest.value]|
      ensures smallest.Some? ==> forall i :: 0 <= i < |pos| && pos[i] < |children[i]| ==>
                !Before(children[i][pos[i]].key, children[smallest.value][pos[smallest.value]].key)
    {
      smallest := None;
      for i := 0 to |pos|
        invariant smallest.None? <==> forall j :: 0 <= j < i ==> pos[j] == |children[j]|
        invariant smallest.Some? ==> smallest.value < i && pos[smallest.value] < |children[smallest.value]|
        invariant smallest.Some? ==> forall j :: 0 <= j < i && pos[j] < |children[j]| ==>
                    !Before(children[j][pos[j]].key, children[smallest.value][pos[smallest.value]].key)
      {
        if pos[i] < |children[i]| {
          if smallest.None? || Before(children[i][pos[i]].key, children[smallest.value][pos[smallest.value]].key) {
            smallest := Some(i);
          }
        }
      }
    }

    /** The valid child with the largest key. */
    method FindLargest() returns (largest: Option<nat>)
      requires AllSorted(children) && |pos| == |children| && forall i :: 0 <= i < |pos| ==> pos[i] <= |children[i]|
      ensures largest.None? <==> forall i :: 0 <= i < |pos| ==> pos[i] == |children[i]|
      ensures largest.Some? ==> largest.value < |pos| && pos[largest.value] < |children[largest.value]|
      ensures largest.Some? ==> forall i :: 0 <= i < |pos| && pos[i] < |children[i]| ==>
                !Before(children[largest.value][pos[largest.value]].key, children[i][pos[i]].key)
    {
      largest := None;
      for i := |pos| downto 0
        invariant largest.None? <==> forall j :: i <= j < |pos| ==> pos[j] == |children[j]|
        invariant largest.Some? ==> i <= largest.value < |pos| && pos[largest.value] < |children[largest.value]|
        invariant largest.Some? ==> forall j :: i <= j < |pos| && pos[j] < |children[j]| ==>
                    !Before(children[largest.value][pos[largest.value]].key, children[j][pos[j]].key)
      {
        if pos[i] < |children[i]| {
          if largest.None? || Before(children[largest.value][pos[largest.value]].key, children[i][pos[i]].key) {
            largest := Some(i);
          }
        }
      }
    }

    /** Settles on the child FindSmallest names. */
    method SettleForward(ghost n: nat)
      requires Children(children, all) && Positions(children, pos) && n <= |all| && CutAt(children, pos, all, n)
      modifies this
      ensures Valid() && at == n && direction == Forward
    {
      var s := FindSmallest();
      if s.Some? {
        SmallestIsNext(children, pos, all, n, s.value);
      } else if n < |all| {
        SomeChildIsNext(children, pos, all, n);
      }
      current := s;
      direction := Forward;
      at := n;
    }

    /** Settles on the child FindLargest names. */
    method SettleReverse(ghost n: nat)
      requires Children(children, all) && Positions(children, pos) && n <= |all| && BackAt(children, pos, all, n)
      modifies this
      ensures Valid() && at == (if n == 0 then |all| else n - 1) && direction == Reverse
    {
      var s := FindLargest();
      if s.Some? {
        LargestIsPrevious(children, pos, all, n, s.value);
        OthersBehind(children, pos, all, n, s.value);
      } else if n > 0 {
        PreviousStands(children, pos, all, n);
      }
      current := s;
      direction := Reverse;
      at := if n == 0 then |all| else n - 1;
    }

    method SeekToFirst()
      requires Valid()
      modifies this
      ensures Valid() && at == 0
    {
      pos := seq(|children|, _ => 0);
      FirstCut(children, pos, all);
      SettleForward(0);
    }

    method SeekToLast()
      requires Valid()
      modifies this
      ensures Valid() && at == LastPosition(all)
    {
      pos := seq(|children|, i requires 0 <= i < |children| => LastPosition(children[i]));
      SettleReverse(|all|);
    }

    /** Positions at the first entry that is not before the target. */
    method SeekTo(target: InternalKey)
      requires Valid()
      modifies this
      ensures Valid() && SplitsAt(all, at, target)
    {
      pos := SeekChildren(target, None);
      ghost var n := SeekIndex(all, target);
      SeekCut(children, pos, all, n, target);
      SettleForward(n);
    }

    /** Seeks every child but one. */
    method SeekChildren(target: InternalKey, except: Option<nat>) returns (p: seq<nat>)
      requires Children(children, all) && Positions(children, pos)
      ensures Positions(children, p)
      ensures forall i :: 0 <= i < |p| ==> if except == Some(i) then p[i] == pos[i]
              else SplitsAt(children[i], p[i], target)
    {
      p := [];
      for i := 0 to |children|
        invariant |p| == i
        invariant forall j :: 0 <= j < i ==> if except == Some(j) then p[j] == pos[j]
                  else SplitsAt(children[j], p[j], target)
      {
        var q := pos[i];
        if except != Some(i) {
          q := Seek(children[i], target);
        }
        p := p + [q];
      }
    }

    /** Moves one entry forward, whatever the direction before. */
    method Next()
      requires Valid() && IsValid()
      modifies this
      ensures Valid() && at == old(at) + 1
    {
      hide BackAt, IsUnion, KeysDiffer, AllSorted;
      var c := current.value;
      if direction != Forward {
        pos := SeekUpChildren();
      }
      NextCut(children, pos, all, at, c);
      pos := pos[c := pos[c] + 1];
      SettleForward(at + 1);
    }

    /** Places every other child after the current key. */
    method SeekUpChildren() returns (p: seq<nat>)
      requires Valid() && IsValid()
      ensures Positions(children, p) && p[current.value] == pos[current.value]
      ensures CutAt(children, p, all, at)
    {
      var c := current.value;
      p := SeekChildren(children[c][pos[c]].key, current);
      CurrentSplits(children[c], pos[c]);
    }

    /** Places every other child before the current key. */
    method BackUpChildren() returns (p: seq<nat>)
      requires Valid() && IsValid()
      ensures Positions(children, p) && p[current.value] == pos[current.value]
      ensures forall i :: 0 <= i < |p| && i != current.value ==> LastBefore(children[i], p[i], all[at].key)
    {
      var c := current.value;
      var key := children[c][pos[c]].key;
      var sought := SeekChildren(key, current);
      p := [];
      for i := 0 to |sought|
        invariant |p| == i
        invariant forall j :: 0 <= j < i ==> if j == c then p[j] == pos[j] else LastBefore(children[j], p[j], key)
      {
        if i == c {
          p := p + [sought[i]];
        } else {
          BackFromSplit(children[i], sought[i], key);
          p := p + [if sought[i] < |children[i]| then StepBack(children[i], sought[i]) else LastPosition(children[i])];
        }
      }
    }

    /** Moves one entry back, whatever the direction before. */
    method Prev()
      requires Valid() && IsValid()
      modifies this
      ensures Valid() && at == if old(at) == 0 then |all| else old(at) - 1
    {
      var c := current.value;
      if direction != Reverse {
        pos := BackUpChildren();
      }
      BackStep(children[c], pos[c]);
      pos := pos[c := StepBack(children[c], pos[c])];
      SettleReverse(at);
    }
  }

  // ---------- position arithmetic ----------

  lemma FirstCut(children: seq<seq<Entry>>, pos: seq<nat>, all: seq<Entry>)
    requires Children(children, all) && Positions(children, pos) && forall i :: 0 <= i < |pos| ==> pos[i] == 0
    ensures CutAt(children, pos, all, 0)
  {
    forall i | 0 <= i < |pos| ensures ChildCut(children[i], pos[i], all, 0) {
      CutChild(children[i], pos[i], all, 0);
    }
  }

  ghost function SeekIndex(all: seq<Entry>, target: InternalKey): (n: nat)
    requires SortedTable(all)
    ensures SplitsAt(all, n, target)
  {
    if all == [] || !Before(all[0].key, target) then 0
    else
      assert all == [all[0]] + all[1..];
      SeekIndex(all[1..], target) + 1
  }

  lemma SeekCut(children: seq<seq<Entry>>, pos: seq<nat>, all: seq<Entry>, n: nat, target: InternalKey)
    requires Children(children, all) && Positions(children, pos) && SplitsAt(all, n, target)
    requires forall i :: 0 <= i < |pos| ==> SplitsAt(children[i], pos[i], target)
    ensures CutAt(children, pos, all, n)
  {
    forall i | 0 <= i < |pos| ensures ChildCut(children[i], pos[i], all, n) {
      assert SplitsAt(children[i], pos[i], target);
      CutChild(children[i], pos[i], all, n);
    }
  }

  lemma CurrentSplits(t: seq<Entry>, p: nat)
    requires SortedTable(t) && p < |t|
    ensures SplitsAt(t, p, t[p].key)
  {}

  lemma NextCut(children: seq<seq<Entry>>, pos: seq<nat>, all: seq<Entry>, n: nat, c: nat)
    requires Children(children, all) && Positions(children, pos) && n < |all| && CutAt(children, pos, all, n)
    requires c < |pos| && pos[c] < |children[c]| && children[c][pos[c]] == all[n]
    ensures CutAt(children, pos[c := pos[c] + 1], all, n + 1)
  {
    var p := pos[c := pos[c] + 1];
    forall i | 0 <= i < |pos| ensures ChildCut(children[i], p[i], all, n + 1) {
      hide Children, ChildCut;
      NextChild(children, pos, all, n, c, i);
    }
  }

  /** In the child that holds all[n], the entries up to it are those up to all[n] in the union. */
  lemma OwnNext(t: seq<Entry>, p: nat, all: seq<Entry>, n: nat, j: nat, k: nat)
    requires SortedTable(t) && SortedTable(all) && n < |all| && p < |t| && t[p] == all[n]
    requires j < |t| && k < |all| && t[j] == all[k]
    ensures j < p + 1 <==> k < n + 1
  {
    if j < p { assert Before(t[j].key, t[p].key); }
    if p < j { assert Before(t[p].key, t[j].key); }
  }

  lemma OtherNext(t: seq<Entry>, p: nat, all: seq<Entry>, n: nat, j: nat, k: nat)
    requires SortedTable(all) && n < |all| && SplitsAt(t, p, all[n].key)
    requires j < |t| && k < |all| && t[j] == all[k] && all[k] != all[n]
    ensures j < p <==> k < n + 1
  {}

  lemma NextChild(children: seq<seq<Entry>>, pos: seq<nat>, all: seq<Entry>, n: nat, c: nat, i: nat)
    requires Children(children, all) && Positions(children, pos) && n < |all| && i < |pos|
    requires ChildCut(children[i], pos[i], all, n)
    requires c < |pos| && pos[c] < |children[c]| && children[c][pos[c]] == all[n]
    ensures ChildCut(children[i], if i == c then pos[c] + 1 else pos[i], all, n + 1)
  {
    var t, p := children[i], if i == c then pos[c] + 1 else pos[i];
    forall j, k | 0 <= j < |t| && 0 <= k < |all| && t[j] == all[k] ensures j < p <==> k < n + 1 {
      if i == c {
        OwnNext(t, pos[c], all, n, j, k);
      } else {
        assert t[j] in children[i] && all[n] in children[c];
        OtherNext(t, pos[i], all, n, j, k);
      }
    }
    CutChild(t, p, all, n + 1);
  }

  lemma BackStep(t: seq<Entry>, p: nat)
    requires SortedTable(t) && p < |t|
    ensures LastBefore(t, StepBack(t, p), t[p].key)
  {}

  lemma BackFromSplit(t: seq<Entry>, p: nat, key: InternalKey)
    requires SortedTable(t) && SplitsAt(t, p, key)
    ensures LastBefore(t, if p < |t| then StepBack(t, p) else LastPosition(t), key)
  {}

  lemma OthersBehind(children: seq<seq<Entry>>, pos: seq<nat>, all: seq<Entry>, n: nat, s: nat)
    requires Children(children, all) && Positions(children, pos) && 0 < n <= |all| && BackAt(children, pos, all, n)
    requires s < |pos| && pos[s] < |children[s]| && children[s][pos[s]] == all[n - 1]
    ensures forall i :: 0 <= i < |pos| && i != s ==> LastBefore(children[i], pos[i], all[n - 1].key)
  {
    forall i | 0 <= i < |pos| && i != s ensures LastBefore(children[i], pos[i], all[n - 1].key) {
      var t := children[i];
      assert all[n - 1] in children[s];
      forall j | 0 <= j < |t| ensures Before(t[j].key, all[n - 1].key) <==> n == |all| || Before(t[j].key, all[n].key) {
        assert t[j] in children[i] && t[j] in all;
        var k :| 0 <= k < |all| && all[k] == t[j];
      }
    }
  }
}
