/** The memtable's skip list, including the half-linked states a concurrent reader can meet
    (db/skiplist.h).  Nodes live in an arena and are named by their index; node 0 is the head. */
module SkipList {
  import opened Keys

  const MAX_HEIGHT := 12

  type Node = nat

  /** key and next are the arena; chain lists, level by level, the nodes linked there. */
  datatype Arena = Arena(key: seq<UserKey>, next: seq<seq<int>>, height: nat, chain: seq<seq<Node>>)

  const NIL: int := -1

  ghost predicate Sorted(a: Arena, c: seq<Node>)
    requires forall i :: 0 <= i < |c| ==> c[i] < |a.key|
  {
    forall i, j :: 0 <= i < j < |c| ==> a.key[c[i]] < a.key[c[j]]
  }

  ghost predicate Linkable(a: Arena, x: Node, l: nat)
  {
    x < |a.key| == |a.next| && l < |a.next[x]|
  }

  /** The node after position i of the list head, c[0], c[1], ... */
  function After(c: seq<Node>, i: nat): int
    requires i <= |c|
  {
    if i < |c| then c[i] else NIL
  }

  /** The list of one level: sorted, and linked from the head to the end. */
  ghost predicate LevelOk(a: Arena, l: nat)
    requires |a.chain| == MAX_HEIGHT && l < MAX_HEIGHT
  {
    var c := a.chain[l];
    && (forall i :: 0 <= i < |c| ==> 0 < c[i] && Linkable(a, c[i], l))
    && Sorted(a, c)
    && Linkable(a, 0, l) && a.next[0][l] == After(c, 0)
    && (forall i :: 0 <= i < |c| ==> a.next[c[i]][l] == After(c, i + 1))
  }

  ghost predicate On(a: Arena, x: Node, l: nat)
    requires |a.chain| == MAX_HEIGHT && l < MAX_HEIGHT
  {
    x == 0 || x in a.chain[l]
  }

  /** Every node of a level is on the level below. */
  ghost predicate Nested(a: Arena, l: nat)
    requires |a.chain| == MAX_HEIGHT && 0 < l < MAX_HEIGHT
  {
    forall x :: x in a.chain[l] ==> x in a.chain[l - 1]
  }

  /** What every reader may rely on, also in the middle of an insertion. */
  ghost predicate Ok(a: Arena)
  {
    && |a.chain| == MAX_HEIGHT && |a.key| == |a.next| > 0 && |a.next[0]| == MAX_HEIGHT
    && 1 <= a.height <= MAX_HEIGHT
    && (forall l :: 0 <= l < MAX_HEIGHT ==> LevelOk(a, l))
    && (forall l :: 0 < l < MAX_HEIGHT ==> Nested(a, l))
    && (forall l :: a.height <= l < MAX_HEIGHT ==> a.chain[l] == [])
  }

  /** The keys of the list. */
  ghost function Contents(a: Arena): set<UserKey>
    requires Ok(a)
  {
    set x | x in a.chain[0] :: (assert LevelOk(a, 0); a.key[x])
  }

  /** `r` is the first node whose key is not below k, or NIL. */
  ghost predicate IsCeiling(a: Arena, k: UserKey, r: int)
    requires Ok(a)
  {
    && (r == NIL || (r in a.chain[0] && r >= 0 && r < |a.key| && a.key[r] >= k))
    && forall y :: y in a.chain[0] ==> (assert LevelOk(a, 0); a.key[y] >= k ==> r != NIL && a.key[r] <= a.key[y])
  }

  // ---------- one read ----------

  /** A search for k may stand at node x on level l. */
  ghost predicate Standing(a: Arena, k: UserKey, x: Node, l: nat)
    requires Ok(a)
  {
    l < MAX_HEIGHT && On(a, x, l) && (x != 0 ==> x < |a.key| && a.key[x] < k)
  }

  /** KeyIsAfterNode. */
  predicate KeyIsAfterNode(key: seq<UserKey>, k: UserKey, n: int)
    requires n < |key|
  {
    n >= 0 && key[n] < k
  }

  lemma NextOf(a: Arena, x: Node, l: nat) returns (i: nat)
    requires Ok(a) && l < MAX_HEIGHT && On(a, x, l)
    ensures Linkable(a, x, l) && i <= |a.chain[l]| && a.next[x][l] == After(a.chain[l], i)
    ensures if x == 0 then i == 0 else 0 < i && a.chain[l][i - 1] == x
    ensures -1 <= a.next[x][l] < |a.key|
  {
    assert LevelOk(a, l);
    if x == 0 {
      i := 0;
    } else {
      var j :| 0 <= j < |a.chain[l]| && a.chain[l][j] == x;
      i := j + 1;
    }
  }

  lemma CeilingHere(a: Arena, k: UserKey, x: Node)
    requires Ok(a) && Standing(a, k, x, 0) && Linkable(a, x, 0) && -1 <= a.next[x][0] < |a.key|
    requires !KeyIsAfterNode(a.key, k, a.next[x][0])
    ensures IsCeiling(a, k, a.next[x][0])
  {
    var i := NextOf(a, x, 0);
    var c := a.chain[0];
    assert LevelOk(a, 0);
    forall y | y in c && a.key[y] >= k ensures i < |c| && a.key[c[i]] <= a.key[y] {
      var j :| 0 <= j < |c| && c[j] == y;
      assert i <= j;
    }
  }

  /** Reading one link: the search may move there, or may go down, or, on level 0, has its answer. */
  lemma ReadStep(a: Arena, k: UserKey, x: Node, l: nat)
    requires Ok(a) && Standing(a, k, x, l)
    ensures Linkable(a, x, l) && -1 <= a.next[x][l] < |a.key|
    ensures KeyIsAfterNode(a.key, k, a.next[x][l]) ==> Standing(a, k, a.next[x][l], l)
    ensures l > 0 ==> Standing(a, k, x, l - 1)
    ensures l == 0 && !KeyIsAfterNode(a.key, k, a.next[x][l]) ==> IsCeiling(a, k, a.next[x][l])
  {
    hide LevelOk, IsCeiling;
    var i := NextOf(a, x, l);
    assert l > 0 ==> Nested(a, l);
    if l == 0 && !KeyIsAfterNode(a.key, k, a.next[x][l]) {
      CeilingHere(a, k, x);
    }
  }

  // ---------- searching ----------

  class SkipList {
    var key: seq<UserKey>
    var next: seq<seq<int>>
    var maxHeight: nat
    ghost var chain: seq<seq<Node>>

    ghost function State(): Arena
      reads this
    {
      Arena(key, next, maxHeight, chain)
    }

    constructor ()
      ensures Ok(State()) && Contents(State()) == {}
    {
      key := [0.0];
      next := [seq(MAX_HEIGHT, _ => NIL)];
      maxHeight := 1;
      chain := seq(MAX_HEIGHT, _ => []);
    }

    /** FindGreaterOrEqual: the answer, and on each level in use the last node before the key. */
    method FindGreaterOrEqual(k: UserKey) returns (r: int, prev: seq<Node>)
      requires Ok(State())
      ensures IsCeiling(State(), k, r)
      ensures |prev| == maxHeight
      ensures forall l :: 0 <= l < maxHeight ==> IsPrev(State(), k, prev[l], l)
    {
      hide LevelOk, IsCeiling;
      var x: Node, level: nat := 0, maxHeight - 1;
      prev := seq(maxHeight, _ => 0);
      ghost var i := 0;
      while true
        invariant level < maxHeight == |prev|
        invariant Standing(State(), k, x, level)
        invariant i == PlaceOf(State(), x, level)
        invariant forall l :: level < l < maxHeight ==> IsPrev(State(), k, prev[l], l)
        decreases level, |chain[level]| - i
      {
        ReadStep(State(), k, x, level);
        var n := next[x][level];
        if KeyIsAfterNode(key, k, n) {
          NextPlace(State(), x, level);
          x := n;
        } else {
          prev := prev[level := x];
          if level == 0 {
            r := n;
            return;
          }
          level := level - 1;
        }
        i := PlaceOf(State(), x, level);
      }
    }

    /** FindLessThan: the last node before the key, or the head. */
    method FindLessThan(k: UserKey) returns (r: Node)
      requires Ok(State())
      ensures IsPrev(State(), k, r, 0)
    {
      hide LevelOk, IsCeiling;
      var x: Node, level: nat := 0, maxHeight - 1;
      ghost var i := 0;
      while true
        invariant level < maxHeight
        invariant Standing(State(), k, x, level)
        invariant i == PlaceOf(State(), x, level)
        decreases level, |chain[level]| - i
      {
        ReadStep(State(), k, x, level);
        var n := next[x][level];
        if n == NIL || key[n] >= k {
          if level == 0 {
            return x;
          }
          level := level - 1;
        } else {
          NextPlace(State(), x, level);
          x := n;
        }
        i := PlaceOf(State(), x, level);
      }
    }

    method Contains(k: UserKey) returns (b: bool)
      requires Ok(State())
      ensures b <==> k in Contents(State())
    {
      var x, _ := FindGreaterOrEqual(k);
      b := x != NIL && key[x] == k;
    }

    /** The publication of one link: the only change a reader can see at once. */
    method Publish(x: Node, p: Node, l: nat)
      requires Ok(State()) && CanLink(State(), x, p, l)
      modifies this
      ensures State() == Link(old(State()), x, p, l)
    {
      next := next[x := next[x][l := next[p][l]]];
      next := next[p := next[p][l := x]];
      chain := chain[l := Inserted(old(State()), x, p, l)];
    }

    /** Insert, with the height that RandomHeight chose.  After the new height, after the new node, and after
        every link, the state is one in which searches work. */
    method Insert(k: UserKey, height: nat)
      requires Ok(State()) && k !in Contents(State()) && 1 <= height <= MAX_HEIGHT
      modifies this
      ensures Ok(State()) && Contents(State()) == old(Contents(State())) + {k}
      ensures forall l :: 0 <= l < MAX_HEIGHT ==> |chain[l]| == |old(chain)[l]| + if l < height then 1 else 0
    {
      hide LevelOk, IsCeiling, Contents;
      var _, prev := FindGreaterOrEqual(k);
      if height > maxHeight {
        RaiseKeeps(State(), height, k, prev);
        prev := prev + seq(height - maxHeight, _ => 0);
        maxHeight := height;
      }
      AddNodeKeeps(State(), k, height, prev);
      var x := |key|;
      key, next := key + [k], next + [seq(height, _ => NIL)];
      ghost var start := State();
      for i := 0 to height
        invariant Ok(State())
        invariant Linking(State(), start, x, prev, i, height)
      {
        LinkStep(State(), start, x, prev, i, height);
        Publish(x, prev[i], i);
      }
      LinkedContents(State(), start, x, prev, height);
    }
  }

  // ---------- linking ----------

  ghost predicate CanLink(a: Arena, x: Node, p: Node, l: nat)
    requires Ok(a)
  {
    && l < a.height && 0 < x && Linkable(a, x, l) && x !in a.chain[l] && p != x
    && IsPrev(a, a.key[x], p, l)
    && (a.next[p][l] != NIL ==> a.key[a.next[p][l]] != a.key[x])
    && (l > 0 ==> x in a.chain[l - 1])
  }

  ghost function Inserted(a: Arena, x: Node, p: Node, l: nat): seq<Node>
    requires Ok(a) && l < MAX_HEIGHT && On(a, p, l)
  {
    var i := PlaceOf(a, p, l);
    a.chain[l][..i] + [x] + a.chain[l][i..]
  }

  ghost function Link(a: Arena, x: Node, p: Node, l: nat): Arena
    requires Ok(a) && CanLink(a, x, p, l)
  {
    var next := a.next[x := a.next[x][l := a.next[p][l]]];
    a.(next := next[p := next[p][l := x]], chain := a.chain[l := Inserted(a, x, p, l)])
  }

  /** A taller list: the new levels are empty, so searches start at the head and go down. */
  lemma RaiseKeeps(a: Arena, height: nat, k: UserKey, prev: seq<Node>)
    requires Ok(a) && a.height < height <= MAX_HEIGHT && |prev| == a.height
    requires forall l :: 0 <= l < a.height ==> IsPrev(a, k, prev[l], l)
    ensures var b, p := a.(height := height), prev + seq(height - a.height, _ => 0);
            Ok(b) && Contents(b) == Contents(a) && forall l :: 0 <= l < height ==> IsPrev(b, k, p[l], l)
  {
    var b := a.(height := height);
    forall l | 0 <= l < MAX_HEIGHT ensures LevelOk(b, l) { assert LevelOk(a, l); }
    forall l | 0 < l < MAX_HEIGHT ensures Nested(b, l) { assert Nested(a, l); }
    assert LevelOk(a, 0);
    var longer := prev + seq(height - a.height, _ => 0);
    forall l | 0 <= l < height ensures IsPrev(b, k, longer[l], l) {
      assert LevelOk(a, l);
      if l < a.height {
        assert IsPrev(a, k, prev[l], l);
      }
    }
  }

  ghost function AddNode(a: Arena, k: UserKey, height: nat): Arena
  {
    a.(key := a.key + [k], next := a.next + [seq(height, _ => NIL)])
  }

  /** A new node that nothing points to yet. */
  lemma AddNodeKeeps(a: Arena, k: UserKey, height: nat, prev: seq<Node>)
    requires Ok(a) && k !in Contents(a) && height <= a.height <= |prev|
    requires forall l :: 0 <= l < height ==> IsPrev(a, k, prev[l], l)
    ensures var b := AddNode(a, k, height);
            Ok(b) && Contents(b) == Contents(a) && Linking(b, b, |a.key|, prev, 0, height)
  {
    var b := AddNode(a, k, height);
    forall l | 0 <= l < MAX_HEIGHT ensures LevelOk(b, l) { assert LevelOk(a, l); }
    forall l | 0 < l < MAX_HEIGHT ensures Nested(b, l) { assert Nested(a, l); }
    forall l | 0 <= l < MAX_HEIGHT ensures LinkingAt(b, b, |a.key|, prev, 0, height, l) {
      FreeEverywhere(a, k, l);
      assert LevelOk(a, l);
      if l < height {
        assert IsPrev(a, k, prev[l], l);
      }
    }
    assert LevelOk(a, 0);
  }

  /** No node of the level holds k. */
  ghost predicate Free(a: Arena, k: UserKey, l: nat)
    requires |a.chain| == MAX_HEIGHT && l < MAX_HEIGHT
  {
    forall y :: y in a.chain[l] && y < |a.key| ==> a.key[y] != k
  }

  lemma {:induction false} FreeEverywhere(a: Arena, k: UserKey, l: nat)
    requires Ok(a) && k !in Contents(a) && l < MAX_HEIGHT
    ensures Free(a, k, l)
  {
    if l == 0 {
      assert LevelOk(a, 0);
      forall y | y in a.chain[0] ensures a.key[y] != k { assert a.key[y] in Contents(a); }
    } else {
      FreeEverywhere(a, k, l - 1);
      assert Nested(a, l);
    }
  }

  /** x is linked on the levels below i and about to be linked from i to its height. */
  ghost predicate Linking(a: Arena, start: Arena, x: Node, prev: seq<Node>, i: nat, height: nat)
  {
    && Ok(a) && Ok(start) && a.key == start.key && a.height == start.height
    && i <= height <= a.height && height <= |prev|
    && 0 < x < |a.key| && |a.next[x]| == height
    && (forall l :: 0 <= l < MAX_HEIGHT ==> LinkingAt(a, start, x, prev, i, height, l))
  }

  ghost predicate LinkingAt(a: Arena, start: Arena, x: Node, prev: seq<Node>, i: nat, height: nat, l: nat)
    requires Ok(a) && Ok(start) && 0 < x < |a.key| && height <= |prev| && l < MAX_HEIGHT
  {
    if l < i then x in a.chain[l] && |a.chain[l]| == |start.chain[l]| + 1
                  && (forall y :: y in a.chain[l] <==> y == x || y in start.chain[l])
    else
      && a.chain[l] == start.chain[l] && x !in a.chain[l] && Free(a, a.key[x], l)
      && (l < height ==> IsPrev(a, a.key[x], prev[l], l))
  }

  lemma LinkStep(a: Arena, start: Arena, x: Node, prev: seq<Node>, i: nat, height: nat)
    requires Linking(a, start, x, prev, i, height) && i < height
    ensures CanLink(a, x, prev[i], i) && Linking(Link(a, x, prev[i], i), start, x, prev, i + 1, height)
  {
    hide LevelOk;
    assert LinkingAt(a, start, x, prev, i, height, i);
    assert i > 0 ==> LinkingAt(a, start, x, prev, i, height, i - 1);
    NextInChain(a, prev[i], i);
    var b := Link(a, x, prev[i], i);
    LinkKeepsOk(a, x, prev[i], i);
    var done := i + 1;
    forall l | 0 <= l < MAX_HEIGHT ensures LinkingAt(b, start, x, prev, done, height, l) {
      assert LinkingAt(a, start, x, prev, i, height, l);
      if l == i {
        InsertedMembers(a, x, prev[i], i);
      }
    }
  }

  lemma NextInChain(a: Arena, p: Node, l: nat)
    requires Ok(a) && l < MAX_HEIGHT && On(a, p, l) && Linkable(a, p, l)
    ensures a.next[p][l] != NIL ==> a.next[p][l] in a.chain[l]
  {
    var i := NextOf(a, p, l);
  }

  lemma InsertedMembers(a: Arena, x: Node, p: Node, l: nat)
    requires Ok(a) && l < MAX_HEIGHT && On(a, p, l)
    ensures |Inserted(a, x, p, l)| == |a.chain[l]| + 1
    ensures forall y :: y in Inserted(a, x, p, l) <==> y == x || y in a.chain[l]
  {}

  /** Publishing one link leaves a list that searches can use. */
  lemma LinkKeepsOk(a: Arena, x: Node, p: Node, l: nat)
    requires Ok(a) && CanLink(a, x, p, l)
    ensures Ok(Link(a, x, p, l))
  {
    hide LevelOk;
    var b := Link(a, x, p, l);
    InsertedMembers(a, x, p, l);
    forall m | 0 <= m < MAX_HEIGHT ensures LevelOk(b, m) {
      if m == l { LinkedLevel(a, x, p, l); } else { OtherLevel(a, x, p, l, m); }
    }
    forall m | 0 < m < MAX_HEIGHT ensures Nested(b, m) {
      assert Nested(a, m);
    }
  }

  lemma OtherLevel(a: Arena, x: Node, p: Node, l: nat, m: nat)
    requires Ok(a) && CanLink(a, x, p, l) && m < MAX_HEIGHT && m != l
    ensures LevelOk(Link(a, x, p, l), m)
  {
    var b := Link(a, x, p, l);
    var c := a.chain[m];
    assert LevelOk(a, m);
    forall y: Node | Linkable(a, y, m) ensures Linkable(b, y, m) && b.next[y][m] == a.next[y][m] {
      LinkedNext(a, x, p, l, y, m);
    }
  }

  /** Which links the publication changes. */
  lemma LinkedNext(a: Arena, x: Node, p: Node, l: nat, y: Node, m: nat)
    requires Ok(a) && CanLink(a, x, p, l) && Linkable(a, y, m)
    ensures var b := Link(a, x, p, l);
            && Linkable(b, y, m)
            && b.next[y][m] == if m != l then a.next[y][m] else if y == x then a.next[p][l]
               else if y == p then x else a.next[y][m]
  {}

  lemma LinkedLevel(a: Arena, x: Node, p: Node, l: nat)
    requires Ok(a) && CanLink(a, x, p, l)
    ensures LevelOk(Link(a, x, p, l), l)
  {
    hide Ok, Link, Inserted;
    var b, d := Link(a, x, p, l), Inserted(a, x, p, l);
    LinkFacts(a, x, p, l);
    InsertedNodes(a, x, p, l);
    InsertedSorted(a, x, p, l);
    assert forall j :: 0 <= j < |d| ==> b.next[d[j]][l] == After(d, j + 1);
  }

  lemma LinkFacts(a: Arena, x: Node, p: Node, l: nat)
    requires Ok(a) && CanLink(a, x, p, l)
    ensures var b := Link(a, x, p, l);
            b.key == a.key && |b.chain| == MAX_HEIGHT && b.chain[l] == Inserted(a, x, p, l)
  {}

  /** Where the new node falls between its neighbours. */
  lemma Around(a: Arena, x: Node, p: Node, l: nat)
    requires Ok(a) && CanLink(a, x, p, l)
    ensures var c, i := a.chain[l], PlaceOf(a, p, l);
            && a.next[p][l] == After(c, i) && a.next[0][l] == After(c, 0)
            && (forall j :: 0 <= j < |c| ==> 0 < c[j] && Linkable(a, c[j], l) && a.next[c[j]][l] == After(c, j + 1))
            && (forall j :: 0 <= j < i ==> a.key[c[j]] < a.key[x])
            && (forall j :: i <= j < |c| ==> a.key[x] < a.key[c[j]])
            && (p == 0 <==> i == 0) && (0 < i ==> c[i - 1] == p)
            && Sorted(a, c) && Linkable(a, 0, l)
  {
    var c, i := a.chain[l], PlaceOf(a, p, l);
    LevelFacts(a, l);
    PlaceFacts(a, p, l);
    hide LevelOk, Nested, PlaceOf, Ok;
    AroundKeys(a.key, c, i, a.key[x]);
  }

  lemma LevelFacts(a: Arena, l: nat)
    requires Ok(a) && l < MAX_HEIGHT
    ensures var c := a.chain[l];
      && a.next[0][l] == After(c, 0) && (forall i :: 0 <= i < |c| ==> c[i] < |a.key|) && Sorted(a, c)
         && Linkable(a, 0, l)
      && (forall j :: 0 <= j < |c| ==> 0 < c[j] && Linkable(a, c[j], l) && a.next[c[j]][l] == After(c, j + 1))
  {
    assert LevelOk(a, l);
  }

  lemma PlaceFacts(a: Arena, p: Node, l: nat)
    requires Ok(a) && l < MAX_HEIGHT && On(a, p, l) && Linkable(a, p, l)
    ensures var c, i := a.chain[l], PlaceOf(a, p, l);
      i <= |c| && (p == 0 <==> i == 0) && (0 < i ==> c[i - 1] == p) && a.next[p][l] == After(c, i)
  {
    LevelFacts(a, l);
    hide LevelOk, Nested;
  }

  /** In a sorted list, a key between two neighbours is after all before it and before all after it. */
  lemma AroundKeys(key: seq<UserKey>, c: seq<Node>, i: nat, k: UserKey)
    requires (forall j :: 0 <= j < |c| ==> c[j] < |key|) && forall j, m :: 0 <= j < m < |c| ==> key[c[j]] < key[c[m]]
    requires i <= |c| && (i > 0 ==> key[c[i - 1]] < k) && (i < |c| ==> k < key[c[i]])
    ensures (forall j :: 0 <= j < i ==> key[c[j]] < k) && (forall j :: i <= j < |c| ==> k < key[c[j]])
  {}

  lemma InsertedSorted(a: Arena, x: Node, p: Node, l: nat)
    requires Ok(a) && CanLink(a, x, p, l)
    ensures forall j :: 0 <= j < |Inserted(a, x, p, l)| ==> Inserted(a, x, p, l)[j] < |a.key|
    ensures Sorted(a, Inserted(a, x, p, l))
  {
    Around(a, x, p, l);
    var c, i := a.chain[l], PlaceOf(a, p, l);
    assert Linkable(a, x, l);
    SplicedSorted(a.key, c, x, i);
  }

  lemma SplicedSorted(key: seq<UserKey>, c: seq<Node>, x: Node, i: nat)
    requires i <= |c| && x < |key| && forall j :: 0 <= j < |c| ==> c[j] < |key|
    requires forall j, k :: 0 <= j < k < |c| ==> key[c[j]] < key[c[k]]
    requires forall j :: 0 <= j < i ==> key[c[j]] < key[x]
    requires forall j :: i <= j < |c| ==> key[x] < key[c[j]]
    ensures var d := c[..i] + [x] + c[i..];
            && (forall j :: 0 <= j < |d| ==> d[j] < |key|)
            && (forall j, k :: 0 <= j < k < |d| ==> key[d[j]] < key[d[k]])
  {}

  lemma InsertedNodes(a: Arena, x: Node, p: Node, l: nat)
    requires Ok(a) && CanLink(a, x, p, l)
    ensures var b, d := Link(a, x, p, l), Inserted(a, x, p, l);
            && Linkable(b, 0, l) && b.next[0][l] == After(d, 0)
            && forall j :: 0 <= j < |d| ==> 0 < d[j] && Linkable(b, d[j], l) && b.next[d[j]][l] == After(d, j + 1)
  {
    hide LevelOk, Nested, Link;
    Around(a, x, p, l);
    var b, d := Link(a, x, p, l), Inserted(a, x, p, l);
    LinkedNext(a, x, p, l, 0, l);
    forall j | 0 <= j < |d| ensures 0 < d[j] && Linkable(b, d[j], l) && b.next[d[j]][l] == After(d, j + 1) {
      LinkedNext(a, x, p, l, d[j], l);
      InsertedNode(a, x, p, l, j);
    }
  }

  lemma InsertedNode(a: Arena, x: Node, p: Node, l: nat, j: nat)
    requires Ok(a) && CanLink(a, x, p, l) && j < |Inserted(a, x, p, l)|
    ensures var d, c, i := Inserted(a, x, p, l), a.chain[l], PlaceOf(a, p, l);
            && |d| == |c| + 1 && d[j] == if j < i then c[j] else if j == i then x else c[j - 1]
  {}

  lemma LinkedContents(a: Arena, start: Arena, x: Node, prev: seq<Node>, height: nat)
    requires Linking(a, start, x, prev, height, height) && 0 < height
    ensures Contents(a) == Contents(start) + {a.key[x]}
    ensures forall l :: 0 <= l < MAX_HEIGHT ==> |a.chain[l]| == |start.chain[l]| + if l < height then 1 else 0
  {
    assert LinkingAt(a, start, x, prev, height, height, 0);
    assert LevelOk(a, 0) && LevelOk(start, 0);
    forall l | 0 <= l < MAX_HEIGHT ensures |a.chain[l]| == |start.chain[l]| + if l < height then 1 else 0 {
      assert LinkingAt(a, start, x, prev, height, height, l);
    }
  }

  /** x is the last node before k on level l. */
  ghost predicate IsPrev(a: Arena, k: UserKey, x: Node, l: nat)
    requires Ok(a)
  {
    Standing(a, k, x, l) && Linkable(a, x, l) && -1 <= a.next[x][l] < |a.key| && !KeyIsAfterNode(a.key, k, a.next[x][l])
  }

  /** The position of a node in the list of a level, counting the head as 0. */
  ghost function PlaceOf(a: Arena, x: Node, l: nat): (i: nat)
    requires Ok(a) && l < MAX_HEIGHT && On(a, x, l)
    ensures i <= |a.chain[l]|
  {
    if x == 0 then 0 else (var j :| 0 <= j < |a.chain[l]| && a.chain[l][j] == x; j + 1)
  }

  lemma NextPlace(a: Arena, x: Node, l: nat)
    requires Ok(a) && l < MAX_HEIGHT && On(a, x, l) && Linkable(a, x, l) && a.next[x][l] >= 0 && On(a, a.next[x][l], l)
    ensures PlaceOf(a, a.next[x][l], l) == PlaceOf(a, x, l) + 1
  {
    var c := a.chain[l];
    assert LevelOk(a, l);
    var p, q := PlaceOf(a, x, l), PlaceOf(a, a.next[x][l], l);
    assert a.next[x][l] == After(c, p);
    assert q == 0 || c[q - 1] == a.next[x][l];
  }

  // ---------- a reader during insertions ----------

  /** A lock-free search: where it stands, or what it returned. */
  datatype Reader = Searching(x: Node, level: nat) | Returned(node: int)

  /** One step of a search: it reads one link of the list as it is now. */
  ghost predicate ReaderStep(a: Arena, k: UserKey, r: Reader, s: Reader)
  {
    && r.Searching? && Linkable(a, r.x, r.level)
    && var n := a.next[r.x][r.level];
       && -1 <= n < |a.key|
       && s == if KeyIsAfterNode(a.key, k, n) then Searching(n, r.level)
               else if r.level == 0 then Returned(n) else Searching(r.x, r.level - 1)
  }

  /** One step of an insertion: a greater height, an unlinked node, or one published link. */
  ghost predicate WriterStep(a: Arena, b: Arena)
  {
    && Ok(a)
    && ( || (exists h :: a.height < h <= MAX_HEIGHT && b == a.(height := h))
         || (exists k, h :: b == AddNode(a, k, h))
         || (exists x, p, l :: CanLink(a, x, p, l) && b == Link(a, x, p, l)))
  }

  /** Nodes keep their keys and stay linked. */
  ghost predicate Grows(a: Arena, b: Arena)
  {
    && Ok(a) && Ok(b) && a.key <= b.key
    && forall l, y :: 0 <= l < MAX_HEIGHT && y in a.chain[l] ==> y in b.chain[l]
  }

  lemma HeightGrows(a: Arena, h: nat)
    requires Ok(a) && a.height < h <= MAX_HEIGHT
    ensures Grows(a, a.(height := h))
  {
    var b := a.(height := h);
    forall l | 0 <= l < MAX_HEIGHT ensures LevelOk(b, l) { assert LevelOk(a, l); }
    forall l | 0 < l < MAX_HEIGHT ensures Nested(b, l) { assert Nested(a, l); }
  }

  lemma NodeGrows(a: Arena, k: UserKey, h: nat)
    requires Ok(a)
    ensures Grows(a, AddNode(a, k, h))
  {
    var b := AddNode(a, k, h);
    forall l | 0 <= l < MAX_HEIGHT ensures LevelOk(b, l) { assert LevelOk(a, l); }
    forall l | 0 < l < MAX_HEIGHT ensures Nested(b, l) { assert Nested(a, l); }
  }

  lemma WriterGrows(a: Arena, b: Arena)
    requires WriterStep(a, b)
    ensures Grows(a, b)
  {
    hide LevelOk, Nested;
    if h :| a.height < h <= MAX_HEIGHT && b == a.(height := h) {
      HeightGrows(a, h);
    } else if k, h :| b == AddNode(a, k, h) {
      NodeGrows(a, k, h);
    } else {
      var x, p, l :| CanLink(a, x, p, l) && b == Link(a, x, p, l);
      LinkKeepsOk(a, x, p, l);
      InsertedMembers(a, x, p, l);
    }
  }

  /** An interleaving of one search with the steps of insertions. */
  ghost predicate Interleaved(lists: seq<Arena>, readers: seq<Reader>, k: UserKey)
  {
    && |lists| == |readers| > 0 && Ok(lists[0])
    && readers[0].Searching? && readers[0].x == 0 && readers[0].level < MAX_HEIGHT
    && forall i :: 0 <= i < |lists| - 1 ==>
         || (readers[i + 1] == readers[i] && WriterStep(lists[i], lists[i + 1]))
         || (lists[i + 1] == lists[i] && ReaderStep(lists[i], k, readers[i], readers[i + 1]))
  }

  lemma {:induction false} ReaderStands(lists: seq<Arena>, readers: seq<Reader>, k: UserKey, n: nat)
    requires Interleaved(lists, readers, k) && n < |lists|
    ensures Grows(lists[0], lists[n])
    ensures readers[n].Searching? ==> Standing(lists[n], k, readers[n].x, readers[n].level)
  {
    hide LevelOk, Nested;
    if n == 0 {
    } else {
      ReaderStands(lists, readers, k, n - 1);
      var a, b := lists[n - 1], lists[n];
      if readers[n] == readers[n - 1] && WriterStep(a, b) {
        WriterGrows(a, b);
      } else {
        assert ReaderStep(a, k, readers[n - 1], readers[n]);
        ReadStep(a, k, readers[n - 1].x, readers[n - 1].level);
      }
    }
  }

  /** Whatever insertions run meanwhile, a search returns the first node at or after its key in the list as
      it is when the search ends, and that list still holds every key it held when the search began. */
  lemma ConcurrentSearch(lists: seq<Arena>, readers: seq<Reader>, k: UserKey, n: nat)
    requires Interleaved(lists, readers, k) && n + 1 < |lists|
    requires readers[n].Searching? && readers[n + 1].Returned?
    ensures Ok(lists[0]) && Ok(lists[n])
    ensures IsCeiling(lists[n], k, readers[n + 1].node)
    ensures Contents(lists[0]) <= Contents(lists[n])
  {
    hide Nested;
    ReaderStands(lists, readers, k, n);
    ReadStep(lists[n], k, readers[n].x, readers[n].level);
    assert LevelOk(lists[0], 0);
  }
}
