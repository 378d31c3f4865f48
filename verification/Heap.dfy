/** The pointer-linked binary heap of timers (heap-inl.h).  Nodes are numbers; NIL is the null pointer. */
module Heap {

  const NIL: int := -1

  type Node = nat

  /** Timers compare by timeout, then by start order. */
  datatype Key = Key(timeout: nat, startId: nat)

  predicate Less(a: Key, b: Key)
  {
    a.timeout < b.timeout || (a.timeout == b.timeout && a.startId < b.startId)
  }

  /** The three links of every node, the root and the element count. */
  datatype Links = Links(left: seq<int>, right: seq<int>, parent: seq<int>, min: int, nelts: nat)

  // ---------- the complete tree ----------

  /** The node at a position, root first, row by row. */
  function Get(at: seq<Node>, i: nat): int
  {
    if i < |at| then at[i] else NIL
  }

  function Up(i: nat): nat
    requires i > 0
  {
    (i - 1) / 2
  }

  ghost predicate NodesOk(h: Links, at: seq<Node>)
  {
    && |h.left| == |h.right| == |h.parent|
    && (forall i :: 0 <= i < |at| ==> at[i] < |h.left|)
    && (forall i, j :: 0 <= i < j < |at| ==> at[i] != at[j])
  }

  ghost predicate LinksAt(h: Links, at: seq<Node>, i: nat)
    requires NodesOk(h, at) && i < |at|
  {
    && h.left[at[i]] == Get(at, 2 * i + 1) && h.right[at[i]] == Get(at, 2 * i + 2)
    && h.parent[at[i]] == if i == 0 then NIL else at[Up(i)]
  }

  /** The links spell out the complete tree `at`. */
  ghost predicate Shape(h: Links, at: seq<Node>)
  {
    && NodesOk(h, at) && h.nelts == |at| && h.min == Get(at, 0)
    && forall i :: 0 <= i < |at| ==> LinksAt(h, at, i)
  }

  ghost predicate KeysOk(key: seq<Key>, at: seq<Node>)
  {
    forall i :: 0 <= i < |at| ==> at[i] < |key|
  }

  ghost predicate InOrder(key: seq<Key>, at: seq<Node>, i: nat)
    requires KeysOk(key, at) && i < |at|
  {
    i > 0 ==> !Less(key[at[i]], key[at[Up(i)]])
  }

  ghost predicate HeapOrder(key: seq<Key>, at: seq<Node>)
    requires KeysOk(key, at)
  {
    forall i :: 0 <= i < |at| ==> InOrder(key, at, i)
  }

  function Swapped(at: seq<Node>, i: nat, c: nat): seq<Node>
    requires i < |at| && c < |at|
  {
    at[i := at[c]][c := at[i]]
  }

  // ---------- heap_node_swap ----------

  ghost predicate Exchangeable(h: Links, p: Node, c: Node)
  {
    && |h.left| == |h.right| == |h.parent| && p < |h.left| && c < |h.left|
    && -1 <= h.left[p] < |h.left| && -1 <= h.right[p] < |h.left| && -1 <= h.left[c] < |h.left|
    && -1 <= h.right[c] < |h.left| && -1 <= h.parent[p] < |h.left|
    && (h.left[p] == c || h.right[p] == c)
  }

  function Set(s: seq<int>, x: int, v: int): (r: seq<int>)
    requires -1 <= x < |s|
    ensures |r| == |s| && forall y :: 0 <= y < |s| ==> r[y] == if y == x then v else s[y]
  {
    if x == NIL then s else s[x := v]
  }

  /** The two nodes trade a link, as the struct copies do. */
  function Trade(s: seq<int>, p: Node, c: Node): (r: seq<int>)
    requires p < |s| && c < |s|
    ensures |r| == |s| && forall y :: 0 <= y < |s| ==> r[y] == if y == c then s[p] else if y == p then s[c] else s[y]
  {
    s[p := s[c]][c := s[p]]
  }

  function OwnLeft(h: Links, p: Node, c: Node): (r: seq<int>)
    requires Exchangeable(h, p, c)
    ensures |r| == |h.left| && forall y :: 0 <= y < |r| ==>
              r[y] == if y == c then (if h.left[p] == c then p else h.left[p]) else if y == p then h.left[c]
                  else h.left[y]
  {
    var l := Trade(h.left, p, c);
    if l[c] == c then l[c := p] else l
  }

  function OwnRight(h: Links, p: Node, c: Node): (r: seq<int>)
    requires Exchangeable(h, p, c)
    ensures |r| == |h.left| && forall y :: 0 <= y < |r| ==>
              r[y] == if y == c then (if h.left[p] == c then h.right[p] else p) else if y == p then h.right[c]
                  else h.right[y]
  {
    var r := Trade(h.right, p, c);
    if h.left[p] == c then r else r[c := p]
  }

  function LeftAfter(h: Links, p: Node, c: Node): (r: seq<int>)
    requires Exchangeable(h, p, c)
    ensures |r| == |h.left|
  {
    var l, grand := OwnLeft(h, p, c), h.parent[p];
    if grand != NIL && l[grand] == p then l[grand := c] else l
  }

  function RightAfter(h: Links, p: Node, c: Node): (r: seq<int>)
    requires Exchangeable(h, p, c)
    ensures |r| == |h.left|
  {
    var r, grand := OwnRight(h, p, c), h.parent[p];
    if grand != NIL && OwnLeft(h, p, c)[grand] != p then r[grand := c] else r
  }

  function ParentAfter(h: Links, p: Node, c: Node): (r: seq<int>)
    requires Exchangeable(h, p, c)
    ensures |r| == |h.left|
  {
    var sibling := if h.left[p] == c then h.right[p] else h.left[p];
    Set(Set(Set(Trade(h.parent, p, c)[p := c], sibling, c), h.left[c], p), h.right[c], p)
  }

  /** The links after heap_node_swap: the child has taken the place of its parent. */
  function Exchange(h: Links, p: Node, c: Node): (r: Links)
    requires Exchangeable(h, p, c)
  {
    Links(LeftAfter(h, p, c), RightAfter(h, p, c), ParentAfter(h, p, c), if h.parent[p] == NIL then c
        else h.min, h.nelts)
  }

  /** The nodes around an exchange, by position. */
  ghost predicate Around(h: Links, at: seq<Node>, i: nat, c: nat)
  {
    && Shape(h, at) && NodesOk(h, at) && 0 < c < |at| && i == Up(c)
    && Exchangeable(h, at[i], at[c])
    && LinksAt(h, at, i) && LinksAt(h, at, c)
  }

  /** Two positions hold the same node only if they are the same. */
  lemma SameNode(h: Links, at: seq<Node>, i: nat, j: nat)
    requires NodesOk(h, at) && i < |at|
    ensures at[i] == Get(at, j) <==> i == j
    ensures at[i] < |h.left| == |h.right| == |h.parent|
  {}

  lemma ExchangeLeft(h: Links, at: seq<Node>, i: nat, c: nat, j: nat)
    requires Around(h, at, i, c) && j < |at| && LinksAt(h, at, j)
    ensures var r, x, p, k := Exchange(h, at[i], at[c]), at[j], at[i], at[c];
            && |r.left| == |h.left|
            && r.left[x] == (if j == i then h.left[k] else if j == c then (if c == 2 * i + 1 then p else h.left[p])
                             else if i == 2 * j + 1 then k else h.left[x])
  {
    hide Shape, ParentAfter, Exchangeable, NodesOk, OwnLeft, OwnRight;
    SameNode(h, at, i, i);
    SameNode(h, at, c, 2 * i + 1);
    SameNode(h, at, i, 2 * j + 1);
    SameNode(h, at, j, i);
    SameNode(h, at, j, c);
    if i > 0 {
      SameNode(h, at, j, Up(i));
    }
  }

  lemma ExchangeRight(h: Links, at: seq<Node>, i: nat, c: nat, j: nat)
    requires Around(h, at, i, c) && j < |at| && LinksAt(h, at, j)
    ensures var r, x, p, k := Exchange(h, at[i], at[c]), at[j], at[i], at[c];
            && |r.right| == |h.right|
            && r.right[x] == (if j == i then h.right[k] else if j == c then (if c == 2 * i + 1 then h.right[p] else p)
                              else if i == 2 * j + 2 then k else h.right[x])
  {
    hide Shape, ParentAfter, Exchangeable, NodesOk, OwnLeft, OwnRight;
    SameNode(h, at, i, i);
    SameNode(h, at, c, 2 * i + 1);
    SameNode(h, at, i, 2 * j + 1);
    SameNode(h, at, j, i);
    SameNode(h, at, j, c);
    if i > 0 {
      SameNode(h, at, j, Up(i));
    }
  }

  lemma ParentOf(h: Links, p: Node, c: Node, x: Node)
    requires Exchangeable(h, p, c) && x < |h.left|
    requires h.left[p] != h.right[p] && h.left[c] != c && h.right[c] != c && p != c
    ensures ParentAfter(h, p, c)[x] ==
              if x == h.left[c] || x == h.right[c] then p
              else if x != c && (x == h.left[p] || x == h.right[p]) then c
              else if x == p then c else if x == c then h.parent[p] else h.parent[x]
  {}

  lemma ExchangeParent(h: Links, at: seq<Node>, i: nat, c: nat, j: nat)
    requires Around(h, at, i, c) && j < |at| && LinksAt(h, at, j)
    ensures var r, x, p, k := Exchange(h, at[i], at[c]), at[j], at[i], at[c];
            && |r.parent| == |h.parent|
            && r.parent[x] == (if j == i then k else if j == c then h.parent[p] else if j > 0 && Up(j) == i then k
                               else if j > 0 && Up(j) == c then p else h.parent[x])
  {
    hide Shape, Exchangeable, LeftAfter, RightAfter, ParentAfter, NodesOk;
    SameNode(h, at, c, i);
    SameNode(h, at, c, 2 * i + 1);
    SameNode(h, at, c, 2 * i + 2);
    SameNode(h, at, c, 2 * c + 1);
    SameNode(h, at, c, 2 * c + 2);
    SameNode(h, at, j, i);
    SameNode(h, at, j, c);
    SameNode(h, at, j, 2 * i + 1);
    SameNode(h, at, j, 2 * i + 2);
    SameNode(h, at, j, 2 * c + 1);
    SameNode(h, at, j, 2 * c + 2);
    ParentOf(h, at[i], at[c], at[j]);
  }

  lemma ExchangeAt(h: Links, at: seq<Node>, i: nat, c: nat, j: nat)
    requires Around(h, at, i, c) && j < |at| && LinksAt(h, at, j)
    ensures var r, b := Exchange(h, at[i], at[c]), Swapped(at, i, c);
            |b| == |at| && b[j] < |r.left| == |r.right| == |r.parent| == |h.left| &&
            r.left[b[j]] == Get(b, 2 * j + 1) && r.right[b[j]] == Get(b, 2 * j + 2) &&
            r.parent[b[j]] == if j == 0 then NIL else b[Up(j)]
  {
    hide Shape, Exchange;
    var m := if j == i then c else if j == c then i else j;
    ExchangeLeft(h, at, i, c, m);
    ExchangeRight(h, at, i, c, m);
    ExchangeParent(h, at, i, c, m);
  }

  lemma ExchangeRoot(h: Links, at: seq<Node>, i: nat, c: nat)
    requires Around(h, at, i, c)
    ensures var r, b := Exchange(h, at[i], at[c]), Swapped(at, i, c); r.nelts == |b| == |at| && r.min == Get(b, 0)
  {}

  lemma SwappedDiffer(at: seq<Node>, i: nat, c: nat, n: nat)
    requires i < |at| && c < |at|
    requires (forall j :: 0 <= j < |at| ==> at[j] < n) && forall j, k :: 0 <= j < k < |at| ==> at[j] != at[k]
    ensures var b := Swapped(at, i, c);
      (forall j :: 0 <= j < |b| ==> b[j] < n) && forall j, k :: 0 <= j < k < |b| ==> b[j] != b[k]
  {}

  lemma ExchangeNodes(h: Links, at: seq<Node>, i: nat, c: nat)
    requires Around(h, at, i, c)
    ensures NodesOk(Exchange(h, at[i], at[c]), Swapped(at, i, c))
  {
    hide LinksAt, Shape, Swapped, LeftAfter, RightAfter, ParentAfter;
    SwappedDiffer(at, i, c, |h.left|);
  }

  /** Exchanging a node with its parent keeps the complete tree. */
  lemma ExchangeShape(h: Links, at: seq<Node>, i: nat, c: nat)
    requires Around(h, at, i, c)
    ensures Shape(Exchange(h, at[i], at[c]), Swapped(at, i, c))
  {
    hide Exchange, NodesOk, Exchangeable, Swapped;
    var r, b := Exchange(h, at[i], at[c]), Swapped(at, i, c);
    ExchangeRoot(h, at, i, c);
    ExchangeNodes(h, at, i, c);
    forall j | 0 <= j < |at| ensures |b| == |at| && LinksAt(r, b, j) {
      assert LinksAt(h, at, j);
      ExchangeAt(h, at, i, c, j);
    }
  }

  // ---------- the path to a position ----------

  /** The 1-based position reached from q by k turns, the lowest bit of `path` first. */
  function Reach(q: nat, path: nat, k: nat): (r: nat)
    ensures q <= r && (k > 0 && q > 0 ==> 2 * q <= r)
    decreases k
  {
    if k == 0 then q else Reach(2 * q + path % 2, path / 2, k - 1)
  }

  lemma WalkStep(q: nat, path: nat, k: nat)
    requires q >= 1 && k > 0
    ensures var n, next := Reach(q, path, k), 2 * q + path % 2;
      && 2 * q <= n && next <= n && Reach(next, path / 2, k - 1) == n
      && Up(next - 1) == q - 1 && ((next - 1) % 2 == 1 <==> path % 2 == 0)
  {}

  lemma ReachHere(q: nat)
    ensures Reach(q, 0, 0) == q
  {}

  lemma ReachStep(m: nat, path: nat, k: nat)
    ensures Reach(m / 2, 2 * path + m % 2, k + 1) == Reach(m, path, k)
  {
    Halves(m, path);
    assert Reach(m / 2, 2 * path + m % 2, k + 1) ==
      Reach(2 * (m / 2) + (2 * path + m % 2) % 2, (2 * path + m % 2) / 2, k);
  }

  lemma Halves(m: nat, path: nat)
    ensures (2 * path + m % 2) % 2 == m % 2 && (2 * path + m % 2) / 2 == path && 2 * (m / 2) + m % 2 == m
  {}

  /** The bits of n below its leading one, read from the root down. */
  method PathTo(n: nat) returns (path: nat, k: nat)
    requires n >= 1
    ensures Reach(1, path, k) == n
  {
    hide Reach;
    path, k := 0, 0;
    var m := n;
    ReachHere(n);
    while m >= 2
      invariant m >= 1 && Reach(m, path, k) == n
    {
      ReachStep(m, path, k);
      path, k, m := 2 * path + m % 2, k + 1, m / 2;
    }
  }

  // ---------- attaching and detaching the last node ----------

  ghost function Owner(at: seq<Node>): int
  {
    if |at| == 0 then NIL else at[Up(|at|)]
  }

  /** The links with x hung below `owner`; a new root when there is no owner. */
  function Attach(h: Links, x: Node, owner: int, goesLeft: bool): Links
    requires |h.left| == |h.right| == |h.parent| && x < |h.left| && -1 <= owner < |h.left|
  {
    Links(if goesLeft then Set(Set(h.left, x, NIL), owner, x) else Set(h.left, x, NIL),
          if goesLeft then Set(h.right, x, NIL) else Set(Set(h.right, x, NIL), owner, x),
          Set(h.parent, x, owner), if owner == NIL then x else h.min, h.nelts + 1)
  }

  lemma AttachShape(h: Links, at: seq<Node>, x: Node)
    requires Shape(h, at) && x < |h.left| && x !in at
    requires -1 <= Owner(at) < |h.left|
    ensures Shape(Attach(h, x, Owner(at), |at| % 2 == 1), at + [x])
  {
    var r, b := Attach(h, x, Owner(at), |at| % 2 == 1), at + [x];
    AttachNodes(h, at, x);
    forall j | 0 <= j < |b| ensures LinksAt(r, b, j) {
      hide NodesOk, Attach;
      AttachAt(h, at, x, j);
    }
  }

  lemma AttachNodes(h: Links, at: seq<Node>, x: Node)
    requires Shape(h, at) && x < |h.left| && x !in at && -1 <= Owner(at) < |h.left|
    ensures NodesOk(Attach(h, x, Owner(at), |at| % 2 == 1), at + [x])
  {
    hide LinksAt;
  }

  lemma AttachAt(h: Links, at: seq<Node>, x: Node, j: nat)
    requires Shape(h, at) && x < |h.left| && x !in at && -1 <= Owner(at) < |h.left| && j <= |at|
    requires NodesOk(Attach(h, x, Owner(at), |at| % 2 == 1), at + [x])
    ensures LinksAt(Attach(h, x, Owner(at), |at| % 2 == 1), at + [x], j)
  {
    if j < |at| {
      assert LinksAt(h, at, j);
    }
  }

  // ---------- order ----------

  ghost predicate OrderExcept(key: seq<Key>, at: seq<Node>, pos: nat)
    requires KeysOk(key, at)
  {
    && (forall i :: 0 <= i < |at| && i != pos ==> InOrder(key, at, i))
    && (forall i :: 0 < i < |at| && Up(i) == pos && pos > 0 && pos < |at| ==> !Less(key[at[i]], key[at[Up(pos)]]))
  }

  /** Moving a node that is smaller than its parent up one place. */
  lemma SiftUpStep(key: seq<Key>, at: seq<Node>, pos: nat)
    requires KeysOk(key, at) && 0 < pos < |at| && OrderExcept(key, at, pos)
    requires Less(key[at[pos]], key[at[Up(pos)]])
    ensures KeysOk(key, Swapped(at, Up(pos), pos)) && OrderExcept(key, Swapped(at, Up(pos), pos), Up(pos))
  {
    var q, b := Up(pos), Swapped(at, Up(pos), pos);
    forall i | 0 <= i < |b| && i != q ensures InOrder(key, b, i) {
      assert InOrder(key, at, q) || q == pos;
      assert i != pos ==> InOrder(key, at, i);
    }
    forall i | 0 < i < |b| && Up(i) == q && q > 0 ensures !Less(key[b[i]], key[b[Up(q)]]) {
      assert InOrder(key, at, q) && (i != pos ==> InOrder(key, at, i));
    }
  }

  lemma SiftUpDone(key: seq<Key>, at: seq<Node>, pos: nat)
    requires KeysOk(key, at) && pos < |at| && OrderExcept(key, at, pos) && InOrder(key, at, pos)
    ensures HeapOrder(key, at)
  {}

  /** The order while a node sinks: its children may be smaller than it. */
  ghost predicate OrderBelow(key: seq<Key>, at: seq<Node>, pos: nat)
    requires KeysOk(key, at)
  {
    && (forall i :: 0 < i < |at| && i != pos && Up(i) != pos ==> InOrder(key, at, i))
    && (forall i :: 0 < i < |at| && Up(i) == pos && pos > 0 && pos < |at| ==> !Less(key[at[i]], key[at[Up(pos)]]))
  }

  lemma SiftDownStep(key: seq<Key>, at: seq<Node>, pos: nat, c: nat)
    requires KeysOk(key, at) && 0 < c < |at| && Up(c) == pos && OrderBelow(key, at, pos)
    requires forall i :: 0 < i < |at| && Up(i) == pos ==> !Less(key[at[i]], key[at[c]])
    requires Less(key[at[c]], key[at[pos]])
    ensures KeysOk(key, Swapped(at, pos, c)) && OrderBelow(key, Swapped(at, pos, c), c)
  {}

  lemma SiftDownDone(key: seq<Key>, at: seq<Node>, pos: nat)
    requires KeysOk(key, at) && pos < |at| && OrderBelow(key, at, pos)
    requires forall i :: 0 < i < |at| && Up(i) == pos ==> !Less(key[at[i]], key[at[pos]])
    ensures OrderExcept(key, at, pos)
  {}

  /** The links without the last node. */
  function Detach(h: Links, owner: int, goesLeft: bool): Links
    requires |h.left| == |h.right| == |h.parent| && -1 <= owner < |h.left| && h.nelts > 0
  {
    Links(if goesLeft then Set(h.left, owner, NIL) else h.left, if goesLeft then h.right else Set(h.right, owner, NIL),
          h.parent, if owner == NIL then NIL else h.min, h.nelts - 1)
  }

  lemma DetachShape(h: Links, at: seq<Node>)
    requires Shape(h, at) && |at| > 0 && -1 <= Owner(at[..|at| - 1]) < |h.left|
    ensures Shape(Detach(h, Owner(at[..|at| - 1]), (|at| - 1) % 2 == 1), at[..|at| - 1])
  {
    var b := at[..|at| - 1];
    var r := Detach(h, Owner(b), (|at| - 1) % 2 == 1);
    assert NodesOk(r, b);
    forall j | 0 <= j < |b| ensures LinksAt(r, b, j) {
      assert LinksAt(h, at, j);
    }
  }

  /** The links with x put in the place of `node`. */
  function Substitute(h: Links, node: Node, x: Node): Links
    requires |h.left| == |h.right| == |h.parent| && node < |h.left| && x < |h.left|
    requires -1 <= h.left[node] < |h.left| && -1 <= h.right[node] < |h.left| && -1 <= h.parent[node] < |h.left|
  {
    var up := h.parent[node];
    var left, right := Set(h.left, x, h.left[node]), Set(h.right, x, h.right[node]);
    Links(if up != NIL && left[up] == node then Set(left, up, x) else left,
          if up != NIL && left[up] != node then Set(right, up, x) else right,
          Set(Set(Set(h.parent, x, up), h.left[node], x), h.right[node], x),
          if up == NIL then x else h.min, h.nelts)
  }

  lemma SubstituteDown(h: Links, at: seq<Node>, i: nat, x: Node, j: nat)
    requires NodesOk(h, at) && i < |at| && x < |h.left| && x !in at && j < |at| && LinksAt(h, at, i)
             && LinksAt(h, at, j)
    ensures var r, b := Substitute(h, at[i], x), at[i := x];
            b[j] < |r.left| == |r.right| == |r.parent| == |h.left| &&
            r.left[b[j]] == Get(b, 2 * j + 1) && r.right[b[j]] == Get(b, 2 * j + 2)
  {}

  lemma SubstituteUp(h: Links, at: seq<Node>, i: nat, x: Node, j: nat)
    requires NodesOk(h, at) && i < |at| && x < |h.left| && x !in at && j < |at| && LinksAt(h, at, i)
             && LinksAt(h, at, j)
    ensures var r, b := Substitute(h, at[i], x), at[i := x];
            b[j] < |r.left| == |r.right| == |r.parent| == |h.left| && r.parent[b[j]] == if j == 0 then NIL else b[Up(j)]
  {}

  lemma SubstituteShape(h: Links, at: seq<Node>, i: nat, x: Node)
    requires Shape(h, at) && i < |at| && x < |h.left| && x !in at && LinksAt(h, at, i)
    ensures Shape(Substitute(h, at[i], x), at[i := x])
  {
    var r, b := Substitute(h, at[i], x), at[i := x];
    forall j | 0 <= j < |b| ensures NodesOk(r, b) && LinksAt(r, b, j) {
      assert LinksAt(h, at, j);
      SubstituteDown(h, at, i, x, j);
      SubstituteUp(h, at, i, x, j);
    }
  }

  ghost function SetOf(at: seq<Node>): set<Node>
  {
    set x | x in at
  }

  // ---------- the heap ----------

  class TimerHeap {
    var key: seq<Key>
    var left: seq<int>
    var right: seq<int>
    var parent: seq<int>
    var min: int
    var nelts: nat
    ghost var at: seq<Node>

    function H(): Links
      reads this
    {
      Links(left, right, parent, min, nelts)
    }

    ghost predicate Tree()
      reads this
    {
      && Shape(H(), at) && nelts == |at|
      && |key| == |left| == |right| == |parent| && KeysOk(key, at)
    }

    ghost predicate Valid()
      reads this
    {
      Tree() && HeapOrder(key, at)
    }

    ghost function Members(): set<Node>
      reads this
    {
      SetOf(at)
    }

    /** heap_init, with memory for `capacity` nodes. */
    constructor (capacity: nat, key: seq<Key>)
      requires |key| == capacity
      ensures Valid() && Members() == {} && this.key == key
    {
      this.key := key;
      left, right, parent := seq(capacity, _ => NIL), seq(capacity, _ => NIL), seq(capacity, _ => NIL);
      min, nelts, at := NIL, 0, [];
    }

    /** The struct copies, and the two nodes' links to each other. */
    method SwapOwnLinks(p: Node, c: Node) returns (sibling: int)
      requires Exchangeable(H(), p, c)
      modifies this`left, this`right, this`parent
      ensures left == OwnLeft(old(H()), p, c) && right == OwnRight(old(H()), p, c)
      ensures parent == Trade(old(parent), p, c)[p := c]
      ensures sibling == if old(left[p]) == c then old(right[p]) else old(left[p])
    {
      left, right, parent := Trade(left, p, c), Trade(right, p, c), Trade(parent, p, c);
      parent := parent[p := c];
      if left[c] == c {
        left := left[c := p];
        sibling := right[c];
      } else {
        right := right[c := p];
        sibling := left[c];
      }
    }

    /** The parent links of the sibling and of the children. */
    method AdoptChildren(p: Node, c: Node, sibling: int)
      requires |left| == |right| == |parent| && p < |left|
      requires -1 <= sibling < |parent| && -1 <= left[p] < |parent| && -1 <= right[p] < |parent|
      modifies this`parent
      ensures parent == Set(Set(Set(old(parent), sibling, c), left[p], p), right[p], p)
    {
      if sibling != NIL {
        parent := parent[sibling := c];
      }
      if left[p] != NIL {
        parent := parent[left[p] := p];
      }
      if right[p] != NIL {
        parent := parent[right[p] := p];
      }
    }

    /** heap_node_swap: the child moves up, the parent moves down. */
    method HeapNodeSwap(p: Node, c: Node)
      requires Exchangeable(H(), p, c) && p != c && left[c] != c && right[c] != c && left[p] != right[p]
      modifies this`left, this`right, this`parent, this`min
      ensures H() == Exchange(old(H()), p, c)
    {
      hide OwnLeft, OwnRight;
      var sibling := SwapOwnLinks(p, c);
      AdoptChildren(p, c, sibling);
      if parent[c] == NIL {
        min := c;
      } else if left[parent[c]] == p {
        left := left[parent[c] := c];
      } else {
        right := right[parent[c] := c];
      }
    }

    /** Swaps the node at position c with its parent. */
    method SwapUp(p: Node, c: Node, ghost pos: nat)
      requires Tree() && 0 < pos < |at| && c == at[pos] && p == at[Up(pos)]
      modifies this`left, this`right, this`parent, this`min, this`at
      ensures Tree() && at == Swapped(old(at), Up(pos), pos)
    {
      hide Exchange, Shape;
      AroundHere(H(), at, pos);
      ExchangeShape(H(), at, Up(pos), pos);
      ExchangeSize(H(), p, c);
      HeapNodeSwap(p, c);
      at := Swapped(at, Up(pos), pos);
    }

    /** What the links of the node at a position say. */
    lemma Neighbours(pos: nat)
      requires Tree() && pos < |at|
      ensures var x := at[pos];
              && left[x] == Get(at, 2 * pos + 1) && right[x] == Get(at, 2 * pos + 2)
              && parent[x] == if pos == 0 then NIL else at[Up(pos)]
    {
      LinksHere(H(), at, pos);
    }

    /** Walks up while the node is smaller than its parent. */
    method SiftUp(x: Node, ghost start: nat)
      requires Tree() && start < |at| && at[start] == x && OrderExcept(key, at, start)
      modifies this`left, this`right, this`parent, this`min, this`at
      ensures Valid() && Members() == old(Members())
    {
      hide Shape, OrderExcept, HeapOrder;
      ghost var pos: nat := start;
      Neighbours(pos);
      while parent[x] != NIL && Less(key[x], key[parent[x]])
        invariant Tree() && pos < |at| && at[pos] == x && OrderExcept(key, at, pos)
        invariant parent[x] == if pos == 0 then NIL else at[Up(pos)]
        invariant Members() == old(Members())
        decreases pos
      {
        SiftUpStep(key, at, pos);
        SwappedMembers(at, Up(pos), pos);
        SwapUp(parent[x], x, pos);
        pos := Up(pos);
        Neighbours(pos);
      }
      SiftUpDone(key, at, pos);
    }

    /** The smallest of a node and its children. */
    method SmallestChild(x: Node, ghost pos: nat) returns (smallest: Node, ghost c: nat)
      requires Tree() && pos < |at| && at[pos] == x
      ensures c < |at| && at[c] == smallest && (smallest == x <==> c == pos)
      ensures c != pos ==> 0 < c && Up(c) == pos && Less(key[smallest], key[x])
      ensures forall i :: 0 < i < |at| && Up(i) == pos ==> !Less(key[at[i]], key[smallest])
    {
      hide Shape;
      Neighbours(pos);
      ChildrenOf(at, pos);
      NodesDiffer(H(), at);
      smallest, c := x, pos;
      if left[x] != NIL && Less(key[left[x]], key[smallest]) {
        smallest, c := left[x], 2 * pos + 1;
      }
      if right[x] != NIL && Less(key[right[x]], key[smallest]) {
        smallest, c := right[x], 2 * pos + 2;
      }
    }

    /** Walks down while a child is smaller; returns the new position. */
    method SiftDown(x: Node, ghost start: nat) returns (ghost pos: nat)
      requires Tree() && start < |at| && at[start] == x && OrderBelow(key, at, start)
      modifies this`left, this`right, this`parent, this`min, this`at
      ensures Tree() && pos < |at| && at[pos] == x && OrderExcept(key, at, pos)
      ensures Members() == old(Members())
    {
      hide Shape, OrderBelow, OrderExcept;
      pos := start;
      while true
        invariant Tree() && pos < |at| && at[pos] == x && OrderBelow(key, at, pos)
        invariant Members() == old(Members())
        decreases |at| - pos
      {
        var smallest;
        ghost var c;
        smallest, c := SmallestChild(x, pos);
        if smallest == x {
          SiftDownDone(key, at, pos);
          return;
        }
        SiftDownStep(key, at, pos, c);
        SwappedMembers(at, pos, c);
        SwapUp(x, smallest, c);
        pos := c;
      }
    }

    /** Follows the path to a 1-based position: the node there, and the slot that holds it. */
    method Walk(n: nat) returns (owner: int, goesLeft: bool, node: int)
      requires Tree() && 1 <= n <= nelts + 1
      ensures node == Get(at, n - 1)
      ensures if n == 1 then owner == NIL else owner == at[Up(n - 1)] && goesLeft == ((n - 1) % 2 == 1)
    {
      hide Shape;
      RootIs(H(), at);
      var path, k := PathTo(n);
      owner, goesLeft, node := NIL, false, min;
      ghost var q := 1;
      while k > 0
        invariant q >= 1 && Reach(q, path, k) == n
        invariant node == Get(at, q - 1)
        invariant if q == 1 then owner == NIL else q <= n && owner == at[Up(q - 1)] && goesLeft == ((q - 1) % 2 == 1)
        decreases k
      {
        WalkStep(q, path, k);
        hide Reach, Up;
        Neighbours(q - 1);
        owner := node;
        goesLeft := path % 2 == 0;
        node := if path % 2 == 1 then right[node] else left[node];
        q := 2 * q + path % 2;
        path, k := path / 2, k - 1;
      }
    }

    /** Hangs a new node below its owner, as the last of the bottom row. */
    method AttachLast(x: Node, owner: int, goesLeft: bool)
      requires Tree() && x < |key| && x !in at
      requires if |at| == 0 then owner == NIL else owner == at[Up(|at|)] && goesLeft == (|at| % 2 == 1)
      modifies this`left, this`right, this`parent, this`min, this`nelts, this`at
      ensures Tree() && at == old(at) + [x]
    {
      hide Shape;
      AttachShapeHere(H(), at, x);
      left, right, parent := left[x := NIL], right[x := NIL], parent[x := owner];
      if owner == NIL {
        min := x;
      } else if goesLeft {
        left := left[owner := x];
      } else {
        right := right[owner := x];
      }
      nelts := nelts + 1;
      at := at + [x];
      assert H() == Attach(old(H()), x, owner, |old(at)| % 2 == 1);
    }

    /** heap_insert. */
    method Insert(x: Node)
      requires Valid() && x < |key| && x !in at
      modifies this`left, this`right, this`parent, this`min, this`nelts, this`at
      ensures Valid() && Members() == old(Members()) + {x}
    {
      hide Shape, HeapOrder, OrderExcept;
      var owner, goesLeft, _ := Walk(1 + nelts);
      hide KeysOk;
      AttachLast(x, owner, goesLeft);
      assert at[..|at| - 1] == old(at);
      AppendOrder(key, at, x);
      AppendMembers(at, x);
      SiftUp(x, |at| - 1);
    }

    /** Takes the last node of the bottom row out of the tree. */
    method DetachLast(owner: int, goesLeft: bool)
      requires Tree() && nelts > 0
      requires if |at| == 1 then owner == NIL else owner == at[Up(|at| - 1)] && goesLeft == ((|at| - 1) % 2 == 1)
      modifies this`left, this`right, this`min, this`nelts, this`at
      ensures Tree() && at == old(at)[..|old(at)| - 1]
    {
      hide Shape;
      DetachShapeHere(H(), at);
      if owner == NIL {
        min := NIL;
      } else if goesLeft {
        left := left[owner := NIL];
      } else {
        right := right[owner := NIL];
      }
      nelts := nelts - 1;
      at := at[..|at| - 1];
      assert H() == Detach(old(H()), owner, (|old(at)| - 1) % 2 == 1);
    }

    /** Puts x in the place of a node of the tree. */
    method Replace(node: Node, x: Node, ghost pos: nat)
      requires Tree() && pos < |at| && at[pos] == node && x < |key| && x !in at
      modifies this`left, this`right, this`parent, this`min, this`at
      ensures Tree() && at == old(at)[pos := x]
    {
      hide Shape, SetOf;
      Neighbours(pos);
      SubstituteShapeHere(H(), at, pos, x);
      Relink(node, x);
      at := at[pos := x];
    }

    /** Gives one node the links of another. */
    method Relink(node: Node, x: Node)
      requires node < |left| == |right| == |parent| && x < |left| && node != x
      requires -1 <= left[node] < |left| && -1 <= right[node] < |left| && -1 <= parent[node] < |left|
      requires left[node] != node && right[node] != node && parent[node] != x && left[node] != x && right[node] != x
      modifies this`left, this`right, this`parent, this`min
      ensures H() == Substitute(old(H()), node, x)
    {
      left, right, parent := left[x := left[node]], right[x := right[node]], parent[x := parent[node]];
      if left[x] != NIL {
        parent := parent[left[x] := x];
      }
      if right[x] != NIL {
        parent := parent[right[x] := x];
      }
      if parent[node] == NIL {
        min := x;
      } else if left[parent[node]] == node {
        left := left[parent[node] := x];
      } else {
        right := right[parent[node] := x];
      }
    }

    /** A node outside the heap gets a new key. */
    method SetKey(x: Node, k: Key)
      requires Valid() && x < |key| && x !in at
      modifies this`key
      ensures Valid() && key == old(key)[x := k]
    {
      hide Shape;
      key := key[x := k];
      assert forall i :: 0 <= i < |at| ==> InOrder(old(key), at, i) ==> InOrder(key, at, i);
    }

    /** heap_min. */
    method Min() returns (m: int)
      requires Valid()
      ensures if m == NIL then Members() == {} else m >= 0 && m in Members() && forall x :: x in Members() ==>
              x < |key| && !Less(key[x], key[m])
    {
      hide Shape;
      RootIs(H(), at);
      m := min;
      if m != NIL {
        forall x | x in Members() ensures x < |key| && !Less(key[x], key[m]) {
          var i :| 0 <= i < |at| && at[i] == x;
          RootIsLeast(key, at, i);
        }
      }
    }

    /** heap_remove, of any node. */
    method Remove(node: Node)
      requires Valid() && (nelts > 0 ==> node in at)
      modifies this`left, this`right, this`parent, this`min, this`nelts, this`at
      ensures Valid() && Members() == old(Members()) - {node}
    {
      hide Shape, HeapOrder, OrderExcept, OrderBelow;
      if nelts == 0 {
        return;
      }
      var owner, goesLeft, child := Walk(nelts);
      NodesDiffer(H(), at);
      ghost var pos: nat :| pos < |at| && at[pos] == node;
      DetachLast(owner, goesLeft);
      ShrinkOrder(key, old(at));
      if child == node {
        return;
      }
      ReplacedMembers(old(at), pos);
      Plant(node, child, pos);
    }

    /** The detached node takes the place of another and moves to where its key belongs. */
    method Plant(node: Node, x: Node, ghost pos: nat)
      requires Valid() && pos < |at| && at[pos] == node && x < |key| && x !in at
      modifies this`left, this`right, this`parent, this`min, this`at
      ensures Valid() && nelts == old(nelts) && Members() == SetOf(old(at)[pos := x])
    {
      hide Shape, HeapOrder, OrderExcept, OrderBelow, SetOf;
      ReplaceOrder(key, at, pos, x);
      Replace(node, x, pos);
      ghost var p := SiftDown(x, pos);
      SiftUp(x, p);
    }
  }

  /** The root is a smallest node. */
  lemma {:induction false} RootIsLeast(key: seq<Key>, at: seq<Node>, i: nat)
    requires KeysOk(key, at) && HeapOrder(key, at) && i < |at|
    ensures !Less(key[at[i]], key[at[0]])
  {
    if i == 0 {
    } else {
      assert InOrder(key, at, i);
      RootIsLeast(key, at, Up(i));
    }
  }

  lemma DetachShapeHere(h: Links, at: seq<Node>)
    requires Shape(h, at) && |at| > 0
    ensures var b := at[..|at| - 1];
            && -1 <= Owner(b) < |h.left| && |h.left| == |h.right| == |h.parent| && (Owner(b) == NIL <==> |at| == 1)
            && Owner(b) == (if |at| == 1 then NIL else at[Up(|at| - 1)])
            && Shape(Detach(h, Owner(b), (|at| - 1) % 2 == 1), b)
  {
    DetachShape(h, at);
  }

  lemma SubstituteShapeHere(h: Links, at: seq<Node>, i: nat, x: Node)
    requires Shape(h, at) && i < |at| && x < |h.left| && x !in at
    ensures var n := at[i];
            && n < |h.left| == |h.right| == |h.parent| && n != x
            && -1 <= h.left[n] < |h.left| && -1 <= h.right[n] < |h.left| && -1 <= h.parent[n] < |h.left|
            && h.left[n] != n && h.right[n] != n && h.parent[n] != x && h.left[n] != x && h.right[n] != x
            && Shape(Substitute(h, n, x), at[i := x])
  {
    LinksHere(h, at, i);
    SubstituteShape(h, at, i, x);
  }

  lemma ShrinkOrder(key: seq<Key>, at: seq<Node>)
    requires at != [] && KeysOk(key, at) && HeapOrder(key, at) && forall i, j :: 0 <= i < j < |at| ==> at[i] != at[j]
    ensures var b := at[..|at| - 1]; KeysOk(key, b) && HeapOrder(key, b) && SetOf(b) == SetOf(at) - {at[|at| - 1]}
  {
    var b := at[..|at| - 1];
    assert at == b + [at[|at| - 1]];
    forall i | 0 <= i < |b| ensures InOrder(key, b, i) {
      assert InOrder(key, at, i);
    }
  }

  /** After a node is replaced by any other, only its own place can be out of order. */
  lemma ReplaceOrder(key: seq<Key>, at: seq<Node>, pos: nat, x: Node)
    requires KeysOk(key, at) && HeapOrder(key, at) && pos < |at| && x < |key|
    ensures KeysOk(key, at[pos := x]) && OrderBelow(key, at[pos := x], pos)
  {
    var b := at[pos := x];
    forall i | 0 < i < |b| && i != pos ensures Up(i) != pos ==> InOrder(key, b, i)
                                       ensures Up(i) == pos && pos > 0 ==> !Less(key[b[i]], key[b[Up(pos)]])
    {
      assert InOrder(key, at, i) && InOrder(key, at, pos);
    }
  }

  lemma ReplacedMembers(at: seq<Node>, pos: nat)
    requires pos + 1 < |at| && forall i, j :: 0 <= i < j < |at| ==> at[i] != at[j]
    ensures SetOf(at[..|at| - 1][pos := at[|at| - 1]]) == SetOf(at) - {at[pos]}
  {
    var last := |at| - 1;
    var b := at[..last][pos := at[last]];
    forall x ensures x in SetOf(b) <==> x in at && x != at[pos] {
      if x in at && x != at[pos] {
        var i :| 0 <= i < |at| && at[i] == x;
        assert b[if i == last then pos else i] == x;
      }
    }
  }

  lemma LinksHere(h: Links, at: seq<Node>, i: nat)
    requires Shape(h, at) && i < |at|
    ensures NodesOk(h, at) && LinksAt(h, at, i)
  {}

  lemma RootIs(h: Links, at: seq<Node>)
    requires Shape(h, at)
    ensures h.min == Get(at, 0)
  {}

  lemma NodesDiffer(h: Links, at: seq<Node>)
    requires Shape(h, at)
    ensures forall i, j :: 0 <= i < j < |at| ==> at[i] != at[j]
  {}

  lemma ExchangeSize(h: Links, p: Node, c: Node)
    requires Exchangeable(h, p, c)
    ensures var r := Exchange(h, p, c); |r.left| == |r.right| == |r.parent| == |h.left| && r.nelts == h.nelts
  {}

  lemma AroundHere(h: Links, at: seq<Node>, c: nat)
    requires Shape(h, at) && 0 < c < |at|
    ensures Around(h, at, Up(c), c)
    ensures var p, k := at[Up(c)], at[c];
            p != k && h.left[k] != k && h.right[k] != k && h.left[p] != h.right[p]
  {
    LinksHere(h, at, c);
    LinksHere(h, at, Up(c));
  }

  lemma SwappedMembers(at: seq<Node>, i: nat, c: nat)
    requires i < |at| && c < |at|
    ensures SetOf(Swapped(at, i, c)) == SetOf(at)
  {
    var b := Swapped(at, i, c);
    assert b[i] == at[c] && b[c] == at[i] && forall j :: 0 <= j < |at| && j != i && j != c ==> b[j] == at[j];
  }

  lemma ChildrenOf(at: seq<Node>, pos: nat)
    ensures forall i :: 0 < i < |at| && Up(i) == pos ==> i == 2 * pos + 1 || i == 2 * pos + 2
    ensures Up(2 * pos + 1) == pos && Up(2 * pos + 2) == pos
  {}

  lemma AttachShapeHere(h: Links, at: seq<Node>, x: Node)
    requires Shape(h, at) && x < |h.left| && x !in at
    ensures -1 <= Owner(at) < |h.left| && |h.left| == |h.right| == |h.parent| && (Owner(at) != NIL <==> |at| > 0)
    ensures Shape(Attach(h, x, Owner(at), |at| % 2 == 1), at + [x])
  {
    AttachShape(h, at, x);
  }

  lemma AppendMembers(b: seq<Node>, x: Node)
    requires b != [] && b[|b| - 1] == x
    ensures SetOf(b) == SetOf(b[..|b| - 1]) + {x}
  {}

  lemma AppendOrder(key: seq<Key>, b: seq<Node>, x: Node)
    requires b != [] && KeysOk(key, b) && b[|b| - 1] == x && KeysOk(key, b[..|b| - 1]) && HeapOrder(key, b[..|b| - 1])
    ensures OrderExcept(key, b, |b| - 1)
  {
    var a := b[..|b| - 1];
    forall i | 0 <= i < |a| ensures InOrder(key, b, i) {
      assert InOrder(key, a, i);
    }
  }
}
