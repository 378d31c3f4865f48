/** One shard of the LRU cache and its hash table (util/cache.cc).  Handles are numbered in the order
    they are allocated; the numbers stand for the pointers. */
module Cache {
  import opened Keys
  import opened Lists

  // ---------- the hash table ----------

  datatype Item = Item(id: nat, key: string, hash: nat)

  predicate Same(it: Item, key: string, hash: nat)
  {
    it.hash == hash && it.key == key
  }

  type Buckets = seq<seq<Item>>

  ghost predicate In(list: Buckets, it: Item)
  {
    exists b :: 0 <= b < |list| && it in list[b]
  }

  /** No two entries of a chain have the same key. */
  ghost predicate ChainOk(chain: seq<Item>, b: nat, length: nat)
    requires length > 0
  {
    && (forall i :: 0 <= i < |chain| ==> chain[i].hash % length == b)
    && (forall i, j :: 0 <= i < j < |chain| ==> !Same(chain[i], chain[j].key, chain[j].hash))
  }

  ghost predicate BucketsOk(list: Buckets)
  {
    |list| > 0 && forall b :: 0 <= b < |list| ==> ChainOk(list[b], b, |list|)
  }

  function Total(list: Buckets): nat
  {
    if list == [] then 0 else Total(list[..|list| - 1]) + |list[|list| - 1]|
  }

  lemma {:induction false} TotalUpdate(list: Buckets, b: nat, chain: seq<Item>)
    requires b < |list|
    ensures Total(list[b := chain]) == Total(list) - |list[b]| + |chain|
  {
    var n := |list| - 1;
    if b == n {
      assert list[b := chain][..n] == list[..n];
    } else {
      TotalUpdate(list[..n], b, chain);
      assert list[b := chain][..n] == list[..n][b := chain];
    }
  }

  function Empty(n: nat): Buckets
  {
    seq(n, _ => [])
  }

  lemma {:induction false} TotalEmpty(n: nat)
    ensures Total(Empty(n)) == 0
  {
    if n > 0 {
      TotalEmpty(n - 1);
      assert Empty(n)[..n - 1] == Empty(n - 1);
    }
  }

  ghost predicate PowerOfTwo(n: nat)
  {
    n == 1 || (n > 1 && n % 2 == 0 && PowerOfTwo(n / 2))
  }

  class HandleTable {
    var list: Buckets
    var elems: nat

    ghost predicate Valid()
      reads this
    {
      BucketsOk(list) && elems == Total(list) && elems <= |list| && PowerOfTwo(|list|)
    }

    ghost predicate Has(it: Item)
      reads this
    {
      In(list, it)
    }

    constructor ()
      ensures Valid() && forall it :: !Has(it)
    {
      list := Empty(4);
      elems := 0;
      TotalEmpty(4);
      assert PowerOfTwo(2) && PowerOfTwo(4);
    }

    /** FindPointer: the slot of the entry for the key, or the trailing slot of its chain. */
    method FindPointer(key: string, hash: nat) returns (b: nat, i: nat)
      requires Valid()
      ensures b == hash % |list| && i <= |list[b]| && (i < |list[b]| ==> Same(list[b][i], key, hash))
      ensures forall it :: Has(it) && Same(it, key, hash) ==> i < |list[b]| && it == list[b][i]
    {
      b, i := hash % |list|, 0;
      while i < |list[b]| && !Same(list[b][i], key, hash)
        invariant i <= |list[b]| && forall j :: 0 <= j < i ==> !Same(list[b][j], key, hash)
      {
        i := i + 1;
      }
      forall it | Has(it) && Same(it, key, hash) ensures i < |list[b]| && it == list[b][i] {
        var c :| 0 <= c < |list| && it in list[c];
        assert ChainOk(list[c], c, |list|);
      }
    }

    method Lookup(key: string, hash: nat) returns (r: Option<nat>)
      requires Valid()
      ensures r.Some? ==> Has(Item(r.value, key, hash))
      ensures forall it :: Has(it) && Same(it, key, hash) ==> r == Some(it.id)
    {
      var b, i := FindPointer(key, hash);
      if i < |list[b]| {
        assert list[b][i] in list[b];
        r := Some(list[b][i].id);
      } else {
        r := None;
      }
    }

    /** Takes the place of an entry with the same key, or goes at the end of the chain. */
    method Insert(h: Item) returns (previous: Option<nat>)
      requires Valid()
      modifies this
      ensures Valid()
      ensures forall it :: Has(it) <==> it == h || (old(Has(it)) && !Same(it, h.key, h.hash))
      ensures previous.Some? ==> old(Has(Item(previous.value, h.key, h.hash)))
      ensures forall it :: old(Has(it)) && Same(it, h.key, h.hash) ==> previous == Some(it.id)
    {
      var b, i := FindPointer(h.key, h.hash);
      assert ChainOk(list[b], b, |list|);
      previous := if i < |list[b]| then Some(list[b][i].id) else None;
      var chain := if i < |list[b]| then list[b][i := h] else list[b] + [h];
      ghost var before := list;
      TotalUpdate(list, b, chain);
      Replaced(list, b, i, h, chain);
      list := list[b := chain];
      assert forall it :: Has(it) <==> it == h || (In(before, it) && !Same(it, h.key, h.hash));
      if previous.None? {
        elems := elems + 1;
        if elems > |list| {
          Resize();
        }
      }
    }

    method Remove(key: string, hash: nat) returns (r: Option<nat>)
      requires Valid()
      modifies this
      ensures Valid()
      ensures forall it :: Has(it) <==> old(Has(it)) && !Same(it, key, hash)
      ensures r.Some? ==> old(Has(Item(r.value, key, hash)))
      ensures forall it :: old(Has(it)) && Same(it, key, hash) ==> r == Some(it.id)
    {
      var b, i := FindPointer(key, hash);
      r := None;
      if i < |list[b]| {
        r := Some(list[b][i].id);
        var chain := list[b][..i] + list[b][i + 1..];
        TotalUpdate(list, b, chain);
        Removed(list, b, i);
        list := list[b := chain];
        elems := elems - 1;
      }
    }

    /** Rehashes every entry into a longer table. */
    method Resize()
      requires BucketsOk(list) && elems == Total(list)
      modifies this
      ensures Valid() && elems == old(elems) && forall it :: Has(it) <==> old(Has(it))
      ensures |list| == 4 || |list| < 2 * elems
    {
      var length := 4;
      assert PowerOfTwo(2) && PowerOfTwo(4);
      while length < elems
        invariant PowerOfTwo(length) && (length == 4 || length < 2 * elems)
      {
        assert (length * 2) / 2 == length;
        length := length * 2;
      }
      var next, buckets := Empty(length), list;
      TotalEmpty(length);
      for i := 0 to |buckets|
        invariant |next| == length && BucketsOk(next) && Total(next) == Total(buckets[..i])
        invariant forall it :: In(next, it) <==> In(buckets[..i], it)
        invariant elems == old(elems)
      {
        next := Rehash(buckets, i, next);
        assert buckets[..i + 1][..i] == buckets[..i];
        LastBucket(buckets, i);
      }
      assert buckets[..|buckets|] == buckets;
      list := next;
    }

    /** Moves one chain, entry by entry, to the front of the new chains. */
    static method Rehash(buckets: Buckets, i: nat, start: Buckets) returns (next: Buckets)
      requires BucketsOk(buckets) && BucketsOk(start) && i < |buckets| && forall it :: In(start, it) <==>
               In(buckets[..i], it)
      ensures |next| == |start| && BucketsOk(next) && Total(next) == Total(start) + |buckets[i]|
      ensures forall it :: In(next, it) <==> In(start, it) || it in buckets[i]
    {
      var chain := buckets[i];
      next := start;
      for j := 0 to |chain|
        invariant |next| == |start| && BucketsOk(next) && Total(next) == Total(start) + j
        invariant forall it :: In(next, it) <==> In(start, it) || it in chain[..j]
      {
        var h := chain[j];
        var b := h.hash % |next|;
        NotYetMoved(buckets, i, j);
        TotalUpdate(next, b, [h] + next[b]);
        Pushed(next, b, h);
        hide *;
        next := next[b := [h] + next[b]];
        assert chain[..j + 1] == chain[..j] + [h];
      }
      assert chain[..|chain|] == chain;
    }
  }

  lemma LastBucket(list: Buckets, i: nat)
    requires i < |list|
    ensures forall it :: In(list[..i + 1], it) <==> In(list[..i], it) || it in list[i]
  {}

  lemma InUpdated(list: Buckets, b: nat, chain: seq<Item>, it: Item)
    requires b < |list|
    ensures In(list[b := chain], it) <==> it in chain || (exists c :: 0 <= c < |list| && c != b && it in list[c])
  {
    var next := list[b := chain];
    if it in chain { assert it in next[b]; }
    if c :| 0 <= c < |list| && c != b && it in list[c] { assert it in next[c]; }
  }

  lemma {:induction false} Replaced(list: Buckets, b: nat, i: nat, h: Item, chain: seq<Item>)
    requires BucketsOk(list) && b == h.hash % |list| && i <= |list[b]|
    requires forall j :: 0 <= j < |list[b]| && j != i ==> !Same(list[b][j], h.key, h.hash)
    requires i < |list[b]| ==> Same(list[b][i], h.key, h.hash)
    requires chain == if i < |list[b]| then list[b][i := h] else list[b] + [h]
    ensures var next := list[b := chain];
      BucketsOk(next) && forall it :: In(next, it) <==> it == h || (In(list, it) && !Same(it, h.key, h.hash))
  {
    var next := list[b := chain];
    assert ChainOk(list[b], b, |list|);
    assert ChainOk(chain, b, |list|);
    forall c | 0 <= c < |next| ensures ChainOk(next[c], c, |next|) { assert ChainOk(list[c], c, |list|); }
    forall it ensures In(next, it) <==> it == h || (In(list, it) && !Same(it, h.key, h.hash)) {
      InUpdated(list, b, chain, it);
      InUpdated(list, b, list[b], it);
      assert list[b := list[b]] == list;
      SameBucket(list, it);
      ChainReplaced(list[b], i, h, it);
    }
  }

  lemma ChainReplaced(c: seq<Item>, i: nat, h: Item, it: Item)
    requires i <= |c| && forall j :: 0 <= j < |c| && j != i ==> !Same(c[j], h.key, h.hash)
    requires i < |c| ==> Same(c[i], h.key, h.hash)
    ensures it in (if i < |c| then c[i := h] else c + [h]) <==>
              it == h || (it in c && !Same(it, h.key, h.hash))
  {
    var chain := if i < |c| then c[i := h] else c + [h];
    assert chain[i] == h;
    if it in c && !Same(it, h.key, h.hash) {
      var j :| 0 <= j < |c| && c[j] == it;
      assert chain[j] == it;
    }
  }

  lemma SameBucket(list: Buckets, it: Item)
    requires BucketsOk(list)
    ensures forall c :: 0 <= c < |list| && it in list[c] ==> c == it.hash % |list|
  {}

  lemma Removed(list: Buckets, b: nat, i: nat)
    requires BucketsOk(list) && b < |list| && i < |list[b]|
    ensures var next := list[b := list[b][..i] + list[b][i + 1..]]; var h := list[b][i];
      BucketsOk(next) && forall it :: In(next, it) <==> In(list, it) && !Same(it, h.key, h.hash)
  {
    var h, chain := list[b][i], list[b][..i] + list[b][i + 1..];
    var next := list[b := chain];
    assert ChainOk(list[b], b, |list|);
    assert ChainOk(chain, b, |list|);
    forall c | 0 <= c < |next| ensures ChainOk(next[c], c, |next|) { assert ChainOk(list[c], c, |list|); }
    forall it ensures In(next, it) <==> In(list, it) && !Same(it, h.key, h.hash) {
      InUpdated(list, b, chain, it);
      SameBucket(list, it);
      ChainRemoved(list[b], b, |list|, i, it);
    }
  }

  lemma ChainRemoved(chain: seq<Item>, b: nat, length: nat, i: nat, it: Item)
    requires length > 0 && ChainOk(chain, b, length) && i < |chain|
    ensures it in chain[..i] + chain[i + 1..] <==> it in chain && !Same(it, chain[i].key, chain[i].hash)
  {}

  lemma NotYetMoved(list: Buckets, i: nat, j: nat)
    requires BucketsOk(list) && i < |list| && j < |list[i]|
    ensures forall it :: In(list[..i], it) || it in list[i][..j] ==> !Same(it, list[i][j].key, list[i][j].hash)
  {}

  lemma Pushed(list: Buckets, b: nat, h: Item)
    requires BucketsOk(list) && b == h.hash % |list| && forall it :: In(list, it) ==> !Same(it, h.key, h.hash)
    ensures var next := list[b := [h] + list[b]]; BucketsOk(next) && forall it :: In(next, it) <==>
            it == h || In(list, it)
  {
    var chain := [h] + list[b];
    var next := list[b := chain];
    assert ChainOk(list[b], b, |list|);
    forall j | 0 < j < |chain| ensures !Same(h, chain[j].key, chain[j].hash) && chain[j].hash % |list| == b {
      assert In(list, chain[j]);
    }
    assert ChainOk(chain, b, |list|);
    forall c | 0 <= c < |next| ensures ChainOk(next[c], c, |next|) { assert ChainOk(list[c], c, |list|); }
    forall it ensures In(next, it) <==> it == h || In(list, it) {
      InUpdated(list, b, chain, it);
    }
  }

  // ---------- one shard ----------

  datatype Info = Info(key: string, hash: nat, value: string, charge: nat)

  function Charges(info: seq<Info>, ids: seq<nat>): nat
  {
    if ids == [] then 0
    else (if ids[0] < |info| then info[ids[0]].charge else 0) + Charges(info, ids[1..])
  }

  lemma {:induction false} ChargesWithout(info: seq<Info>, ids: seq<nat>, x: nat)
    requires x in ids && x < |info|
    ensures Charges(info, Without(ids, x)) == Charges(info, ids) - info[x].charge
  {
    if ids[0] != x {
      ChargesWithout(info, ids[1..], x);
      var r := Without(ids, x);
      assert r[1..] == Without(ids[1..], x);
    }
  }

  lemma {:induction false} ChargesAppend(info: seq<Info>, ids: seq<nat>, x: nat)
    ensures Charges(info, ids + [x]) == Charges(info, ids) + (if x < |info| then info[x].charge else 0)
  {
    if ids == [] {
      assert [x][1..] == [];
    } else {
      ChargesAppend(info, ids[1..], x);
      assert (ids + [x])[1..] == ids[1..] + [x];
    }
  }

  lemma {:induction false} ChargesMore(info: seq<Info>, i: Info, ids: seq<nat>)
    requires forall k :: 0 <= k < |ids| ==> ids[k] < |info|
    ensures Charges(info + [i], ids) == Charges(info, ids)
  {
    if ids != [] {
      assert ids == [ids[0]] + ids[1..];
      ChargesMore(info, i, ids[1..]);
    }
  }

  function Held(out: map<nat, nat>, id: nat): nat
  {
    if id in out then out[id] else 0
  }

  /** The two lists split the cached handles: idle ones, which only the cache refers to, and those in use. */
  ghost predicate ListsOk(refs: map<nat, nat>, inCache: set<nat>, lru: seq<nat>, inUse: seq<nat>)
  {
    && NoDups(lru) && NoDups(inUse)
    && (forall x :: x in lru ==> x in inCache && x in refs && refs[x] == 1)
    && (forall x :: x in inUse ==> x in inCache && x in refs && refs[x] >= 2)
    && (forall x :: x in inCache ==> x in lru || x in inUse)
  }

  function Refs(out: map<nat, nat>, inCache: set<nat>, id: nat): nat
  {
    Held(out, id) + if id in inCache then 1 else 0
  }

  /** A handle counts the clients holding it and the cache; one that nobody counts on is gone. */
  ghost predicate RefsOk(refs: map<nat, nat>, inCache: set<nat>, out: map<nat, nat>)
  {
    forall id: nat :: if id in refs then refs[id] == Refs(out, inCache, id) > 0 else Refs(out, inCache, id) == 0
  }

  /** The same, but `e` counts one reference that nobody has any more. */
  ghost predicate OneTooMany(refs: map<nat, nat>, inCache: set<nat>, out: map<nat, nat>, e: nat)
  {
    && e in refs && refs[e] == Refs(out, inCache, e) + 1
    && forall id: nat :: id != e ==> if id in refs then refs[id] == Refs(out, inCache, id) > 0
       else Refs(out, inCache, id) == 0
  }

  /** Every handle ever allocated is either alive or was passed to its deleter, once. */
  ghost predicate LifeOk(refs: map<nat, nat>, deleted: seq<nat>, total: nat)
  {
    && NoDups(deleted) && (forall id: nat :: id < total <==> id in refs || id in deleted)
    && (forall id: nat :: id in deleted ==> id !in refs)
  }

  ghost predicate UsageOk(info: seq<Info>, lru: seq<nat>, inUse: seq<nat>, usage: nat)
  {
    usage == Charges(info, lru) + Charges(info, inUse)
  }

  /** How many of the oldest idle handles must go. */
  function Evicted(info: seq<Info>, lru: seq<nat>, usage: int, capacity: nat): (k: nat)
    ensures k <= |lru|
  {
    if usage <= capacity || lru == [] then 0
    else 1 + Evicted(info, lru[1..], usage - (if lru[0] < |info| then info[lru[0]].charge else 0), capacity)
  }

  /** Eviction stops as soon as the rest fits, and not before. */
  lemma {:induction false} EvictedLeast(info: seq<Info>, lru: seq<nat>, usage: int, capacity: nat, j: nat)
    requires j <= Evicted(info, lru, usage, capacity)
    ensures j < Evicted(info, lru, usage, capacity) ==> usage - Charges(info, lru[..j]) > capacity
    ensures j == Evicted(info, lru, usage, capacity) < |lru| ==> usage - Charges(info, lru[..j]) <= capacity
  {
    if usage > capacity && lru != [] && j > 0 {
      EvictedLeast(info, lru[1..], usage - (if lru[0] < |info| then info[lru[0]].charge else 0), capacity, j - 1);
      assert lru[..j][1..] == lru[1..][..j - 1];
    }
  }

  function ItemOf(info: seq<Info>, id: nat): Item
    requires id < |info|
  {
    Item(id, info[id].key, info[id].hash)
  }

  // ---------- how the counts move ----------

  lemma ListsRef(refs: map<nat, nat>, inCache: set<nat>, lru: seq<nat>, inUse: seq<nat>, e: nat)
    requires ListsOk(refs, inCache, lru, inUse) && e in inCache
    ensures e in lru <==> e !in inUse
    ensures e in lru ==> refs[e] == 1 && ListsOk(refs[e := 2], inCache, Without(lru, e), inUse + [e])
    ensures e in inUse ==> refs[e] >= 2 && ListsOk(refs[e := refs[e] + 1], inCache, lru, inUse)
  {}

  lemma ListsUnref(refs: map<nat, nat>, inCache: set<nat>, lru: seq<nat>, inUse: seq<nat>, e: nat)
    requires ListsOk(refs, inCache, lru, inUse) && e in refs
    ensures e !in inCache ==> ListsOk(Freed(refs, e), inCache, lru, inUse)
    ensures e !in inCache && refs[e] > 1 ==> ListsOk(refs[e := refs[e] - 1], inCache, lru, inUse)
    ensures e in inCache && refs[e] == 2 ==> e in inUse && ListsOk(refs[e := 1], inCache, lru + [e], Without(inUse, e))
    ensures e in inCache && refs[e] > 2 ==> ListsOk(refs[e := refs[e] - 1], inCache, lru, inUse)
  {}

  /** One handle's memory is given back. */
  function Freed(refs: map<nat, nat>, e: nat): map<nat, nat>
  {
    map id | id in refs && id != e :: refs[id]
  }

  lemma RefsChange(refs: map<nat, nat>, inCache: set<nat>, out: map<nat, nat>, e: nat)
    ensures RefsOk(refs, inCache, out) && e in refs ==>
            RefsOk(refs[e := refs[e] + 1], inCache, out[e := Held(out, e) + 1])
    ensures RefsOk(refs, inCache, out) && Held(out, e) > 0 ==> OneTooMany(refs, inCache, out[e := out[e] - 1], e)
    ensures RefsOk(refs, inCache, out) && e in inCache ==> e in refs && OneTooMany(refs, inCache - {e}, out, e)
    ensures OneTooMany(refs, inCache, out, e) && refs[e] > 1 ==> RefsOk(refs[e := refs[e] - 1], inCache, out)
    ensures OneTooMany(refs, inCache, out, e) && refs[e] == 1 ==> RefsOk(Freed(refs, e), inCache, out)
  {}

  lemma RefAlive(refs: map<nat, nat>, inCache: set<nat>, out: map<nat, nat>, deleted: seq<nat>, total: nat, e: nat)
    requires RefsOk(refs, inCache, out) && LifeOk(refs, deleted, total) && e in inCache
    ensures e in refs && e < total
  {}

  lemma LifeChange(refs: map<nat, nat>, deleted: seq<nat>, total: nat, e: nat, n: nat)
    requires LifeOk(refs, deleted, total) && e in refs
    ensures LifeOk(refs[e := n], deleted, total) && LifeOk(Freed(refs, e), deleted + [e], total)
  {}

  lemma UsageMoves(info: seq<Info>, lru: seq<nat>, inUse: seq<nat>, usage: nat, e: nat)
    requires UsageOk(info, lru, inUse, usage) && e < |info|
    ensures e in lru ==> UsageOk(info, Without(lru, e), inUse + [e], usage)
    ensures e in inUse ==> UsageOk(info, lru + [e], Without(inUse, e), usage)
    ensures e in lru && e !in inUse ==>
              usage >= info[e].charge && UsageOk(info, Without(lru, e), Without(inUse, e), usage - info[e].charge)
    ensures e in inUse && e !in lru ==>
              usage >= info[e].charge && UsageOk(info, Without(lru, e), Without(inUse, e), usage - info[e].charge)
  {
    ChargesAppend(info, lru, e);
    ChargesAppend(info, inUse, e);
    if e in lru { ChargesWithout(info, lru, e); } else { WithoutAbsent(lru, e); }
    if e in inUse { ChargesWithout(info, inUse, e); } else { WithoutAbsent(inUse, e); }
  }

  lemma ListsErase(refs: map<nat, nat>, inCache: set<nat>, lru: seq<nat>, inUse: seq<nat>, e: nat)
    requires ListsOk(refs, inCache, lru, inUse) && e in inCache
    ensures ListsOk(refs, inCache - {e}, Without(lru, e), Without(inUse, e))
  {}

  lemma OldestGone(lru: seq<nat>, inUse: seq<nat>)
    requires lru != []
    ensures Without(lru, lru[0]) == lru[1..]
  {}

  class LRUCache {
    const capacity: nat
    const table: HandleTable
    var usage: nat
    var info: seq<Info>
    var refs: map<nat, nat>
    var inCache: set<nat>
    var lru: seq<nat>
    var inUse: seq<nat>
    var deleted: seq<nat>     // handles passed to their deleter
    ghost var out: map<nat, nat>  // how many times clients hold each handle

    ghost predicate CountsOk()
      reads this
    {
      && ListsOk(refs, inCache, lru, inUse) && RefsOk(refs, inCache, out) && LifeOk(refs, deleted, |info|)
      && UsageOk(info, lru, inUse, usage)
    }

    /** The hash table holds exactly the cached handles. */
    ghost predicate TableOk()
      reads this, table
    {
      table.Valid() && forall it :: table.Has(it) <==> it.id in inCache && it.id < |info| && it == ItemOf(info, it.id)
    }

    ghost predicate Valid()
      reads this, table
    {
      CountsOk() && TableOk()
    }

    constructor (capacity: nat)
      ensures Valid() && fresh(table) && this.capacity == capacity && info == [] && out == map[]
    {
      this.capacity := capacity;
      table := new HandleTable();
      usage, info, refs, inCache, lru, inUse, deleted := 0, [], map[], {}, [], [], [];
      out := map[];
    }

    /** A client or the hash table refers to one more. */
    method Ref(e: nat)
      requires CountsOk() && e in inCache
      modifies this`refs, this`lru, this`inUse, this`out
      ensures CountsOk() && out == old(out)[e := Held(old(out), e) + 1]
      ensures lru == (if e in old(lru) then Without(old(lru), e) else old(lru))
    {
      hide ListsOk, RefsOk, LifeOk, UsageOk, Held, Without;
      RefAlive(refs, inCache, out, deleted, |info|, e);
      ListsRef(refs, inCache, lru, inUse, e);
      RefsChange(refs, inCache, out, e);
      LifeChange(refs, deleted, |info|, e, refs[e] + 1);
      UsageMoves(info, lru, inUse, usage, e);
      out := out[e := Held(out, e) + 1];
      if refs[e] == 1 {
        refs, lru, inUse := refs[e := 2], Without(lru, e), inUse + [e];
      } else {
        refs := refs[e := refs[e] + 1];
      }
    }

    /** Drops the reference that the counts no longer account for. */
    method Unref(e: nat)
      requires ListsOk(refs, inCache, lru, inUse) && LifeOk(refs, deleted, |info|) && UsageOk(info, lru, inUse, usage)
      requires OneTooMany(refs, inCache, out, e)
      modifies this`refs, this`lru, this`inUse, this`deleted
      ensures CountsOk()
      ensures deleted == old(deleted) + (if Refs(out, inCache, e) == 0 then [e] else [])
      ensures lru == old(lru) + (if e in inCache && Held(out, e) == 0 then [e] else [])
    {
      hide RefsOk, ListsOk, UsageOk, Charges;
      ListsUnref(refs, inCache, lru, inUse, e);
      RefsChange(refs, inCache, out, e);
      LifeChange(refs, deleted, |info|, e, refs[e] - 1);
      UsageMoves(info, lru, inUse, usage, e);
      hide LifeOk;
      if refs[e] == 1 {
        refs := Freed(refs, e);
        deleted := deleted + [e];
      } else {
        refs := refs[e := refs[e] - 1];
        if e in inCache && refs[e] == 1 {
          inUse := Without(inUse, e);
          lru := lru + [e];
        }
      }
    }

    method FinishErase(e: nat)
      requires CountsOk() && e in inCache && e < |info|
      modifies this`usage, this`refs, this`inCache, this`lru, this`inUse, this`deleted
      ensures CountsOk() && inCache == old(inCache) - {e} && usage == old(usage) - info[e].charge
      ensures lru == Without(old(lru), e) && deleted == old(deleted) + (if Held(out, e) == 0 then [e] else [])
    {
      ListsRef(refs, inCache, lru, inUse, e);
      ListsErase(refs, inCache, lru, inUse, e);
      RefsChange(refs, inCache, out, e);
      UsageMoves(info, lru, inUse, usage, e);
      hide ListsOk, RefsOk, LifeOk, UsageOk;
      lru := Without(lru, e);
      inUse := Without(inUse, e);
      inCache := inCache - {e};
      usage := usage - info[e].charge;
      Unref(e);
    }

    method Lookup(key: string, hash: nat) returns (r: Option<nat>)
      requires Valid()
      modifies this`refs, this`lru, this`inUse, this`out
      ensures Valid()
      ensures r.None? ==> out == old(out) && lru == old(lru) && forall id :: id in inCache ==>
              !Same(ItemOf(info, id), key, hash)
      ensures r.Some? ==> r.value in inCache && Same(ItemOf(info, r.value), key, hash)
      ensures r.Some? ==> out == old(out)[r.value := Held(old(out), r.value) + 1] && r.value !in lru
    {
      r := table.Lookup(key, hash);
      if r.Some? {
        Ref(r.value);
      } else {
        forall id | id in inCache ensures !Same(ItemOf(info, id), key, hash) { assert table.Has(ItemOf(info, id)); }
      }
    }

    method Release(e: nat)
      requires Valid() && Held(out, e) > 0
      modifies this`refs, this`lru, this`inUse, this`deleted, this`out
      ensures Valid() && out == old(out)[e := Held(old(out), e) - 1]
      ensures deleted == old(deleted) + (if Held(out, e) == 0 && e !in inCache then [e] else [])
      ensures lru == old(lru) + (if Held(out, e) == 0 && e in inCache then [e] else [])
    {
      out := out[e := Held(out, e) - 1];
      Unref(e);
    }

    method Erase(key: string, hash: nat)
      requires Valid()
      modifies this`usage, this`refs, this`inCache, this`lru, this`inUse, this`deleted, table
      ensures Valid()
      ensures forall id :: id in inCache <==> id in old(inCache) && !Same(ItemOf(info, id), key, hash)
    {
      var e := table.Remove(key, hash);
      if e.Some? {
        FinishErase(e.value);
      }
    }

    /** Evicts the oldest idle handle. */
    method EvictOldest()
      requires Valid() && lru != []
      modifies this`usage, this`refs, this`inCache, this`lru, this`inUse, this`deleted, table
      ensures Valid() && inCache == old(inCache) - {old(lru[0])} && lru == old(lru[1..])
      ensures deleted == old(deleted) + [old(lru[0])]
      ensures old(lru[0]) < |info| && usage == old(usage) - info[old(lru[0])].charge
    {
      var e := lru[0];
      assert e in lru && e in refs && table.Has(ItemOf(info, e));
      var removed := table.Remove(info[e].key, info[e].hash);
      OldestGone(lru, inUse);
      FinishErase(removed.value);
    }

    method Prune()
      requires Valid()
      modifies this`usage, this`refs, this`inCache, this`lru, this`inUse, this`deleted, table
      ensures Valid() && lru == [] && deleted == old(deleted) + old(lru)
      ensures inCache == old(inCache) - (set x | x in old(lru))
    {
      hide CountsOk, TableOk;
      ghost var k := 0;
      while lru != []
        invariant Valid() && k <= |old(lru)| && lru == old(lru)[k..] && deleted == old(deleted) + old(lru)[..k]
        invariant inCache == old(inCache) - (set x | x in old(lru)[..k])
        decreases |lru|
      {
        EvictOldest();
        k := k + 1;
      }
    }

    /** Allocates a handle held once by the caller and, when caching is on, by the cache. */
    method Allocate(i: Info) returns (e: nat)
      requires Valid()
      modifies this`info, this`refs, this`inCache, this`inUse, this`usage, this`out
      ensures CountsOk() && e == |old(info)| && info == old(info) + [i] && out == old(out)[e := 1]
      ensures capacity > 0 ==> inCache == old(inCache) + {e} && usage == old(usage) + i.charge
      ensures capacity == 0 ==> inCache == old(inCache) && usage == old(usage)
      ensures forall id :: id in old(inCache) ==> id < e
    {
      hide RefsOk, ListsOk, LifeOk, Charges;
      e := |info|;
      Fresh(refs, inCache, lru, inUse, deleted, out, |info|);
      ChargesMore(info, i, lru);
      ChargesMore(info, i, inUse);
      ChargesAppend(info + [i], inUse, e);
      info := info + [i];
      out := out[e := 1];
      if capacity > 0 {
        refs, inCache, inUse, usage := refs[e := 2], inCache + {e}, inUse + [e], usage + i.charge;
      } else {
        refs := refs[e := 1];
      }
    }

    /** Evicts idle handles, oldest first, while the cache is over its capacity. */
    method EvictExcess() returns (ghost k: nat)
      requires Valid()
      modifies this`usage, this`refs, this`inCache, this`lru, this`inUse, this`deleted, table
      ensures Valid() && (usage <= capacity || lru == [])
      ensures k == Evicted(info, old(lru), old(usage), capacity) && lru == old(lru)[k..]
      ensures inCache == old(inCache) - (set x | x in old(lru)[..k]) && deleted == old(deleted) + old(lru)[..k]
    {
      hide CountsOk, TableOk;
      k := 0;
      while usage > capacity && lru != []
        invariant Valid() && k <= |old(lru)| && lru == old(lru)[k..] && deleted == old(deleted) + old(lru)[..k]
        invariant inCache == old(inCache) - (set x | x in old(lru)[..k])
        invariant Evicted(info, old(lru), old(usage), capacity) == k + Evicted(info, lru, usage, capacity)
        decreases |lru|
      {
        EvictOldest();
        k := k + 1;
      }
    }

    /** The new handle takes the place of `replaced`, the one that had the key. */
    method Place(i: Info) returns (e: nat, ghost replaced: Option<nat>)
      requires Valid()
      modifies this`usage, this`info, this`refs, this`inCache, this`lru, this`inUse, this`deleted, this`out, table
      ensures Valid() && e == |old(info)| && info == old(info) + [i] && out == old(out)[e := 1]
      ensures replaced.Some? ==>
                capacity > 0 && replaced.value in old(inCache) && Same(ItemOf(info, replaced.value), i.key, i.hash)
      ensures capacity > 0 ==> forall id :: id in old(inCache) && Same(ItemOf(info, id), i.key, i.hash) ==>
              replaced == Some(id)
      ensures usage == UsageWith(old(usage), capacity, i.charge, info, replaced)
      ensures lru == (if replaced.Some? then Without(old(lru), replaced.value) else old(lru))
      ensures inCache == old(inCache) + (if capacity > 0 then {e} else {}) - (if replaced.Some? then {replaced.value}
              else {})
      ensures deleted == old(deleted) + (if replaced.Some?
              && Held(old(out), replaced.value) == 0 then [replaced.value] else [])
    {
      hide CountsOk;
      e := Allocate(i);
      replaced := None;
      if capacity > 0 {
        var before := table.Insert(Item(e, i.key, i.hash));
        if before.Some? {
          FinishErase(before.value);
        }
        replaced := before;
      }
    }

    /** The first `k` idle handles are evicted, no more than needed. */
    method Insert(key: string, hash: nat, value: string, charge: nat)
        returns (e: nat, ghost replaced: Option<nat>, ghost k: nat)
      requires Valid()
      modifies this`usage, this`info, this`refs, this`inCache, this`lru, this`inUse, this`deleted, this`out, table
      ensures Valid() && (usage <= capacity || lru == [])
      ensures e == |old(info)| && info == old(info) + [Info(key, hash, value, charge)] && out == old(out)[e := 1]
      ensures replaced.Some? ==>
                capacity > 0 && replaced.value in old(inCache) && Same(ItemOf(info, replaced.value), key, hash)
      ensures capacity > 0 ==> forall id :: id in old(inCache) && Same(ItemOf(info, id), key, hash) ==>
              replaced == Some(id)
      ensures var idle := if replaced.Some? then Without(old(lru), replaced.value) else old(lru);
        && k == Evicted(info, idle, UsageWith(old(usage), capacity, charge, info, replaced), capacity)
           && lru == idle[k..]
        && inCache == old(inCache) + (if capacity > 0 then {e} else {}) - (if replaced.Some? then {replaced.value}
           else {}) - (set x | x in idle[..k])
        && deleted == old(deleted) + (if replaced.Some? && Held(old(out), replaced.value) == 0 then [replaced.value]
           else []) + idle[..k]
    {
      hide CountsOk, TableOk, Evicted, Without, Held, UsageWith;
      e, replaced := Place(Info(key, hash, value, charge));
      k := EvictExcess();
    }
  }

  function UsageWith(usage: nat, capacity: nat, charge: nat, info: seq<Info>, replaced: Option<nat>): int
  {
    usage + (if capacity > 0 then charge else 0) - (if replaced.Some?
        && replaced.value < |info| then info[replaced.value].charge else 0)
  }

  lemma Fresh(refs: map<nat, nat>, inCache: set<nat>, lru: seq<nat>, inUse: seq<nat>, deleted: seq<nat>,
              out: map<nat, nat>, e: nat)
    requires ListsOk(refs, inCache, lru, inUse) && RefsOk(refs, inCache, out) && LifeOk(refs, deleted, e)
    ensures (forall id :: id in inCache ==> id < e) && (forall k :: 0 <= k < |lru| ==> lru[k] < e)
            && (forall k :: 0 <= k < |inUse| ==> inUse[k] < e)
    ensures ListsOk(refs[e := 2], inCache + {e}, lru, inUse + [e]) && ListsOk(refs[e := 1], inCache, lru, inUse)
    ensures RefsOk(refs[e := 2], inCache + {e}, out[e := 1]) && RefsOk(refs[e := 1], inCache, out[e := 1])
    ensures LifeOk(refs[e := 2], deleted, e + 1) && LifeOk(refs[e := 1], deleted, e + 1)
  {
    assert e !in refs && e !in inCache;
    forall k | 0 <= k < |lru| ensures lru[k] < e { assert lru[k] in lru; }
    forall k | 0 <= k < |inUse| ensures inUse[k] < e { assert inUse[k] in inUse; }
  }
}
