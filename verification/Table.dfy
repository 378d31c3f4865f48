/** Sorted tables: data blocks, an index of shortened separators, and filters (table/table_builder.cc,
    table/table.cc, table/format.cc). */
module Table {
  import opened Keys
  import opened Coding
  import opened Block
  import opened Bloom
  import opened FilterBlock
  import opened Separator

  /** One data block of the file and its index key. */
  datatype DataBlock = DataBlock(entries: seq<KV>, offset: nat, size: nat, sep: Bytes)

  /** The data blocks of a file, and the contents of its index and filter blocks. */
  datatype Table = Table(file: Bytes, index: Bytes, filter: Bytes)

  // ---------- block handles ----------

  function EncodeHandle(offset: nat, size: nat): (b: Bytes)
  {
    Varint(offset) + Varint(size)
  }

  lemma ShortHandleBytes(offset: nat, size: nat)
    requires offset < 128 && size < 128
    ensures EncodeHandle(offset, size) == [offset, size]
  {
    assert Varint(offset) == [offset] && Varint(size) == [size];
  }

  /** BlockHandle::DecodeFrom. */
  function DecodeHandle(b: Bytes): Option<(nat, nat)>
  {
    var o := GetVarint(b, 10);
    if o.None? || o.value.1 > |b| then None
    else
      var s := GetVarint(b[o.value.1..], 10);
      if s.None? then None else Some((o.value.0 % LIMIT64, s.value.0 % LIMIT64))
  }

  lemma HandleRoundTrip(offset: nat, size: nat)
    requires offset < LIMIT64 && size < LIMIT64
    ensures DecodeHandle(EncodeHandle(offset, size)) == Some((offset, size))
    ensures |EncodeHandle(offset, size)| <= 20
  {
    hide Varint, GetVarint;
    assert Pow128(5) == 0x8_0000_0000;
    assert Pow128(10) == 0x8_0000_0000 * 0x8_0000_0000;
    VarintRoundTrip(offset, 10, Varint(size));
    VarintRoundTrip(size, 10, []);
    assert (Varint(offset) + Varint(size))[|Varint(offset)|..] == Varint(size);
    assert Varint(size) + [] == Varint(size);
  }

  // ---------- what a table promises ----------

  ghost predicate AllBefore(a: seq<KV>, b: seq<KV>)
  {
    forall i, j :: 0 <= i < |a| && 0 <= j < |b| ==> InternalLess(a[i].key, b[j].key)
  }

  ghost predicate Ordered(blocks: seq<DataBlock>)
  {
    && (forall i :: 0 <= i < |blocks| ==> blocks[i].entries != [] && SortedKeys(InternalLess, blocks[i].entries))
    && (forall i, j :: 0 <= i < j < |blocks| ==> AllBefore(blocks[i].entries, blocks[j].entries))
  }

  function LastKey(entries: seq<KV>): Bytes
    requires entries != []
  {
    entries[|entries| - 1].key
  }

  /** The index key of a block reaches its last key, and does not reach the user key of the next block unless it
      is its last key. */
  ghost predicate SepOk(blocks: seq<DataBlock>, i: nat)
    requires i < |blocks| && blocks[i].entries != [] && (i + 1 < |blocks| ==> blocks[i + 1].entries != [])
  {
    var last, sep := LastKey(blocks[i].entries), blocks[i].sep;
    if i + 1 < |blocks| then IsSeparator(last, blocks[i + 1].entries[0].key, sep)
    else sep == last || UserLess(User(last), User(sep))
  }

  ghost predicate InTable(blocks: seq<DataBlock>, e: KV)
  {
    exists i :: 0 <= i < |blocks| && e in blocks[i].entries
  }

  /** The first entry at or after k. */
  ghost predicate IsFirst(blocks: seq<DataBlock>, k: Bytes, e: KV)
  {
    && InTable(blocks, e) && !InternalLess(e.key, k)
    && forall d :: InTable(blocks, d) && !InternalLess(d.key, k) ==> d == e || InternalLess(e.key, d.key)
  }

  ghost predicate WellIndexed(blocks: seq<DataBlock>)
  {
    Ordered(blocks) && forall i :: 0 <= i < |blocks| ==> SepOk(blocks, i)
  }

  function IndexEntry(d: DataBlock): KV
  {
    KV(d.sep, EncodeHandle(d.offset, d.size))
  }

  function IndexEntries(blocks: seq<DataBlock>): (r: seq<KV>)
    ensures |r| == |blocks|
  {
    seq(|blocks|, i requires 0 <= i < |blocks| => IndexEntry(blocks[i]))
  }

  // ---------- finding through separators ----------

  lemma LastReached(blocks: seq<DataBlock>, i: nat, p: nat)
    requires WellIndexed(blocks) && i < |blocks| && p < |blocks[i].entries|
    ensures !InternalLess(blocks[i].sep, blocks[i].entries[p].key)
  {
    var e, last, sep := blocks[i].entries[p].key, LastKey(blocks[i].entries), blocks[i].sep;
    assert SepOk(blocks, i);
    assert p < |blocks[i].entries| - 1 ==> InternalLess(e, last);
    UserOrder(User(last), User(sep), []);
    InternalOrder(e, last, sep);
    InternalOrder(last, sep, e);
    InternalOrder(sep, e, last);
  }

  /** The index keys ascend. */
  lemma SepsAscend(blocks: seq<DataBlock>)
    requires WellIndexed(blocks)
    ensures SortedKeys(InternalLess, IndexEntries(blocks))
  {
    forall i, j | 0 <= i < j < |blocks| ensures InternalLess(blocks[i].sep, blocks[j].sep) {
      assert SepOk(blocks, i) && AllBefore(blocks[i].entries, blocks[j].entries);
      var next, first := blocks[i + 1].entries[0].key, blocks[j].entries[0].key;
      assert AllBefore(blocks[i].entries, blocks[i + 1].entries);
      assert InternalLess(blocks[i].sep, next);
      assert i + 1 < j ==> AllBefore(blocks[i + 1].entries, blocks[j].entries);
      LastReached(blocks, j, 0);
      InternalOrder(blocks[i].sep, next, first);
      InternalOrder(blocks[i].sep, first, blocks[j].sep);
    }
  }

  /** Blocks before the one the index finds hold only earlier keys. */
  lemma EarlierBlocks(blocks: seq<DataBlock>, k: Bytes, i: nat, j: nat, p: nat)
    requires WellIndexed(blocks) && IsLowerBound(InternalLess, IndexEntries(blocks), k, i)
    requires j < i && p < |blocks[j].entries|
    ensures InternalLess(blocks[j].entries[p].key, k)
  {
    LastReached(blocks, j, p);
    assert InternalLess(IndexEntries(blocks)[j].key, k);
    InternalOrder(blocks[j].entries[p].key, blocks[j].sep, k);
  }

  /** An entry found in the block that the index points to is the first of the whole table. */
  lemma FoundIsFirst(blocks: seq<DataBlock>, k: Bytes, i: nat, p: nat)
    requires WellIndexed(blocks) && IsLowerBound(InternalLess, IndexEntries(blocks), k, i) && i < |blocks|
    requires IsLowerBound(InternalLess, blocks[i].entries, k, p) && p < |blocks[i].entries|
    ensures IsFirst(blocks, k, blocks[i].entries[p])
  {
    hide InternalLess;
    var e := blocks[i].entries[p];
    assert e in blocks[i].entries;
    forall d | InTable(blocks, d) && !InternalLess(d.key, k) ensures d == e || InternalLess(e.key, d.key) {
      var j, q := Place(blocks, d);
      hide IndexEntries, IsSeparator;
      if j < i { EarlierBlocks(blocks, k, i, j, q); }
      if i < j { assert AllBefore(blocks[i].entries, blocks[j].entries); }
    }
  }

  lemma Place(blocks: seq<DataBlock>, d: KV) returns (j: nat, q: nat)
    requires InTable(blocks, d)
    ensures j < |blocks| && q < |blocks[j].entries| && blocks[j].entries[q] == d
  {
    j :| 0 <= j < |blocks| && d in blocks[j].entries;
    q :| 0 <= q < |blocks[j].entries| && blocks[j].entries[q] == d;
  }

  /** When that block has nothing at or after k, no entry of k's user key is at or after k. */
  lemma NothingMissed(blocks: seq<DataBlock>, k: Bytes, i: nat, e: KV)
    requires WellIndexed(blocks) && IsLowerBound(InternalLess, IndexEntries(blocks), k, i)
    requires i < |blocks| ==> IsLowerBound(InternalLess, blocks[i].entries, k, |blocks[i].entries|)
    requires InTable(blocks, e) && !InternalLess(e.key, k)
    ensures User(e.key) != User(k)
  {
    var j, q := Place(blocks, e);
    if j < i {
      EarlierBlocks(blocks, k, i, j, q);
    } else if i < j {
      var sep, last, next := blocks[i].sep, LastKey(blocks[i].entries), blocks[i + 1].entries[0].key;
      assert SepOk(blocks, i) && !InternalLess(IndexEntries(blocks)[i].key, k) && InternalLess(last, k);
      assert i + 1 < j ==> AllBefore(blocks[i + 1].entries, blocks[j].entries);
      assert next == e.key || InternalLess(next, e.key);
      UserOrder(User(sep), User(next), User(e.key));
      UserOrder(User(k), User(sep), User(next));
    }
  }

  // ---------- the bytes ----------

  ghost predicate HoldsBlock(b: Bytes, entries: seq<KV>)
  {
    exists l :: BlockOk(b, l) && l.entries == entries
  }

  /** The block lies in the file where its handle says. */
  ghost predicate BlockIn(file: Bytes, d: DataBlock)
  {
    && d.offset + d.size <= |file| && d.offset < LIMIT64 && d.size < LIMIT64
    && HoldsBlock(file[d.offset..d.offset + d.size], d.entries)
  }

  /** InternalFilterPolicy: filters see user keys only. */
  function UserHash(hash: Hash): Hash
  {
    key => hash(User(key))
  }

  ghost predicate FilterCovers(hash: Hash, filter: Bytes, d: DataBlock)
  {
    forall e :: e in d.entries ==> BlockMayMatch(UserHash(hash), filter, d.offset, e.key)
  }

  ghost predicate TableOk(t: Table, hash: Hash, blocks: seq<DataBlock>)
  {
    && WellIndexed(blocks) && HoldsBlock(t.index, IndexEntries(blocks))
    && (forall i :: 0 <= i < |blocks| ==> BlockIn(t.file, blocks[i]) && FilterCovers(hash, t.filter, blocks[i]))
  }

  lemma SameUserMatches(hash: Hash, filter: Bytes, offset: nat, a: Bytes, b: Bytes)
    requires User(a) == User(b) && BlockMayMatch(UserHash(hash), filter, offset, a)
    ensures BlockMayMatch(UserHash(hash), filter, offset, b)
  {}

  /** Opens a block, seeks, and reads the entry there. */
  method SeekBlock(b: Bytes, k: Bytes, ghost entries: seq<KV>) returns (r: Option<KV>, ghost pos: nat)
    requires HoldsBlock(b, entries) && SortedKeys(InternalLess, entries)
    ensures IsLowerBound(InternalLess, entries, k, pos) && r == if pos < |entries| then Some(entries[pos]) else None
  {
    ghost var l :| BlockOk(b, l) && l.entries == entries;
    ghost var data, restarts :| IsBlock(b, l, data, restarts);
    OpenBlockOk(b, l, data, restarts);
    BlockReadable(b, l, data, restarts);
    LessTransitive();
    hide BlockOk, IsBlock, Readable, OpenBlock, InternalLess, GetRestartPoint;
    var trailer := OpenBlock(b).value;
    var it := new Iter(b, trailer.0, trailer.1, InternalLess, l);
    pos := it.Seek(k);
    NextReady(b, l, trailer.0, trailer.1, pos, |entries|);
    EndIs(b, l, trailer.0, trailer.1);
    r := if it.Valid() then Some(KV(it.key, b[it.valueStart..it.NextEntryOffset()])) else None;
  }

  lemma EndIs(b: Bytes, l: Layout, limit: nat, num: nat)
    requires Readable(b, l, limit, num)
    ensures |l.offsets| == |l.entries| + 1 && l.offsets[|l.entries|] == limit
  {}

  lemma LessTransitive()
    ensures Transitive(InternalLess)
  {
    forall a, b, c | InternalLess(a, b) && InternalLess(b, c) ensures InternalLess(a, c) { InternalOrder(a, b, c); }
  }

  lemma OrderedBlock(blocks: seq<DataBlock>, i: nat)
    requires WellIndexed(blocks) && i < |blocks|
    ensures SortedKeys(InternalLess, blocks[i].entries)
  {}

  lemma OneFirst(blocks: seq<DataBlock>, k: Bytes, e: KV, f: KV)
    requires IsFirst(blocks, k, e) && IsFirst(blocks, k, f)
    ensures e == f
  {
    InternalOrder(e.key, f.key, e.key);
  }

  /** What the position found in the index and then in its block means for the whole table. */
  lemma Answer(blocks: seq<DataBlock>, k: Bytes, i: nat, p: nat)
    requires WellIndexed(blocks) && IsLowerBound(InternalLess, IndexEntries(blocks), k, i)
    requires i < |blocks| ==> IsLowerBound(InternalLess, blocks[i].entries, k, p)
    ensures i < |blocks| && p < |blocks[i].entries| ==> IsFirst(blocks, k, blocks[i].entries[p])
    ensures forall e :: IsFirst(blocks, k, e) && User(e.key) == User(k) ==>
              i < |blocks| && p < |blocks[i].entries| && e == blocks[i].entries[p]
  {
    if i < |blocks| && p < |blocks[i].entries| {
      FoundIsFirst(blocks, k, i, p);
      forall e | IsFirst(blocks, k, e) ensures e == blocks[i].entries[p] {
        OneFirst(blocks, k, e, blocks[i].entries[p]);
      }
    } else {
      forall e | IsFirst(blocks, k, e) ensures User(e.key) != User(k) { NothingMissed(blocks, k, i, e); }
    }
  }

  lemma {:induction false} LowerBoundExists(entries: seq<KV>, k: Bytes, n: nat) returns (p: nat)
    requires n <= |entries| && forall i :: 0 <= i < n ==> InternalLess(entries[i].key, k)
    ensures IsLowerBound(InternalLess, entries, k, p)
    decreases |entries| - n
  {
    if n < |entries| && InternalLess(entries[n].key, k) {
      p := LowerBoundExists(entries, k, n + 1);
    } else {
      p := n;
    }
  }

  /** A filter that rejects k hides no entry of its user key. */
  lemma NotFiltered(t: Table, hash: Hash, blocks: seq<DataBlock>, k: Bytes, i: nat)
    requires TableOk(t, hash, blocks) && IsLowerBound(InternalLess, IndexEntries(blocks), k, i) && i < |blocks|
    requires !BlockMayMatch(UserHash(hash), t.filter, blocks[i].offset, k)
    ensures forall e :: IsFirst(blocks, k, e) ==> User(e.key) != User(k)
  {
    var p := LowerBoundExists(blocks[i].entries, k, 0);
    Answer(blocks, k, i, p);
    hide WellIndexed, HoldsBlock, BlockMayMatch, IsFirst;
    forall e | IsFirst(blocks, k, e) ensures User(e.key) != User(k) {
      if User(e.key) == User(k) {
        assert e in blocks[i].entries && FilterCovers(hash, t.filter, blocks[i]);
        SameUserMatches(hash, t.filter, blocks[i].offset, e.key, k);
      }
    }
  }

  /** Table::InternalGet never misses: when the first entry at or after k has k's user key it is delivered, and
      whatever is delivered is the first entry at or after k. */
  method InternalGet(t: Table, hash: Hash, k: Bytes, ghost blocks: seq<DataBlock>) returns (r: Option<KV>)
    requires TableOk(t, hash, blocks)
    ensures r.Some? ==> IsFirst(blocks, k, r.value)
    ensures forall e :: IsFirst(blocks, k, e) && User(e.key) == User(k) ==> r == Some(e)
  {
    SepsAscend(blocks);
    hide WellIndexed, HoldsBlock, FilterCovers, BlockMayMatch, IsLowerBound;
    var found, i := SeekBlock(t.index, k, IndexEntries(blocks));
    if found.Some? {
      ghost var d := blocks[i];
      HandleRoundTrip(d.offset, d.size);
      var handle := DecodeHandle(found.value.value).value;
      var may := BlockKeyMayMatch(UserHash(hash), t.filter, handle.0, k);
      OrderedBlock(blocks, i);
      ghost var p;
      if may {
        r, p := SeekBlock(t.file[handle.0..handle.0 + handle.1], k, d.entries);
        Answer(blocks, k, i, p);
      } else {
        NotFiltered(t, hash, blocks, k, i);
        return None;
      }
    } else {
      Answer(blocks, k, i, 0);
      return None;
    }
  }

  // ---------- building: order and separators ----------

  function Retitled(blocks: seq<DataBlock>, sep: Bytes): seq<DataBlock>
    requires blocks != []
  {
    blocks[|blocks| - 1 := blocks[|blocks| - 1].(sep := sep)]
  }

  /** First key after block i, in the next block or in the one being built. */
  ghost predicate SepSoFar(blocks: seq<DataBlock>, cur: seq<KV>, i: nat)
    requires i < |blocks| && blocks[i].entries != [] && (i + 1 < |blocks| ==> blocks[i + 1].entries != [])
  {
    if i + 1 < |blocks| then IsSeparator(LastKey(blocks[i].entries), blocks[i + 1].entries[0].key, blocks[i].sep)
    else cur != [] && IsSeparator(LastKey(blocks[i].entries), cur[0].key, blocks[i].sep)
  }

  ghost predicate LastIs(blocks: seq<DataBlock>, cur: seq<KV>, last: Bytes)
    requires forall i :: 0 <= i < |blocks| ==> blocks[i].entries != []
  {
    if cur != [] then last == LastKey(cur) else blocks != [] ==> last == LastKey(blocks[|blocks| - 1].entries)
  }

  /** The blocks written so far, the last of them without its index key when `pending`, and the block being built. */
  ghost predicate Growing(blocks: seq<DataBlock>, pending: bool, cur: seq<KV>, last: Bytes)
  {
    && Ordered(blocks) && SortedKeys(InternalLess, cur) && LastIs(blocks, cur, last)
    && (forall i :: 0 <= i < |blocks| ==> AllBefore(blocks[i].entries, cur))
    && (pending ==> blocks != [] && cur == [])
    && (forall i :: 0 <= i < |blocks| - (if pending then 1 else 0) ==> SepSoFar(blocks, cur, i))
  }

  lemma NotPending(blocks: seq<DataBlock>, pending: bool, cur: seq<KV>, last: Bytes)
    requires Growing(blocks, pending, cur, last)
    ensures cur != [] ==> !pending
  {}

  lemma LastIsLast(blocks: seq<DataBlock>, pending: bool, cur: seq<KV>, last: Bytes, key: Bytes)
    requires Growing(blocks, pending, cur, last) && ((blocks == [] && cur == []) || InternalLess(last, key))
    ensures forall i :: 0 <= i < |cur| ==> InternalLess(cur[i].key, key)
    ensures forall i, p :: 0 <= i < |blocks| && 0 <= p < |blocks[i].entries| ==>
            InternalLess(blocks[i].entries[p].key, key)
  {
    forall i | 0 <= i < |cur| ensures InternalLess(cur[i].key, key) { InternalOrder(cur[i].key, last, key); }
    forall i, p | 0 <= i < |blocks| && 0 <= p < |blocks[i].entries|
      ensures InternalLess(blocks[i].entries[p].key, key) {
      var e := blocks[i].entries[p].key;
      assert AllBefore(blocks[i].entries, cur);
      assert i < |blocks| - 1 ==> AllBefore(blocks[i].entries, blocks[|blocks| - 1].entries);
      InternalOrder(e, last, key);
    }
  }

  lemma AddOrdered(blocks: seq<DataBlock>, pending: bool, cur: seq<KV>, last: Bytes, e: KV)
    requires Growing(blocks, pending, cur, last) && ((blocks == [] && cur == []) || InternalLess(last, e.key))
    ensures SortedKeys(InternalLess, cur + [e])
    ensures forall i :: 0 <= i < |blocks| ==> AllBefore(blocks[i].entries, cur + [e])
  {
    LastIsLast(blocks, pending, cur, last, e.key);
    hide InternalLess;
    forall i | 0 <= i < |blocks| ensures AllBefore(blocks[i].entries, cur + [e]) {
      assert AllBefore(blocks[i].entries, cur);
    }
  }

  lemma RetitledOrdered(blocks: seq<DataBlock>, sep: Bytes)
    requires Ordered(blocks) && blocks != []
    ensures Ordered(Retitled(blocks, sep))
  {}

  /** One more entry; a pending block gets its separator first. */
  lemma AddGrows(blocks: seq<DataBlock>, pending: bool, cur: seq<KV>, last: Bytes, e: KV, sep: Bytes)
    requires Growing(blocks, pending, cur, last) && ((blocks == [] && cur == []) || InternalLess(last, e.key))
    requires pending ==> IsSeparator(last, e.key, sep)
    requires pending || cur != [] || blocks == []
    ensures Growing(if pending then Retitled(blocks, sep) else blocks, false, cur + [e], e.key)
  {
    hide InternalLess, IsSeparator, AllBefore, SortedKeys, Ordered, SepSoFar;
    AddOrdered(blocks, pending, cur, last, e);
    NonEmpty(blocks);
    if pending { RetitledOrdered(blocks, sep); }
    var more, next := if pending then Retitled(blocks, sep) else blocks, cur + [e];
    forall i | 0 <= i < |more| ensures SepSoFar(more, next, i) {
      if pending && i == |blocks| - 1 { assert next == [e]; SepOfLast(blocks, last, e, sep); } else {
        SepSame(blocks, more, cur, next, i);
      }
    }
  }

  lemma SepOfLast(blocks: seq<DataBlock>, last: Bytes, e: KV, sep: Bytes)
    requires blocks != [] && blocks[|blocks| - 1].entries != [] && last == LastKey(blocks[|blocks| - 1].entries)
    requires IsSeparator(last, e.key, sep)
    ensures SepSoFar(Retitled(blocks, sep), [e], |blocks| - 1)
  {}

  lemma SepSame(blocks: seq<DataBlock>, more: seq<DataBlock>, cur: seq<KV>, next: seq<KV>, i: nat)
    requires i < |blocks| && blocks[i].entries != [] && (i + 1 < |blocks| ==> blocks[i + 1].entries != [])
    requires |more| == |blocks| && more[i] == blocks[i]
             && (i + 1 < |blocks| ==> more[i + 1].entries == blocks[i + 1].entries)
    requires SepSoFar(blocks, cur, i) && (cur != [] ==> next != [] && next[0] == cur[0])
    ensures SepSoFar(more, next, i)
  {}

  lemma NonEmpty(blocks: seq<DataBlock>)
    requires Ordered(blocks)
    ensures forall i :: 0 <= i < |blocks| ==> blocks[i].entries != []
  {}

  lemma FlushGrows(blocks: seq<DataBlock>, cur: seq<KV>, last: Bytes, offset: nat, size: nat)
    requires Growing(blocks, false, cur, last) && cur != []
    ensures Growing(blocks + [DataBlock(cur, offset, size, last)], true, [], last)
  {
    var more := blocks + [DataBlock(cur, offset, size, last)];
    hide InternalLess, IsSeparator, AllBefore;
    assert AllBefore(cur, []) && forall i :: 0 <= i < |blocks| ==> AllBefore(blocks[i].entries, []) by { NoneAfter(); }
    forall i | 0 <= i < |more| - 1 ensures SepSoFar(more, [], i) { assert SepSoFar(blocks, cur, i); }
  }

  lemma NoneAfter()
    ensures forall a :: AllBefore(a, [])
  {}

  lemma FinishGrows(blocks: seq<DataBlock>, pending: bool, last: Bytes, sep: Bytes)
    requires Growing(blocks, pending, [], last) && (pending || blocks == [])
    requires sep == last || UserLess(User(last), User(sep))
    ensures WellIndexed(if pending then Retitled(blocks, sep) else blocks)
  {
    if pending {
      var more := Retitled(blocks, sep);
      RetitledOrdered(blocks, sep);
      hide InternalLess, AllBefore;
      forall i | 0 <= i < |more| ensures SepOk(more, i) {
        if i < |blocks| - 1 { assert SepSoFar(blocks, [], i); }
      }
    }
  }

  function Flat(blocks: seq<DataBlock>): seq<KV>
  {
    if blocks == [] then [] else Flat(blocks[..|blocks| - 1]) + blocks[|blocks| - 1].entries
  }

  lemma FlatRetitled(blocks: seq<DataBlock>, sep: Bytes)
    requires blocks != []
    ensures Flat(Retitled(blocks, sep)) == Flat(blocks)
  {}

  lemma {:induction false} FlatHas(blocks: seq<DataBlock>, e: KV)
    ensures e in Flat(blocks) <==> InTable(blocks, e)
  {
    if blocks != [] {
      var n := |blocks| - 1;
      FlatHas(blocks[..n], e);
      if InTable(blocks[..n], e) {
        var i :| 0 <= i < n && e in blocks[..n][i].entries;
        assert e in blocks[i].entries;
      }
      if InTable(blocks, e) {
        var i :| 0 <= i < |blocks| && e in blocks[i].entries;
        assert i < n ==> e in blocks[..n][i].entries;
      }
      if e in blocks[n].entries { assert InTable(blocks, e); }
    }
  }

  // ---------- building: bytes ----------

  ghost predicate Stored(file: Bytes, blocks: seq<DataBlock>)
  {
    forall i :: 0 <= i < |blocks| ==> BlockIn(file, blocks[i])
  }

  lemma StoredMore(file: Bytes, blocks: seq<DataBlock>, raw: Bytes, tail: Bytes, cur: seq<KV>, last: Bytes)
    requires Stored(file, blocks) && HoldsBlock(raw, cur) && |file| < LIMIT64
    ensures Stored(file + raw + tail, blocks + [DataBlock(cur, |file|, |raw|, last)])
  {
    var more, d := file + raw + tail, DataBlock(cur, |file|, |raw|, last);
    RawSize(raw, cur);
    hide HoldsBlock;
    assert more[|file|..|file| + |raw|] == raw;
    forall i | 0 <= i < |blocks| ensures BlockIn(more, blocks[i]) {
      var b := blocks[i];
      assert BlockIn(file, b) && more[b.offset..b.offset + b.size] == file[b.offset..b.offset + b.size];
    }
  }

  lemma RawSize(raw: Bytes, cur: seq<KV>)
    requires HoldsBlock(raw, cur)
    ensures |raw| < LIMIT64
  {}

  lemma IndexGrows(file: Bytes, blocks: seq<DataBlock>, sep: Bytes)
    requires Stored(file, blocks) && blocks != []
    ensures var n := |blocks| - 1; var d := blocks[n];
      && IndexEntries(Retitled(blocks, sep)) == IndexEntries(blocks[..n]) + [KV(sep, EncodeHandle(d.offset, d.size))]
      && |EncodeHandle(d.offset, d.size)| <= 20 && Stored(file, Retitled(blocks, sep))
  {
    var n, more := |blocks| - 1, Retitled(blocks, sep);
    assert BlockIn(file, blocks[n]);
    HandleRoundTrip(blocks[n].offset, blocks[n].size);
    hide HoldsBlock, EncodeHandle;
    forall i | 0 <= i < |more| ensures BlockIn(file, more[i]) { assert BlockIn(file, blocks[i]); }
    assert IndexEntries(more) == IndexEntries(blocks[..n]) + [IndexEntry(more[n])];
  }

  /** The type byte and the masked checksum after each block; blocks are stored uncompressed. */
  function BlockTrailer(step: Crc, raw: Bytes): Bytes
  {
    [0] + Fixed32(Mask(Extend(step, Extend(step, 0, raw), [0])))
  }

  /** What ReadBlock checks of a block in the file: stored as it is, and the checksum fits. */
  ghost predicate Checked(step: Crc, file: Bytes, d: DataBlock)
  {
    var end := d.offset + d.size;
    && end + 5 <= |file| && file[end] == 0
    && Unmask(DecodeFixed32(file[end + 1..])) == Extend(step, 0, file[d.offset..end + 1])
  }

  ghost predicate AllChecked(step: Crc, file: Bytes, blocks: seq<DataBlock>)
  {
    forall i :: 0 <= i < |blocks| ==> Checked(step, file, blocks[i])
  }

  lemma TrailerChecks(step: Crc, file: Bytes, raw: Bytes, d: DataBlock)
    requires d.offset == |file| && d.size == |raw|
    ensures Checked(step, file + raw + BlockTrailer(step, raw), d)
  {
    var tail := BlockTrailer(step, raw);
    var all, crc := file + raw + tail, Extend(step, Extend(step, 0, raw), [0]);
    var end := |file| + |raw|;
    hide Fixed32, DecodeFixed32, Mask, Unmask;
    assert all[end..] == tail && tail[1..] == Fixed32(Mask(crc)) + [];
    assert all[end + 1..] == all[end..][1..];
    assert all[|file|..end + 1] == raw + [0];
    ExtendConcat(step, 0, raw, [0]);
    hide Extend;
    Fixed32RoundTrip(Mask(crc), []);
    MaskRoundTrip(crc);
  }

  lemma CheckedStays(step: Crc, file: Bytes, more: Bytes, d: DataBlock)
    requires Checked(step, file, d)
    ensures Checked(step, file + more, d)
  {
    var end := d.offset + d.size;
    assert (file + more)[d.offset..end + 1] == file[d.offset..end + 1];
    assert (file + more)[end + 1..][..4] == file[end + 1..][..4];
    WordPrefix((file + more)[end + 1..], file[end + 1..]);
    hide Extend, Unmask, DecodeFixed32;
  }

  lemma WordPrefix(a: Bytes, b: Bytes)
    requires |a| >= 4 && |b| >= 4 && a[..4] == b[..4]
    ensures DecodeFixed32(a) == DecodeFixed32(b)
  {
    assert forall i :: 0 <= i < 4 ==> a[i] == a[..4][i] && b[i] == b[..4][i];
  }

  lemma CheckedMore(step: Crc, file: Bytes, blocks: seq<DataBlock>, raw: Bytes, d: DataBlock)
    requires AllChecked(step, file, blocks) && d.offset == |file| && d.size == |raw|
    ensures AllChecked(step, file + raw + BlockTrailer(step, raw), blocks + [d])
  {
    hide Checked;
    var tail := BlockTrailer(step, raw);
    TrailerChecks(step, file, raw, d);
    assert file + (raw + tail) == file + raw + tail;
    forall i | 0 <= i < |blocks| ensures Checked(step, file + raw + tail, blocks[i]) {
      CheckedStays(step, file, raw + tail, blocks[i]);
    }
  }

  lemma CheckedSame(step: Crc, file: Bytes, a: seq<DataBlock>, b: seq<DataBlock>)
    requires AllChecked(step, file, b) && SameEntries(a, b)
    ensures AllChecked(step, file, a)
  {
    forall i | 0 <= i < |a| ensures Checked(step, file, a[i]) {
      assert Checked(step, file, b[i]);
      hide Extend, DecodeFixed32, Unmask;
    }
  }

  lemma BufferEmpty(b: BlockBuilder)
    requires b.Valid()
    ensures b.buffer == [] <==> b.layout.entries == []
  {
    OffsetsGrow(b.layout, b.buffer, 0, |b.layout.entries|);
  }

  function KeysOf(entries: seq<KV>): (r: seq<Bytes>)
    ensures |r| == |entries| && forall i :: 0 <= i < |entries| ==> r[i] == entries[i].key
  {
    seq(|entries|, i requires 0 <= i < |entries| => entries[i].key)
  }

  /** The keys of a block that begins in the range of filter number i. */
  function InRange(entries: seq<KV>, offset: nat, i: nat): seq<Bytes>
  {
    if offset / 2048 == i then KeysOf(entries) else []
  }

  /** The keys of all blocks that begin in that range. */
  function RangeKeys(blocks: seq<DataBlock>, i: nat): seq<Bytes>
  {
    if blocks == [] then []
    else
      var d := blocks[|blocks| - 1];
      RangeKeys(blocks[..|blocks| - 1], i) + InRange(d.entries, d.offset, i)
  }

  /** Each filter is made of exactly the keys of the blocks in its range; the block being built will start at
      `offset`. */
  ghost predicate Registered(f: FilterBlockBuilder, blocks: seq<DataBlock>, cur: seq<KV>, offset: nat)
    reads f
  {
    forall i: nat :: f.KeysAt(i) == RangeKeys(blocks, i) + InRange(cur, offset, i)
  }

  lemma RegisteredMore(f: FilterBlockBuilder, blocks: seq<DataBlock>, d: DataBlock, next: nat)
    requires Registered(f, blocks, d.entries, d.offset)
    ensures Registered(f, blocks + [d], [], next)
  {
    assert (blocks + [d])[..|blocks|] == blocks;
    hide KeysOf;
  }

  lemma InRangeMore(blocks: seq<DataBlock>, cur: seq<KV>, e: KV, offset: nat, i: nat)
    ensures RangeKeys(blocks, i) + InRange(cur + [e], offset, i)
            == RangeKeys(blocks, i) + InRange(cur, offset, i) + (if i == offset / 2048 then [e.key] else [])
  {
    assert KeysOf(cur + [e]) == KeysOf(cur) + [e.key];
  }

  lemma {:induction false} SameRange(a: seq<DataBlock>, b: seq<DataBlock>, i: nat)
    requires SameEntries(a, b)
    ensures RangeKeys(a, i) == RangeKeys(b, i)
  {
    if a != [] {
      var n := |a| - 1;
      assert SameEntries(a[..n], b[..n]);
      SameRange(a[..n], b[..n], i);
    }
  }

  lemma SameRegistered(f: FilterBlockBuilder, a: seq<DataBlock>, b: seq<DataBlock>, cur: seq<KV>, offset: nat)
    requires SameEntries(a, b) && Registered(f, b, cur, offset)
    ensures Registered(f, a, cur, offset) && |a| == |b|
  {
    forall i: nat ensures RangeKeys(a, i) == RangeKeys(b, i) { SameRange(a, b, i); }
  }

  lemma {:induction false} RangeHas(blocks: seq<DataBlock>, n: nat)
    requires n < |blocks|
    ensures forall e :: e in blocks[n].entries ==> e.key in RangeKeys(blocks, blocks[n].offset / 2048)
  {
    var m := |blocks| - 1;
    if n < m {
      RangeHas(blocks[..m], n);
    } else {
      var d := blocks[n];
      forall e | e in d.entries ensures e.key in InRange(d.entries, d.offset, d.offset / 2048) {
        var j :| 0 <= j < |d.entries| && d.entries[j] == e;
        assert KeysOf(d.entries)[j] == e.key;
      }
    }
  }

  lemma ExactCovers(p: Policy, hash: Hash, filter: Bytes, blocks: seq<DataBlock>)
    requires FilterExact(p, filter, blocks) && p.hash == UserHash(hash)
    ensures forall i :: 0 <= i < |blocks| ==> FilterCovers(hash, filter, blocks[i])
  {
    hide BlockMayMatch, CoveredBy, RangeKeys;
    forall i | 0 <= i < |blocks| ensures FilterCovers(hash, filter, blocks[i]) {
      RangeHas(blocks, i);
      CoversItself(p, RangeKeys(blocks, blocks[i].offset / 2048));
    }
  }

  /** For the blocks of the table the filters say yes exactly to the keys that those of the same range cover. */
  ghost predicate FilterExact(p: Policy, filter: Bytes, blocks: seq<DataBlock>)
  {
    forall i, key :: 0 <= i < |blocks| ==>
      (BlockMayMatch(p.hash, filter, blocks[i].offset, key) <==>
        CoveredBy(p, RangeKeys(blocks, blocks[i].offset / 2048), key))
  }

  lemma OffsetGrows(a: nat, b: nat)
    requires a <= b
    ensures a / BASE <= b / BASE
  {}

  ghost predicate SameEntries(a: seq<DataBlock>, b: seq<DataBlock>)
  {
    && |a| == |b|
    && forall i :: 0 <= i < |a| ==>
         a[i].entries == b[i].entries && a[i].offset == b[i].offset && a[i].size == b[i].size
  }

  lemma StoredCovered(t: Table, hash: Hash, was: seq<DataBlock>, blocks: seq<DataBlock>)
    requires Stored(t.file, blocks) && SameEntries(blocks, was) && WellIndexed(blocks)
             && HoldsBlock(t.index, IndexEntries(blocks))
    requires |t.filter| < LIMIT ==> forall i :: 0 <= i < |was| ==> FilterCovers(hash, t.filter, was[i])
    ensures |t.filter| < LIMIT ==> TableOk(t, hash, blocks)
  {}

  lemma ExactSame(p: Policy, filter: Bytes, a: seq<DataBlock>, b: seq<DataBlock>)
    requires FilterExact(p, filter, b) && SameEntries(a, b)
    ensures FilterExact(p, filter, a)
  {
    forall i: nat ensures RangeKeys(a, i) == RangeKeys(b, i) { SameRange(a, b, i); }
    hide RangeKeys, BlockMayMatch, CoveredBy;
  }

  class TableBuilder {
    const hash: Hash
    const step: Crc
    const blockSize: nat
    const dataBlock: BlockBuilder
    const indexBlock: BlockBuilder
    const filterBlock: FilterBlockBuilder
    var file: Bytes
    var lastKey: Bytes
    var numEntries: nat
    var pendingIndexEntry: bool
    var pendingHandle: (nat, nat)
    ghost var blocks: seq<DataBlock>

    ghost function Current(): seq<KV>
      reads dataBlock
    {
      dataBlock.layout.entries
    }

    /** BlockBuilder::CurrentSizeEstimate: the size of the block if it were finished now. */
    function EstimatedSize(): nat
      reads dataBlock
    {
      |dataBlock.buffer| + 4 * |dataBlock.restarts| + 4
    }

    ghost function FilterPolicy(): Policy
    {
      Policy(UserHash(hash), filterBlock.bitsPerKey, filterBlock.k)
    }

    ghost predicate IndexOk()
      reads this, indexBlock
    {
      && indexBlock.Valid()
      && (pendingIndexEntry ==>
            blocks != [] && pendingHandle == (blocks[|blocks| - 1].offset, blocks[|blocks| - 1].size))
      && indexBlock.layout.entries == IndexEntries(if pendingIndexEntry && blocks != [] then blocks[..|blocks| - 1]
         else blocks)
    }

    ghost predicate FiltersKnow()
      reads this, filterBlock, dataBlock
    {
      && filterBlock.Valid() && filterBlock.hash == UserHash(hash) && |filterBlock.filterOffsets| == |file| / BASE
      && Registered(filterBlock, blocks, Current(), |file|)
    }

    ghost predicate OrderOk()
      reads this, dataBlock
    {
      && Growing(blocks, pendingIndexEntry, Current(), lastKey)
      && (pendingIndexEntry || Current() != [] || blocks == [])
          && (numEntries == 0 <==> blocks == [] && Current() == [])
    }

    ghost predicate DataOk()
      reads this, dataBlock
    {
      dataBlock.Valid() && Stored(file, blocks) && AllChecked(step, file, blocks)
    }

    ghost predicate Valid()
      reads this, dataBlock, indexBlock, filterBlock
    {
      dataBlock != indexBlock && IndexOk() && FiltersKnow() && OrderOk() && DataOk()
    }

    constructor (hash: Hash, step: Crc, blockSize: nat, interval: nat, bitsPerKey: nat, k: Byte)
      requires interval >= 1 && 1 <= k <= 30
      ensures Valid() && blocks == [] && Current() == [] && numEntries == 0 && dataBlock.buffer == []
      ensures this.blockSize == blockSize && this.hash == hash
      ensures fresh(dataBlock) && fresh(indexBlock) && fresh(filterBlock)
    {
      this.hash, this.step, this.blockSize := hash, step, blockSize;
      dataBlock := new BlockBuilder(interval);
      indexBlock := new BlockBuilder(1);
      filterBlock := new FilterBlockBuilder(UserHash(hash), bitsPerKey, k);
      file, lastKey, numEntries, pendingIndexEntry, pendingHandle, blocks := [], [], 0, false, (0, 0), [];
      new;
      filterBlock.StartBlock(0);
    }

    /** Gives the pending block its index key. */
    method AddIndexEntry(sep: Bytes)
      requires IndexOk() && pendingIndexEntry && Stored(file, blocks) && |indexBlock.buffer| + |sep| + 35 < LIMIT
      modifies this`pendingIndexEntry, this`blocks, indexBlock
      ensures IndexOk() && !pendingIndexEntry && blocks == Retitled(old(blocks), sep) && Stored(file, blocks)
    {
      hide HoldsBlock, EncodeHandle, LayoutOk, Stored, IndexEntries;
      IndexGrows(file, blocks, sep);
      indexBlock.Add(sep, EncodeHandle(pendingHandle.0, pendingHandle.1));
      blocks := Retitled(blocks, sep);
      pendingIndexEntry := false;
    }

    /** Writes the block being built. */
    method Flush()
      requires Valid() && |file| < LIMIT64
      modifies this`file, this`pendingIndexEntry, this`pendingHandle, this`blocks, dataBlock, filterBlock
      ensures Valid() && Current() == [] && |dataBlock.buffer| == 0 && Flat(blocks) == old(Flat(blocks) + Current())
      ensures old(Current()) == [] ==> blocks == old(blocks) && pendingIndexEntry == old(pendingIndexEntry)
      ensures old(Current()) != [] ==>
                && pendingIndexEntry && |blocks| == |old(blocks)| + 1 && blocks[..|old(blocks)|] == old(blocks)
                && blocks[|old(blocks)|].entries == old(Current()) && blocks[|old(blocks)|].size == old(EstimatedSize())
    {
      hide Growing, Stored, IndexEntries, Registered, LayoutOk, AllChecked;
      BufferEmpty(dataBlock);
      NotPending(blocks, pendingIndexEntry, Current(), lastKey);
      if dataBlock.buffer == [] {
        return;
      }
      ghost var cur := Current();
      var raw := dataBlock.Finish();
      WriteBlock(raw, cur);
    }

    /** Appends a finished block and its trailer, and starts the next one. */
    method WriteBlock(raw: Bytes, ghost cur: seq<KV>)
      requires dataBlock != indexBlock && IndexOk() && FiltersKnow() && Stored(file, blocks) && OrderOk()
      requires AllChecked(step, file, blocks)
      requires HoldsBlock(raw, cur) && cur == Current() != [] && !pendingIndexEntry && |file| < LIMIT64
               && dataBlock.interval >= 1
      modifies this`file, this`pendingIndexEntry, this`pendingHandle, this`blocks, dataBlock, filterBlock
      ensures Valid() && Current() == [] && dataBlock.buffer == [] && pendingIndexEntry
      ensures blocks == old(blocks) + [DataBlock(cur, |old(file)|, |raw|, lastKey)]
    {
      hide Growing, Stored, HoldsBlock, LayoutOk, IndexEntries, BlockTrailer, FiltersOk, PendingOk, Registered,
           AllChecked;
      var tail := BlockTrailer(step, raw);
      StoredMore(file, blocks, raw, tail, cur, lastKey);
      FlushGrows(blocks, cur, lastKey, |file|, |raw|);
      ghost var d := DataBlock(cur, |file|, |raw|, lastKey);
      CheckedMore(step, file, blocks, raw, d);
      assert (blocks + [d])[..|blocks|] == blocks;
      pendingHandle := (|file|, |raw|);
      blocks := blocks + [d];
      file := file + raw + tail;
      pendingIndexEntry := true;
      RegisteredMore(filterBlock, old(blocks), d, |file|);
      OffsetGrows(|old(file)|, |file|);
      dataBlock.Reset();
      StartFilter();
    }

    method StartFilter()
      requires filterBlock.Valid() && |filterBlock.filterOffsets| <= |file| / BASE
               && Registered(filterBlock, blocks, [], |file|)
      modifies filterBlock
      ensures filterBlock.Valid() && |filterBlock.filterOffsets| == |file| / BASE
              && Registered(filterBlock, blocks, [], |file|)
    {
      hide FiltersOk, PendingOk, RangeKeys, InRange;
      filterBlock.StartBlock(|file|);
    }

    /** Indexes the pending block now that the next key is known. */
    method Separate(ghost e: KV, key: Bytes)
      requires IndexOk() && OrderOk() && Stored(file, blocks) && dataBlock != indexBlock && key == e.key
      requires (numEntries > 0 ==> InternalLess(lastKey, key)) && |indexBlock.buffer| + |lastKey| + 43 < LIMIT
      modifies this`pendingIndexEntry, this`blocks, indexBlock
      ensures IndexOk() && !pendingIndexEntry && Stored(file, blocks) && Growing(blocks, false, Current() + [e], key)
      ensures SameEntries(blocks, old(blocks)) && Flat(blocks) == old(Flat(blocks))
    {
      hide Growing, Stored, LayoutOk, IndexEntries, IsSeparator, InternalLess;
      var sep := lastKey;
      if pendingIndexEntry {
        sep := InternalSeparator(lastKey, key);
        FlatRetitled(blocks, sep);
      }
      AddGrows(blocks, pendingIndexEntry, Current(), lastKey, e, sep);
      if pendingIndexEntry {
        AddIndexEntry(sep);
      }
    }

    method RegisterKey(ghost e: KV, key: Bytes)
      requires filterBlock.Valid() && Registered(filterBlock, blocks, Current(), |file|) && key == e.key
      requires |filterBlock.filterOffsets| == |file| / BASE
      modifies filterBlock
      ensures filterBlock.Valid() && Registered(filterBlock, blocks, Current() + [e], |file|)
      ensures filterBlock.filterOffsets == old(filterBlock.filterOffsets)
    {
      hide FiltersOk, PendingOk, RangeKeys, InRange;
      filterBlock.AddKey(key);
      forall i: nat ensures filterBlock.KeysAt(i) == RangeKeys(blocks, i) + InRange(Current() + [e], |file|, i) {
        InRangeMore(blocks, Current(), e, |file|, i);
      }
    }

    /** The pending index entry, the filter, and the block being built. */
    method AddEntry(key: Bytes, value: Bytes)
      requires Valid() && (numEntries > 0 ==> InternalLess(lastKey, key))
      requires |dataBlock.buffer| + |key| + |value| + 15 < LIMIT && |indexBlock.buffer| + |lastKey| + 43 < LIMIT
      modifies this`lastKey, this`numEntries, this`pendingIndexEntry, this`blocks, dataBlock, indexBlock, filterBlock
      ensures Valid() && lastKey == key && numEntries > 0 && !pendingIndexEntry
      ensures Flat(blocks) == old(Flat(blocks)) && Current() == old(Current()) + [KV(key, value)]
      ensures |blocks| == |old(blocks)|
      ensures |dataBlock.buffer| <= |old(dataBlock.buffer)| + |key| + |value| + 15
    {
      hide Growing, Stored, LayoutOk, FiltersOk, PendingOk, IndexEntries, Registered, Flat, InternalLess, AllChecked,
           Compressed, SameEntries;
      ghost var e := KV(key, value);
      Separate(e, key);
      CheckedSame(step, file, blocks, old(blocks));
      SameRegistered(filterBlock, blocks, old(blocks), Current(), |file|);
      RegisterKey(e, key);
      lastKey := key;
      numEntries := numEntries + 1;
      dataBlock.Add(key, value);
    }

    method Add(key: Bytes, value: Bytes)
      requires Valid() && (numEntries > 0 ==> InternalLess(lastKey, key)) && |dataBlock.buffer| <= blockSize
               && |file| < LIMIT64
      requires blockSize + |key| + |value| + 15 < LIMIT && |indexBlock.buffer| + |lastKey| + 43 < LIMIT
      modifies this, dataBlock, indexBlock, filterBlock
      ensures Valid() && lastKey == key && numEntries > 0 && |dataBlock.buffer| <= blockSize
      ensures Flat(blocks) + Current() == old(Flat(blocks) + Current()) + [KV(key, value)]
      ensures if Current() == [] then |blocks| == |old(blocks)| + 1 && blocks[|old(blocks)|].size >= blockSize
              else |blocks| == |old(blocks)| && EstimatedSize() < blockSize
    {
      hide IndexOk, FiltersKnow, OrderOk, DataOk, Flat, InternalLess;
      AddEntry(key, value);
      if EstimatedSize() >= blockSize {
        Flush();
      }
    }

    method FinishIndex() returns (index: Bytes)
      requires IndexOk() && OrderOk() && Stored(file, blocks) && Current() == [] && dataBlock != indexBlock
      requires |indexBlock.buffer| + |lastKey| + 43 < LIMIT
      modifies this`pendingIndexEntry, this`blocks, indexBlock
      ensures HoldsBlock(index, IndexEntries(blocks)) && WellIndexed(blocks) && Stored(file, blocks)
      ensures SameEntries(blocks, old(blocks)) && Flat(blocks) == old(Flat(blocks))
    {
      hide Growing, Stored, LayoutOk, IndexEntries, InternalLess, WellIndexed;
      var sep := lastKey;
      if pendingIndexEntry {
        sep := InternalSuccessor(lastKey);
        FlatRetitled(blocks, sep);
      }
      FinishGrows(blocks, pendingIndexEntry, lastKey, sep);
      if pendingIndexEntry {
        AddIndexEntry(sep);
      }
      index := indexBlock.Finish();
      assert BlockOk(index, indexBlock.layout);
    }

    method FinishFilter() returns (filter: Bytes)
      requires FiltersKnow() && OrderOk() && Current() == []
      modifies filterBlock
      ensures |filter| < LIMIT ==> FilterExact(FilterPolicy(), filter, blocks)
    {
      FilterRanges();
      hide FiltersOk, PendingOk, BlockMayMatch, RangeKeys, CoveredBy, Growing;
      filter := filterBlock.Finish();
    }

    lemma FilterRanges()
      requires FiltersKnow() && OrderOk() && Current() == []
      ensures forall i: nat :: filterBlock.KeysAt(i) == RangeKeys(blocks, i)
      ensures forall i :: 0 <= i < |blocks| ==> blocks[i].offset / 2048 < filterBlock.Filters()
    {
      forall i | 0 <= i < |blocks| ensures blocks[i].offset / 2048 < filterBlock.Filters() {
        RangeHas(blocks, i);
        assert blocks[i].entries[0] in blocks[i].entries;
        hide *;
        filterBlock.RangesCounted(blocks[i].offset / 2048);
      }
    }

    /** The finished table holds exactly what was added. */
    method Finish() returns (t: Table)
      requires Valid() && |file| < LIMIT64 && |indexBlock.buffer| + |lastKey| + 43 < LIMIT
      modifies this, dataBlock, indexBlock, filterBlock
      ensures |t.filter| < LIMIT ==> TableOk(t, hash, blocks)
      ensures Flat(blocks) == old(Flat(blocks) + Current()) && AllChecked(step, t.file, blocks)
      ensures |t.filter| < LIMIT ==> FilterExact(FilterPolicy(), t.filter, blocks)
    {
      hide Growing, HoldsBlock, WellIndexed, Stored, FilterCovers, LayoutOk, FiltersOk, PendingOk, IndexEntries, Flat,
           AllChecked, FilterExact, Registered;
      Flush();
      var filter := FinishFilter();
      ghost var was, p := blocks, FilterPolicy();
      if |filter| < LIMIT { ExactCovers(p, hash, filter, blocks); }
      var index := FinishIndex();
      if |filter| < LIMIT { ExactSame(p, filter, blocks, was); }
      t := Table(file, index, filter);
      CheckedSame(step, file, blocks, was);
      StoredCovered(t, hash, was, blocks);
    }
  }
}
