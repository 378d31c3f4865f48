/** Blocks of prefix-compressed entries with restart points: the builder, and the iterator that
    searches and walks the bytes (table/block_builder.cc, table/block.cc). */
module Block {
  import opened Keys
  import opened Coding

  datatype KV = KV(key: Bytes, value: Bytes)

  // ---------- the format ----------

  /** `<shared><non_shared><value_size>`, the rest of the key, the value. */
  function EncodeEntry(shared: nat, e: KV): (b: Bytes)
    requires shared <= |e.key|
    ensures |b| >= 3
  {
    EntryHeader(shared, e) + e.key[shared..] + e.value
  }

  function EntryHeader(shared: nat, e: KV): (b: Bytes)
    requires shared <= |e.key|
    ensures |b| >= 3
  {
    Varint(shared) + Varint(|e.key| - shared) + Varint(|e.value|)
  }

  /** How a block is laid out: bytes shared by each entry, where each starts, and the entry of each restart point. */
  datatype Layout = Layout(entries: seq<KV>, shared: seq<nat>, offsets: seq<nat>, starts: seq<nat>)

  ghost predicate SharedOk(l: Layout, i: nat)
    requires i < |l.entries| == |l.shared|
  {
    && l.shared[i] <= |l.entries[i].key|
    && (i == 0 ==> l.shared[i] == 0)
    && (i > 0 ==>
          && l.shared[i] <= |l.entries[i - 1].key|
          && l.entries[i].key[..l.shared[i]] == l.entries[i - 1].key[..l.shared[i]])
  }

  ghost predicate EntryAt(l: Layout, data: Bytes, i: nat)
    requires i < |l.entries| == |l.shared| && |l.offsets| == |l.entries| + 1
  {
    && SharedOk(l, i) && l.offsets[i] < l.offsets[i + 1] <= |data|
    && data[l.offsets[i]..l.offsets[i + 1]] == EncodeEntry(l.shared[i], l.entries[i])
  }

  ghost predicate EntriesOk(l: Layout, data: Bytes)
  {
    && |l.shared| == |l.entries| && |l.offsets| == |l.entries| + 1
    && l.offsets[0] == 0 && l.offsets[|l.entries|] == |data|
    && forall i :: 0 <= i < |l.entries| ==> EntryAt(l, data, i)
  }

  ghost predicate RestartAt(l: Layout, restarts: seq<nat>, j: nat)
    requires j < |restarts| == |l.starts|
  {
    && l.starts[j] <= |l.entries| && (l.starts[j] == |l.entries| ==> j == 0)
    && l.starts[j] < |l.offsets| && restarts[j] == l.offsets[l.starts[j]]
    && (l.starts[j] < |l.shared| ==> l.shared[l.starts[j]] == 0)
  }

  ghost predicate RestartsOk(l: Layout, restarts: seq<nat>)
  {
    && |l.starts| == |restarts| > 0 && l.starts[0] == 0
    && (forall j :: 0 <= j < |restarts| ==> RestartAt(l, restarts, j))
    && forall i, j :: 0 <= i < j < |l.starts| ==> l.starts[i] < l.starts[j]
  }

  ghost predicate LayoutOk(l: Layout, data: Bytes, restarts: seq<nat>)
  {
    EntriesOk(l, data) && RestartsOk(l, restarts) && |data| < LIMIT
  }

  /** The two keys have exactly this many bytes in common. */
  ghost predicate CommonPrefix(a: Bytes, b: Bytes, n: nat)
  {
    n <= |a| && n <= |b| && a[..n] == b[..n] && (n < |a| && n < |b| ==> a[n] != b[n])
  }

  /** A restart point after every `interval` entries, where the key is stored whole; everywhere else all that the key
      has in common with the one before is left out. */
  ghost predicate Compressed(l: Layout, interval: nat)
  {
    && |l.starts| > 0 && l.starts[0] == 0 && |l.shared| == |l.entries|
    && (forall j :: 0 <= j < |l.starts| - 1 ==> l.starts[j + 1] == l.starts[j] + interval)
    && 0 <= Since(l) <= interval && (Since(l) == 0 <==> l.entries == [])
    && forall i :: 0 < i < |l.entries| ==> EntryCompressed(l, i)
  }

  /** Entries since the last restart point. */
  ghost function Since(l: Layout): int
    requires |l.starts| > 0
  {
    |l.entries| - l.starts[|l.starts| - 1]
  }

  ghost predicate EntryCompressed(l: Layout, i: nat)
    requires 0 < i < |l.entries| == |l.shared|
  {
    if i in l.starts then l.shared[i] == 0 else CommonPrefix(l.entries[i - 1].key, l.entries[i].key, l.shared[i])
  }

  lemma CompressedMore(l: Layout, interval: nat, e: KV, shared: nat, restart: bool)
    requires Compressed(l, interval) && |l.offsets| > 0 && shared <= |e.key| && interval > 0
    requires restart <==> Since(l) == interval
    requires restart ==> shared == 0
    requires !restart && l.entries != [] ==> CommonPrefix(l.entries[|l.entries| - 1].key, e.key, shared)
    ensures var m := Extended(l, e, shared, restart);
      Compressed(m, interval) && Since(m) == if restart then 1 else Since(l) + 1
  {
    var m, n := Extended(l, e, shared, restart), |l.entries|;
    forall i | 0 < i < |m.entries| ensures EntryCompressed(m, i) {
      if i < n {
        assert EntryCompressed(l, i) && (i in m.starts <==> i in l.starts);
      } else {
        if !restart { StartsBelow(l, interval, n); }
      }
    }
  }

  lemma CountIs(l: Layout, data: Bytes, restarts: seq<nat>, interval: nat)
    requires LayoutOk(l, data, restarts) && Compressed(l, interval)
    ensures |l.starts| > 0 && |l.offsets| > 0 && 0 <= Since(l) <= interval && (Since(l) == 0 <==> l.entries == [])
  {}

  /** No restart point lies beyond the last one. */
  lemma StartsBelow(l: Layout, interval: nat, n: nat)
    requires |l.starts| > 0 && forall j :: 0 <= j < |l.starts| - 1 ==> l.starts[j + 1] == l.starts[j] + interval
    requires l.starts[|l.starts| - 1] < n
    ensures n !in l.starts
  {
    forall j | 0 <= j < |l.starts| ensures l.starts[j] < n { StartsRise(l.starts, interval, j); }
  }

  lemma {:induction false} StartsRise(starts: seq<nat>, interval: nat, j: nat)
    requires j < |starts| && forall k :: 0 <= k < |starts| - 1 ==> starts[k + 1] == starts[k] + interval
    ensures starts[j] <= starts[|starts| - 1]
    decreases |starts| - j
  {
    if j < |starts| - 1 { StartsRise(starts, interval, j + 1); }
  }

  /** The bytes of an entry whose three numbers take one byte each. */
  lemma ShortEntryBytes(shared: nat, e: KV)
    requires shared <= |e.key| && shared < 128 && |e.key| - shared < 128 && |e.value| < 128
    ensures EncodeEntry(shared, e) == [shared, |e.key| - shared, |e.value|] + (e.key[shared..] + e.value)
  {
    assert Varint(shared) == [shared] && Varint(|e.key| - shared) == [|e.key| - shared]
           && Varint(|e.value|) == [|e.value|];
    hide Varint;
  }

  // ---------- building ----------

  class BlockBuilder {
    const interval: nat
    var buffer: Bytes
    var restarts: seq<nat>
    var counter: nat
    var lastKey: Bytes
    ghost var layout: Layout

    ghost predicate Valid()
      reads this
    {
      && interval >= 1 && LayoutOk(layout, buffer, restarts)
      && lastKey == (if layout.entries == [] then [] else layout.entries[|layout.entries| - 1].key)
      && Compressed(layout, interval) && counter == Since(layout)
    }

    constructor (interval: nat)
      requires interval >= 1
      ensures Valid() && layout.entries == [] && buffer == [] && this.interval == interval
    {
      this.interval := interval;
      buffer, restarts, counter, lastKey := [], [0], 0, [];
      layout := Layout([], [], [0], [0]);
    }

    method Reset()
      requires interval >= 1
      modifies this
      ensures Valid() && layout.entries == [] && buffer == []
    {
      buffer, restarts, counter, lastKey := [], [0], 0, [];
      layout := Layout([], [], [0], [0]);
    }

    /** Longest common prefix with the previous key. */
    method Shared(key: Bytes) returns (shared: nat)
      ensures shared <= |key| && shared <= |lastKey| && key[..shared] == lastKey[..shared]
      ensures shared < |key| && shared < |lastKey| ==> key[shared] != lastKey[shared]
    {
      shared := 0;
      while shared < |key| && shared < |lastKey| && lastKey[shared] == key[shared]
        invariant shared <= |key| && shared <= |lastKey| && key[..shared] == lastKey[..shared]
      {
        shared := shared + 1;
      }
    }

    method Add(key: Bytes, value: Bytes)
      requires Valid() && |buffer| + |key| + |value| + 15 < LIMIT
      modifies this
      ensures Valid() && layout.entries == old(layout.entries) + [KV(key, value)]
      ensures |buffer| <= |old(buffer)| + |key| + |value| + 15
    {
      hide Varint, EncodeEntry, Compressed;
      CountIs(layout, buffer, restarts, interval);
      hide LayoutOk, Since;
      var shared := 0;
      ghost var e, restart := KV(key, value), counter >= interval;
      if counter < interval {
        shared := Shared(key);
      } else {
        restarts := restarts + [|buffer|];
        counter := 0;
      }
      AddOk(layout, buffer, old(restarts), lastKey, e, shared, restart);
      CompressedMore(layout, interval, e, shared, restart);
      buffer := buffer + Varint(shared) + Varint(|key| - shared) + Varint(|value|) + key[shared..] + value;
      lastKey := lastKey[..shared] + key[shared..];
      counter := counter + 1;
      layout := Extended(layout, e, shared, restart);
    }

    /** Appends the restart array and its length. */
    method Finish() returns (b: Bytes)
      requires Valid()
      modifies this`buffer
      ensures BlockOk(b, layout) && |b| == |old(buffer)| + 4 * |restarts| + 4
    {
      RestartsFit(layout, buffer, restarts);
      ghost var data := buffer;
      hide LayoutOk;
      for i := 0 to |restarts|
        invariant buffer == data + FixedAll(restarts[..i])
      {
        assert restarts[..i + 1][..i] == restarts[..i];
        buffer := buffer + Fixed32(restarts[i]);
      }
      assert restarts[..|restarts|] == restarts;
      b := buffer + Fixed32(|restarts|);
      assert IsBlock(b, layout, data, restarts);
    }
  }

  /** One more entry, at a restart point or not. */
  function Extended(l: Layout, e: KV, shared: nat, restart: bool): Layout
    requires |l.offsets| > 0 && shared <= |e.key|
  {
    Layout(l.entries + [e], l.shared + [shared], l.offsets + [l.offsets[|l.offsets| - 1] + |EncodeEntry(shared, e)|],
           if restart then l.starts + [|l.entries|] else l.starts)
  }

  lemma EncodedLength(shared: nat, e: KV)
    requires shared <= |e.key| < LIMIT && |e.value| < LIMIT
    ensures |EncodeEntry(shared, e)| <= 15 + |e.key| + |e.value|
    ensures |Varint(shared)| + |Varint(|e.key| - shared)| + |Varint(|e.value|)| <= 15
  {
    Varint32(shared, []);
    Varint32(|e.key| - shared, []);
    Varint32(|e.value|, []);
  }

  lemma AddOk(l: Layout, data: Bytes, restarts: seq<nat>, lastKey: Bytes, e: KV, shared: nat, restart: bool)
    requires LayoutOk(l, data, restarts) && (restart ==> shared == 0 && l.entries != [])
             && (l.entries == [] ==> shared == 0)
    requires lastKey == if l.entries == [] then [] else l.entries[|l.entries| - 1].key
    requires shared <= |e.key| && shared <= |lastKey| && e.key[..shared] == lastKey[..shared]
    requires |data| + |e.key| + |e.value| + 15 < LIMIT
    ensures lastKey[..shared] + e.key[shared..] == e.key
    ensures |Varint(shared)| + |Varint(|e.key| - shared)| + |Varint(|e.value|)| <= 15
    ensures LayoutOk(Extended(l, e, shared, restart),
                     data + Varint(shared) + Varint(|e.key| - shared) + Varint(|e.value|) + e.key[shared..] + e.value,
                     if restart then restarts + [|data|] else restarts)
  {
    EncodedLength(shared, e);
    ExtendedOk(l, data, restarts, e, shared, restart);
    assert data + Varint(shared) + Varint(|e.key| - shared) + Varint(|e.value|) + e.key[shared..] +
           e.value == data + EncodeEntry(shared, e);
    hide LayoutOk;
  }

  lemma ExtendedOk(l: Layout, data: Bytes, restarts: seq<nat>, e: KV, shared: nat, restart: bool)
    requires LayoutOk(l, data, restarts) && shared <= |e.key| && (restart ==> shared == 0 && l.entries != [])
    requires l.entries == [] ==> shared == 0
    requires l.entries != [] ==>
               var k := l.entries[|l.entries| - 1].key; shared <= |k| && e.key[..shared] == k[..shared]
    requires |data + EncodeEntry(shared, e)| < LIMIT
    ensures LayoutOk(Extended(l, e, shared, restart), data + EncodeEntry(shared, e), if restart
            then restarts + [|data|] else restarts)
  {
    var m, more := Extended(l, e, shared, restart), data + EncodeEntry(shared, e);
    var r := if restart then restarts + [|data|] else restarts;
    forall i | 0 <= i < |m.entries| ensures EntryAt(m, more, i) {
      if i < |l.entries| {
        assert EntryAt(l, data, i) && SharedOk(l, i);
        assert more[l.offsets[i]..l.offsets[i + 1]] == data[l.offsets[i]..l.offsets[i + 1]];
      } else {
        assert more[|data|..] == EncodeEntry(shared, e);
      }
    }
    forall j | 0 <= j < |r| ensures RestartAt(m, r, j) && (restart && j < |restarts| ==> m.starts[j] < |l.entries|) {
      if j < |restarts| { assert RestartAt(l, restarts, j); }
    }
  }

  // ---------- a finished block ----------

  /** The bytes of a block with this layout. */
  ghost predicate BlockOk(b: Bytes, l: Layout)
  {
    exists data, restarts :: IsBlock(b, l, data, restarts)
  }

  ghost predicate IsBlock(b: Bytes, l: Layout, data: Bytes, restarts: seq<nat>)
  {
    && LayoutOk(l, data, restarts) && |restarts| < LIMIT && (forall i :: 0 <= i < |restarts| ==> restarts[i] < LIMIT)
    && b == data + FixedAll(restarts) + Fixed32(|restarts|)
  }

  lemma {:induction false} OffsetsGrow(l: Layout, data: Bytes, i: nat, j: nat)
    requires EntriesOk(l, data) && i <= j <= |l.entries|
    ensures l.offsets[i] + (j - i) <= l.offsets[j] <= |data|
    decreases j - i
  {
    if i < j {
      assert EntryAt(l, data, j - 1);
      OffsetsGrow(l, data, i, j - 1);
      if j == |l.entries| {} else { assert EntryAt(l, data, j); }
    } else if i < |l.entries| {
      assert EntryAt(l, data, i);
    }
  }

  lemma {:induction false} StartsGrow(l: Layout, restarts: seq<nat>, j: nat)
    requires RestartsOk(l, restarts) && j < |restarts|
    ensures j <= l.starts[j]
  {
    if j > 0 { StartsGrow(l, restarts, j - 1); }
  }

  lemma RestartsFit(l: Layout, data: Bytes, restarts: seq<nat>)
    requires LayoutOk(l, data, restarts)
    ensures |restarts| < LIMIT && forall i :: 0 <= i < |restarts| ==> restarts[i] < LIMIT
  {
    var last := |restarts| - 1;
    StartsGrow(l, restarts, last);
    assert RestartAt(l, restarts, last);
    OffsetsGrow(l, data, 0, |l.entries|);
    forall i | 0 <= i < |restarts| ensures restarts[i] < LIMIT {
      assert RestartAt(l, restarts, i);
      OffsetsGrow(l, data, l.starts[i], |l.entries|);
    }
  }

  // ---------- decoding ----------

  /** NumRestarts and restart_offset_, or nothing for a block too short to hold them. */
  function OpenBlock(b: Bytes): Option<(nat, nat)>
  {
    if |b| < 4 then None
    else
      var n := DecodeFixed32(b[|b| - 4..]);
      if n > (|b| - 4) / 4 then None else Some((|b| - 4 * (1 + n), n))
  }

  function GetRestartPoint(b: Bytes, restarts: nat, index: nat): nat
    requires restarts + 4 * index + 4 <= |b|
  {
    DecodeFixed32(b[restarts + 4 * index..])
  }

  lemma OpenBlockOk(b: Bytes, l: Layout, data: Bytes, restarts: seq<nat>)
    requires IsBlock(b, l, data, restarts)
    ensures OpenBlock(b) == Some((|data|, |restarts|))
    ensures forall i :: 0 <= i < |restarts| ==> GetRestartPoint(b, |data|, i) == restarts[i]
  {
    hide LayoutOk;
    var trailer := Fixed32(|restarts|);
    assert b[|b| - 4..] == trailer && trailer + [] == trailer;
    Fixed32RoundTrip(|restarts|, []);
    forall i | 0 <= i < |restarts| ensures GetRestartPoint(b, |data|, i) == restarts[i] {
      FixedAllAt(restarts, i, trailer);
      assert b[|data| + 4 * i..] == (FixedAll(restarts) + trailer)[4 * i..];
    }
  }

  datatype Header = Header(shared: nat, nonShared: nat, valueLength: nat, keyStart: nat)

  /** A varint at p, or nothing: value modulo 2^32, and the position after it. */
  function GetVarint32(b: Bytes, p: nat, limit: nat): (r: Option<(nat, nat)>)
    requires p <= limit <= |b|
    ensures r.Some? ==> p < r.value.1 <= limit
  {
    var v := GetVarint(b[p..limit], 5);
    VarintWithin(b[p..limit], 5);
    if v.None? then None else Some((v.value.0 % LIMIT, p + v.value.1))
  }

  /** DecodeEntry, with its fast path for three one-byte varints. */
  function DecodeEntry(b: Bytes, p: nat, limit: nat): (r: Option<Header>)
    requires p <= limit <= |b|
  {
    if limit - p < 3 then None
    else if b[p] < 128 && b[p + 1] < 128 && b[p + 2] < 128 then Fits(Header(b[p], b[p + 1], b[p + 2], p + 3), limit)
    else
      var s := GetVarint32(b, p, limit);
      if s.None? then None else
      var n := GetVarint32(b, s.value.1, limit);
      if n.None? then None else
      var v := GetVarint32(b, n.value.1, limit);
      if v.None? then None else Fits(Header(s.value.0, n.value.0, v.value.0, v.value.1), limit)
  }

  function Fits(h: Header, limit: nat): (r: Option<Header>)
    requires h.keyStart <= limit
    ensures r.Some? ==> r.value == h
  {
    if limit - h.keyStart < (h.nonShared + h.valueLength) % LIMIT then None else Some(h)
  }

  lemma VarintAt(b: Bytes, p: nat, limit: nat, v: nat)
    requires v < LIMIT && p + |Varint(v)| <= limit <= |b| && b[p..p + |Varint(v)|] == Varint(v)
    ensures GetVarint32(b, p, limit) == Some((v, p + |Varint(v)|))
    ensures b[p] < 128 <==> v < 128
    ensures v < 128 ==> b[p] == v && |Varint(v)| == 1
  {
    var n := |Varint(v)|;
    Varint32(v, b[p + n..limit]);
    assert b[p..limit] == Varint(v) + b[p + n..limit];
    assert b[p..p + n][0] == b[p];
  }

  lemma Within(b: Bytes, p: nat, part: Bytes, i: nat, j: nat)
    requires i <= j <= |part| && p + |part| <= |b| && b[p..p + |part|] == part
    ensures b[p + i..p + j] == part[i..j]
  {
    forall k | 0 <= k < j - i ensures b[p + i..p + j][k] == part[i..j][k] {
      assert b[p..p + |part|][i + k] == part[i + k];
    }
  }

  lemma EntryParts(b: Bytes, p: nat, shared: nat, e: KV)
    requires shared <= |e.key| && p + |EncodeEntry(shared, e)| <= |b|
    requires b[p..p + |EncodeEntry(shared, e)|] == EncodeEntry(shared, e)
    ensures var k := p + |EntryHeader(shared, e)|; var n := |e.key| - shared;
      && |EncodeEntry(shared, e)| == |EntryHeader(shared, e)| + n + |e.value|
      && b[p..k] == EntryHeader(shared, e) && b[k..k + n] == e.key[shared..] && b[k + n..k + n + |e.value|] == e.value
  {
    var h, n, enc := EntryHeader(shared, e), |e.key| - shared, EncodeEntry(shared, e);
    assert enc[0..|h|] == h && enc[|h|..|h| + n] == e.key[shared..] && enc[|h| + n..|enc|] == e.value;
    hide EncodeEntry, EntryHeader;
    Within(b, p, enc, 0, |h|);
    Within(b, p, enc, |h|, |h| + n);
    Within(b, p, enc, |h| + n, |enc|);
  }

  ghost predicate ReadsAs(b: Bytes, p: nat, limit: nat, v: nat, q: nat)
    requires p < q <= limit <= |b|
  {
    GetVarint32(b, p, limit) == Some((v, q)) && (b[p] < 128 ==> b[p] == v && q == p + 1)
  }

  /** The fast path and the slow one agree. */
  lemma FastPath(b: Bytes, p: nat, limit: nat, x: nat, y: nat, z: nat, p1: nat, p2: nat, p3: nat)
    requires p < p1 < p2 < p3 && p3 + y + z <= limit <= |b| && limit < LIMIT
    requires ReadsAs(b, p, limit, x, p1) && ReadsAs(b, p1, limit, y, p2) && ReadsAs(b, p2, limit, z, p3)
    ensures DecodeEntry(b, p, limit) == Some(Header(x, y, z, p3))
  {}

  lemma HeaderParts(b: Bytes, p: nat, x: Bytes, y: Bytes, z: Bytes)
    requires p + |x + y + z| <= |b| && b[p..p + |x + y + z|] == x + y + z
    ensures b[p..p + |x|] == x && b[p + |x|..p + |x| + |y|] == y && b[p + |x| + |y|..p + |x| + |y| + |z|] == z
  {
    var h := x + y + z;
    assert h[0..|x|] == x && h[|x|..|x| + |y|] == y && h[|x| + |y|..|h|] == z;
    Within(b, p, h, 0, |x|);
    Within(b, p, h, |x|, |x| + |y|);
    Within(b, p, h, |x| + |y|, |h|);
  }

  lemma HeaderDecoded(b: Bytes, p: nat, limit: nat, shared: nat, e: KV)
    requires shared <= |e.key| < LIMIT && limit <= |b| && limit < LIMIT
    requires p + |EntryHeader(shared, e)| + (|e.key| - shared) + |e.value| <= limit
    requires b[p..p + |EntryHeader(shared, e)|] == EntryHeader(shared, e)
    ensures DecodeEntry(b, p, limit) == Some(Header(shared, |e.key| - shared, |e.value|, p + |EntryHeader(shared, e)|))
  {
    hide Varint, GetVarint32, DecodeEntry;
    var n := |e.key| - shared;
    var a1 := |Varint(shared)|;
    var a2 := a1 + |Varint(n)|;
    HeaderParts(b, p, Varint(shared), Varint(n), Varint(|e.value|));
    VarintAt(b, p, limit, shared);
    VarintAt(b, p + a1, limit, n);
    VarintAt(b, p + a2, limit, |e.value|);
    FastPath(b, p, limit, shared, n, |e.value|, p + a1, p + a2, p + |EntryHeader(shared, e)|);
  }

  lemma {:induction false} KeyFits(l: Layout, data: Bytes, i: nat)
    requires EntriesOk(l, data) && i < |l.entries|
    ensures |l.entries[i].key| <= l.offsets[i + 1] <= |data|
  {
    assert EntryAt(l, data, i) && SharedOk(l, i);
    EntryParts(data, l.offsets[i], l.shared[i], l.entries[i]);
    if i > 0 { KeyFits(l, data, i - 1); }
  }

  /** What decoding finds at the offset of entry i. */
  ghost predicate EntryRead(b: Bytes, l: Layout, limit: nat, i: nat)
    requires i < |l.entries| == |l.shared| && |l.offsets| == |l.entries| + 1
  {
    && l.offsets[i] <= limit <= |b| && SharedOk(l, i)
    && var h := DecodeEntry(b, l.offsets[i], limit);
       && h.Some? && h.value.shared == l.shared[i] && h.value.shared + h.value.nonShared == |l.entries[i].key|
       && h.value.keyStart + h.value.nonShared + h.value.valueLength == l.offsets[i + 1] <= limit
       && b[h.value.keyStart..h.value.keyStart + h.value.nonShared] == l.entries[i].key[l.shared[i]..]
       && b[h.value.keyStart + h.value.nonShared..l.offsets[i + 1]] == l.entries[i].value
  }

  lemma EntryDecoded(b: Bytes, l: Layout, data: Bytes, restarts: seq<nat>, i: nat)
    requires IsBlock(b, l, data, restarts) && i < |l.entries|
    ensures EntryRead(b, l, |data|, i)
  {
    assert EntryAt(l, data, i);
    KeyFits(l, data, i);
    var p, shared, e := l.offsets[i], l.shared[i], l.entries[i];
    assert b[p..l.offsets[i + 1]] == data[p..l.offsets[i + 1]];
    EntryParts(b, p, shared, e);
    HeaderDecoded(b, p, |data|, shared, e);
    hide DecodeEntry, EncodeEntry, EntryHeader;
  }

  // ---------- iterating ----------

  ghost predicate RestartRead(b: Bytes, l: Layout, limit: nat, num: nat, j: nat)
    requires j < num == |l.starts| && |l.offsets| == |l.entries| + 1 && |l.shared| == |l.entries|
  {
    && limit + 4 * j + 4 <= |b| && l.starts[j] <= |l.entries| && (j > 0 ==> l.starts[j] < |l.entries|)
    && GetRestartPoint(b, limit, j) == l.offsets[l.starts[j]]
    && (l.starts[j] < |l.entries| ==> l.shared[l.starts[j]] == 0)
  }

  /** What an iterator can rely on in a finished block. */
  ghost predicate Readable(b: Bytes, l: Layout, limit: nat, num: nat)
  {
    && |l.shared| == |l.entries| && |l.offsets| == |l.entries| + 1 && |l.starts| == num > 0
    && l.starts[0] == 0 && l.offsets[0] == 0 && l.offsets[|l.entries|] == limit
    && (forall i :: 0 <= i < |l.entries| ==> EntryRead(b, l, limit, i))
    && (forall i, j :: 0 <= i < j <= |l.entries| ==> l.offsets[i] < l.offsets[j])
    && (forall j :: 0 <= j < num ==> RestartRead(b, l, limit, num, j))
    && (forall i, j :: 0 <= i < j < num ==> l.starts[i] < l.starts[j])
  }

  lemma BlockReadable(b: Bytes, l: Layout, data: Bytes, restarts: seq<nat>)
    requires IsBlock(b, l, data, restarts)
    ensures Readable(b, l, |data|, |restarts|)
  {
    OpenBlockOk(b, l, data, restarts);
    forall i | 0 <= i < |l.entries| ensures EntryRead(b, l, |data|, i) { EntryDecoded(b, l, data, restarts, i); }
    forall i, j | 0 <= i < j <= |l.entries| ensures l.offsets[i] < l.offsets[j] { OffsetsGrow(l, data, i, j); }
    hide EntryRead, EntryAt, EncodeEntry, GetRestartPoint;
    forall j | 0 <= j < |restarts| ensures RestartRead(b, l, |data|, |restarts|, j) {
      assert RestartAt(l, restarts, j);
    }
  }

  /** First entry with key at or after the target. */
  ghost predicate IsLowerBound(less: Less, entries: seq<KV>, target: Bytes, pos: nat)
  {
    && pos <= |entries| && (forall i :: 0 <= i < pos ==> less(entries[i].key, target))
    && (pos < |entries| ==> !less(entries[pos].key, target))
  }

  ghost predicate SortedKeys(less: Less, entries: seq<KV>)
  {
    forall i, j :: 0 <= i < j < |entries| ==> less(entries[i].key, entries[j].key)
  }

  /** A comparator: Compare(a, b) < 0. */
  type Less = (Bytes, Bytes) -> bool

  ghost predicate Transitive(less: Less)
  {
    forall a, b, c :: less(a, b) && less(b, c) ==> less(a, c)
  }

  class Iter {
    const b: Bytes
    const restarts: nat
    const numRestarts: nat
    const less: Less
    ghost const l: Layout
    var current: nat
    var restartIndex: nat
    var key: Bytes
    var valueStart: nat
    var valueLength: nat

    ghost predicate Ok()
    {
      Readable(b, l, restarts, numRestarts)
    }

    function NextEntryOffset(): nat
      reads this
    {
      valueStart + valueLength
    }

    /** The next entry to parse is number pos. */
    ghost predicate Ready(pos: nat)
      reads this
    {
      && Ok() && pos <= |l.entries| && NextEntryOffset() == l.offsets[pos]
      && restartIndex < numRestarts && l.starts[restartIndex] <= pos
      && (pos < |l.entries| ==> l.shared[pos] <= |key| && l.shared[pos] <= |l.entries[pos].key|
                                && key[..l.shared[pos]] == l.entries[pos].key[..l.shared[pos]])
    }

    /** Positioned at entry pos, or past the end. */
    ghost predicate At(pos: nat)
      reads this
    {
      && Ok() && pos <= |l.entries| && current == l.offsets[pos]
      && (pos < |l.entries| ==>
            && key == l.entries[pos].key && NextEntryOffset() == l.offsets[pos + 1] <= |b|
            && b[valueStart..NextEntryOffset()] == l.entries[pos].value
            && restartIndex < numRestarts && l.starts[restartIndex] <= pos
            && (restartIndex + 1 < numRestarts ==> pos <= l.starts[restartIndex + 1]))
    }

    /** Block::NewIterator on the bytes of a finished block. */
    constructor (b: Bytes, restarts: nat, numRestarts: nat, less: Less, ghost l: Layout)
      requires Readable(b, l, restarts, numRestarts)
      ensures At(|l.entries|) && this.b == b && this.l == l && this.less == less && this.restarts == restarts
              && this.numRestarts == numRestarts
    {
      this.b, this.restarts, this.numRestarts, this.less, this.l := b, restarts, numRestarts, less, l;
      current, restartIndex, key, valueStart, valueLength := restarts, numRestarts, [], 0, 0;
    }

    function Valid(): bool
      reads this
    {
      current < restarts
    }

    method SeekToRestartPoint(index: nat)
      requires Ok() && index < numRestarts
      modifies this
      ensures Ready(l.starts[index]) && restartIndex == index && current == old(current)
    {
      assert RestartRead(b, l, restarts, numRestarts, index);
      key := [];
      restartIndex := index;
      valueStart, valueLength := GetRestartPoint(b, restarts, index), 0;
    }

    method ParseNextKey(ghost pos: nat) returns (more: bool)
      requires Ready(pos)
      modifies this
      ensures At(pos) && (more <==> pos < |l.entries|)
    {
      current := NextEntryOffset();
      if current >= restarts {
        current, restartIndex := restarts, numRestarts;
        return false;
      }
      assert EntryRead(b, l, restarts, pos);
      var h := DecodeEntry(b, current, restarts);
      key := key[..h.value.shared] + b[h.value.keyStart..h.value.keyStart + h.value.nonShared];
      valueStart, valueLength := h.value.keyStart + h.value.nonShared, h.value.valueLength;
      AdvanceRestart(pos);
      return true;
    }

    /** The restart point before the current entry. */
    method AdvanceRestart(ghost pos: nat)
      requires Ok() && pos < |l.entries| && current == l.offsets[pos] && restartIndex < numRestarts
               && l.starts[restartIndex] <= pos
      modifies this`restartIndex
      ensures restartIndex < numRestarts && l.starts[restartIndex] <= pos
      ensures restartIndex + 1 < numRestarts ==> pos <= l.starts[restartIndex + 1]
    {
      while restartIndex + 1 < numRestarts && RestartPoint(restartIndex + 1) < current
        invariant restartIndex < numRestarts && l.starts[restartIndex] <= pos
      {
        RestartOrder(b, l, restarts, numRestarts, restartIndex + 1, pos);
        restartIndex := restartIndex + 1;
      }
      if restartIndex + 1 < numRestarts { RestartOrder(b, l, restarts, numRestarts, restartIndex + 1, pos); }
    }

    function RestartPoint(index: nat): nat
      requires Ok() && index < numRestarts
    {
      assert RestartRead(b, l, restarts, numRestarts, index);
      GetRestartPoint(b, restarts, index)
    }

    method Next(ghost pos: nat)
      requires At(pos) && pos < |l.entries|
      modifies this
      ensures At(pos + 1)
    {
      assert pos + 1 < |l.entries| ==> EntryRead(b, l, restarts, pos + 1);
      var _ := ParseNextKey(pos + 1);
    }

    method SeekToFirst()
      requires Ok()
      modifies this
      ensures At(0)
    {
      SeekToRestartPoint(0);
      var _ := ParseNextKey(0);
    }

    /** Parses entries until the one that ends where entry pos begins. */
    method ScanTo(original: nat, ghost start: nat, ghost pos: nat)
      requires Ready(start) && pos <= |l.entries| && original == l.offsets[pos]
               && (start < pos || start == pos == |l.entries|)
      modifies this
      ensures At(if start < pos then pos - 1 else pos)
    {
      ghost var k := start;
      var more := ParseNextKey(k);
      while more && NextEntryOffset() < original
        invariant At(k) && (if start < pos then k < pos && more else k == pos && !more)
        decreases pos - k
      {
        k := k + 1;
        NextReady(b, l, restarts, numRestarts, k, pos);
        hide Readable;
        more := ParseNextKey(k);
      }
      if start < pos { NextReady(b, l, restarts, numRestarts, k + 1, pos); }
    }

    method SeekToLast()
      requires Ok()
      modifies this
      ensures At(if |l.entries| == 0 then 0 else |l.entries| - 1)
    {
      SeekToRestartPoint(numRestarts - 1);
      RestartOrder(b, l, restarts, numRestarts, numRestarts - 1, |l.entries|);
      ScanTo(restarts, l.starts[numRestarts - 1], |l.entries|);
    }

    /** The last restart point whose key is before the target, or the first. */
    method FindRestart(target: Bytes) returns (left: nat)
      requires Ok()
      ensures left < numRestarts
      ensures left > 0 ==> l.starts[left] < |l.entries| && less(l.entries[l.starts[left]].key, target)
    {
      left := 0;
      var right := numRestarts - 1;
      while left < right
        invariant 0 <= left <= right < numRestarts
        invariant left > 0 ==> l.starts[left] < |l.entries| && less(l.entries[l.starts[left]].key, target)
      {
        var mid := (left + right + 1) / 2;
        RestartKey(b, l, restarts, numRestarts, mid);
        var h := DecodeEntry(b, RestartPoint(mid), restarts).value;
        if less(b[h.keyStart..h.keyStart + h.nonShared], target) {
          left := mid;
        } else {
          right := mid - 1;
        }
      }
    }

    /** Binary search on the restart points, then a scan. */
    method Seek(target: Bytes) returns (ghost pos: nat)
      requires Ok() && Transitive(less) && SortedKeys(less, l.entries)
      modifies this
      ensures At(pos) && IsLowerBound(less, l.entries, target, pos)
    {
      var left := FindRestart(target);
      SeekToRestartPoint(left);
      pos := l.starts[left];
      assert forall i :: 0 <= i < pos ==> less(l.entries[i].key, target);
      var more := ParseNextKey(pos);
      while more && less(key, target)
        invariant At(pos) && (more <==> pos < |l.entries|)
        invariant forall i :: 0 <= i < pos ==> less(l.entries[i].key, target)
        decreases |l.entries| - pos
      {
        pos := pos + 1;
        NextReady(b, l, restarts, numRestarts, pos, pos);
        hide Readable;
        more := ParseNextKey(pos);
      }
    }

    method Prev(ghost pos: nat)
      requires At(pos) && pos < |l.entries|
      modifies this
      ensures At(if pos == 0 then |l.entries| else pos - 1)
    {
      var original := current;
      while RestartPoint(restartIndex) >= original
        invariant Ok() && current == original == l.offsets[pos] && restartIndex < numRestarts
        decreases restartIndex
      {
        RestartOrder(b, l, restarts, numRestarts, restartIndex, pos);
        if restartIndex == 0 {
          current, restartIndex := restarts, numRestarts;
          return;
        }
        restartIndex := restartIndex - 1;
      }
      RestartOrder(b, l, restarts, numRestarts, restartIndex, pos);
      hide Readable;
      SeekToRestartPoint(restartIndex);
      ScanTo(original, l.starts[restartIndex], pos);
    }
  }

  lemma NextReady(b: Bytes, l: Layout, limit: nat, num: nat, k: nat, pos: nat)
    requires Readable(b, l, limit, num) && k <= pos <= |l.entries|
    ensures l.offsets[k] < l.offsets[pos] <==> k < pos
    ensures k < |l.entries| ==> SharedOk(l, k)
  {
    assert k < |l.entries| ==> EntryRead(b, l, limit, k);
  }

  lemma RestartOrder(b: Bytes, l: Layout, limit: nat, num: nat, j: nat, pos: nat)
    requires Readable(b, l, limit, num) && j < num && pos <= |l.entries|
    ensures RestartRead(b, l, limit, num, j)
    ensures GetRestartPoint(b, limit, j) < l.offsets[pos] <==> l.starts[j] < pos
  {}

  /** A restart point stores its key whole. */
  lemma RestartKey(b: Bytes, l: Layout, limit: nat, num: nat, j: nat)
    requires Readable(b, l, limit, num) && 0 < j < num
    ensures l.starts[j] < |l.entries| && RestartRead(b, l, limit, num, j)
            && GetRestartPoint(b, limit, j) <= limit <= |b|
    ensures var h := DecodeEntry(b, GetRestartPoint(b, limit, j), limit);
      && h.Some? && h.value.shared == 0 && h.value.keyStart + h.value.nonShared <= |b|
      && b[h.value.keyStart..h.value.keyStart + h.value.nonShared] == l.entries[l.starts[j]].key
  {
    assert RestartRead(b, l, limit, num, j);
    assert EntryRead(b, l, limit, l.starts[j]);
  }

  // ---------- round trip ----------

  function Size(entries: seq<KV>): nat
  {
    if entries == [] then 0
    else Size(entries[..|entries| - 1]) + |entries[|entries| - 1].key| + |entries[|entries| - 1].value| + 15
  }

  method Build(entries: seq<KV>, interval: nat) returns (b: Bytes, ghost l: Layout)
    requires interval >= 1 && Size(entries) < LIMIT
    ensures BlockOk(b, l) && l.entries == entries && Compressed(l, interval)
  {
    var builder := new BlockBuilder(interval);
    for i := 0 to |entries|
      invariant builder.Valid() && fresh(builder) && builder.layout.entries == entries[..i]
                && |builder.buffer| <= Size(entries[..i])
    {
      SizeGrows(entries, i + 1);
      assert entries[..i + 1][..i] == entries[..i];
      hide LayoutOk;
      builder.Add(entries[i].key, entries[i].value);
    }
    assert entries[..|entries|] == entries;
    b := builder.Finish();
    l := builder.layout;
  }

  method Walk(b: Bytes, restarts: nat, numRestarts: nat, less: Less, ghost l: Layout) returns (back: seq<KV>)
    requires Readable(b, l, restarts, numRestarts)
    ensures back == l.entries
  {
    var it := new Iter(b, restarts, numRestarts, less, l);
    it.SeekToFirst();
    back := [];
    while it.Valid()
      invariant fresh(it) && it.b == b && it.l == l && it.restarts == restarts && it.numRestarts == numRestarts
                && it.At(|back|) && back == l.entries[..|back|]
      decreases |l.entries| - |back|
    {
      ghost var pos := |back|;
      NextReady(b, l, restarts, numRestarts, pos, |l.entries|);
      hide Readable;
      back := back + [KV(it.key, b[it.valueStart..it.NextEntryOffset()])];
      it.Next(pos);
    }
    NextReady(b, l, restarts, numRestarts, |back|, |l.entries|);
  }

  /** Building a block and walking it gives the entries back, whatever the restart interval. */
  method BuildAndWalk(entries: seq<KV>, interval: nat, less: Less) returns (b: Bytes, back: seq<KV>)
    requires interval >= 1 && Size(entries) < LIMIT
    ensures back == entries
  {
    ghost var l;
    b, l := Build(entries, interval);
    ghost var data, restarts :| IsBlock(b, l, data, restarts);
    OpenBlockOk(b, l, data, restarts);
    BlockReadable(b, l, data, restarts);
    hide BlockOk, IsBlock, Readable, OpenBlock;
    var trailer := OpenBlock(b).value;
    back := Walk(b, trailer.0, trailer.1, less, l);
  }

  lemma {:induction false} SizeGrows(entries: seq<KV>, i: nat)
    requires i <= |entries|
    ensures Size(entries[..i]) <= Size(entries)
    decreases |entries|
  {
    if i < |entries| {
      var front := entries[..|entries| - 1];
      SizeGrows(front, i);
      assert front[..i] == entries[..i];
    } else {
      assert entries[..i] == entries;
    }
  }
}
