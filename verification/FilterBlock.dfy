/** One filter for every 2 KB of data blocks, in one block of bytes (table/filter_block.cc). */
module FilterBlock {
  import opened Keys
  import opened Coding
  import opened Bloom

  const BASE_LG: Byte := 11
  const BASE := 2048

  /** A bloom filter policy. */
  datatype Policy = Policy(hash: Hash, bitsPerKey: nat, k: Byte)

  function Low(v: seq<nat>): (r: seq<nat>)
    ensures |r| == |v| && forall i :: 0 <= i < |r| ==> r[i] < LIMIT
  {
    seq(|v|, i requires 0 <= i < |v| => v[i] % LIMIT)
  }

  function EndOf(offsets: seq<nat>, end: nat, i: nat): nat
    requires i < |offsets|
  {
    if i + 1 < |offsets| then offsets[i + 1] else end
  }

  /** Filter number i answers for the keys it was made for. */
  ghost predicate FilterAt(p: Policy, result: Bytes, offsets: seq<nat>, i: nat, keys: seq<Bytes>)
    requires i < |offsets|
  {
    var end := EndOf(offsets, |result|, i);
    offsets[i] <= end <= |result| && MadeFor(p, keys, result[offsets[i]..end])
  }

  /** The filter of the keys; none for no keys. */
  ghost predicate MadeFor(p: Policy, keys: seq<Bytes>, filter: Bytes)
  {
    if keys == [] then filter == [] else IsFilter(p.hash, p.bitsPerKey, p.k, keys, filter)
  }

  /** Every probe of the key is one of some key of the range. */
  ghost predicate CoveredBy(p: Policy, keys: seq<Bytes>, key: Bytes)
  {
    var bits := |keys| * p.bitsPerKey;
    keys != [] && Covered(p.hash, p.k, keys, if bits < 64 then 64 else (bits + 7) / 8 * 8, p.hash(key))
  }

  lemma MadeExactly(p: Policy, keys: seq<Bytes>, filter: Bytes, key: Bytes)
    requires p.k <= 30 && MadeFor(p, keys, filter)
    ensures MayMatch(p.hash, key, filter) <==> CoveredBy(p, keys, key)
  {
    if keys != [] {
      MatchesExactly(p.hash, p.bitsPerKey, p.k, keys, filter, key);
      hide Covered, MayMatch, OfSomeKey, BitOf;
      var n, bits := |filter| - 1, |keys| * p.bitsPerKey;
      assert 8 * n == if bits < 64 then 64 else (bits + 7) / 8 * 8;
    }
  }

  ghost predicate FiltersOk(p: Policy, result: Bytes, offsets: seq<nat>, done: seq<seq<Bytes>>)
  {
    |done| == |offsets| && forall i :: 0 <= i < |offsets| ==> FilterAt(p, result, offsets, i, done[i])
  }

  /** The keys waiting for their filter, flattened. */
  ghost predicate PendingOk(keys: Bytes, start: seq<nat>, pending: seq<Bytes>)
  {
    && |start| == |pending| && (pending == [] ==> keys == [])
    && forall i :: 0 <= i < |start| ==>
         start[i] <= EndOf(start, |keys|, i) <= |keys| && keys[start[i]..EndOf(start, |keys|, i)] == pending[i]
  }

  lemma MoreFilters(p: Policy, result: Bytes, offsets: seq<nat>, done: seq<seq<Bytes>>,
                    filter: Bytes, keys: seq<Bytes>)
    requires FiltersOk(p, result, offsets, done) && MadeFor(p, keys, filter)
    ensures FiltersOk(p, result + filter, offsets + [|result|], done + [keys])
  {
    hide MadeFor;
    var more, all := result + filter, offsets + [|result|];
    forall i | 0 <= i < |all| ensures FilterAt(p, more, all, i, (done + [keys])[i]) {
      if i < |offsets| {
        assert FilterAt(p, result, offsets, i, done[i]);
        assert EndOf(all, |more|, i) == EndOf(offsets, |result|, i);
        assert more[all[i]..EndOf(all, |more|, i)] == result[offsets[i]..EndOf(offsets, |result|, i)];
      } else {
        assert more[|result|..|more|] == filter;
      }
    }
  }

  class FilterBlockBuilder {
    const hash: Hash
    const bitsPerKey: nat
    const k: Byte
    var keys: Bytes
    var start: seq<nat>
    var result: Bytes
    var filterOffsets: seq<nat>
    ghost var done: seq<seq<Bytes>>
    ghost var pending: seq<Bytes>

    ghost predicate Valid()
      reads this
    {
      1 <= k <= 30 && PendingOk(keys, start, pending)
      && FiltersOk(Policy(hash, bitsPerKey, k), result, filterOffsets, done)
    }

    /** The keys that filter number i must answer for. */
    ghost function KeysAt(i: nat): seq<Bytes>
      reads this
    {
      if i < |done| then done[i] else if i == |done| then pending else []
    }

    /** How many filters the finished block will hold. */
    function Filters(): nat
      reads this
    {
      |filterOffsets| + if |start| > 0 then 1 else 0
    }

    lemma RangesCounted(i: nat)
      requires Valid() && KeysAt(i) != []
      ensures i < Filters()
    {}

    constructor (hash: Hash, bitsPerKey: nat, k: Byte)
      requires 1 <= k <= 30
      ensures Valid() && this.hash == hash && filterOffsets == [] && forall i: nat :: KeysAt(i) == []
    {
      this.hash, this.bitsPerKey, this.k := hash, bitsPerKey, k;
      keys, start, result, filterOffsets, done, pending := [], [], [], [], [], [];
    }

    method AddKey(key: Bytes)
      requires Valid()
      modifies this`keys, this`start, this`pending
      ensures Valid() && forall i: nat :: KeysAt(i) == old(KeysAt(i)) + (if i == |filterOffsets| then [key] else [])
    {
      FlatMore(keys, start, pending, key);
      start := start + [|keys|];
      keys := keys + key;
      pending := pending + [key];
    }

    method GenerateFilter()
      requires Valid()
      modifies this`keys, this`start, this`result, this`filterOffsets, this`done, this`pending
      ensures Valid() && |filterOffsets| == |old(filterOffsets)| + 1 && pending == []
      ensures forall i: nat :: KeysAt(i) == old(KeysAt(i))
    {
      hide PendingOk, FiltersOk, IsFilter;
      ghost var p := Policy(hash, bitsPerKey, k);
      if |start| == 0 {
        NonePending(keys, start, pending);
        MoreFilters(p, result, filterOffsets, done, [], []);
        assert result + [] == result;
        filterOffsets := filterOffsets + [|result|];
        done := done + [[]];
      } else {
        var list := PendingKeys();
        var filter := CreateFilter(hash, bitsPerKey, k, list);
        SomePending(keys, start, pending);
        MoreFilters(p, result, filterOffsets, done, filter, pending);
        NonePending([], [], []);
        filterOffsets := filterOffsets + [|result|];
        result := result + filter;
        done := done + [pending];
        keys, start, pending := [], [], [];
      }
    }

    /** The list of keys, from their flattened form. */
    method PendingKeys() returns (list: seq<Bytes>)
      requires Valid()
      ensures list == pending
    {
      assert |start| == |pending|;
      hide FiltersOk, PendingOk;
      var all := start + [|keys|];
      list := [];
      for i := 0 to |start|
        invariant list == pending[..i]
      {
        PieceAt(keys, start, pending, i);
        assert pending[..i + 1] == pending[..i] + [pending[i]];
        list := list + [keys[all[i]..all[i + 1]]];
      }
      assert pending[..|pending|] == pending;
    }

    method StartBlock(offset: nat)
      requires Valid() && |filterOffsets| <= offset / BASE
      modifies this`keys, this`start, this`result, this`filterOffsets, this`done, this`pending
      ensures Valid() && |filterOffsets| == offset / BASE && forall i: nat :: KeysAt(i) == old(KeysAt(i))
    {
      while offset / BASE > |filterOffsets|
        invariant Valid() && |filterOffsets| <= offset / BASE && forall i: nat :: KeysAt(i) == old(KeysAt(i))
      {
        GenerateFilter();
      }
    }

    /** Appends the offsets of the filters, where that array begins, and the base. */
    method Finish() returns (contents: Bytes)
      requires Valid()
      modifies this`keys, this`start, this`result, this`filterOffsets, this`done, this`pending
      ensures |contents| < LIMIT ==>
                forall offset: nat, key :: key in old(KeysAt(offset / 2048)) ==>
                    BlockMayMatch(hash, contents, offset, key)
      ensures |contents| < LIMIT ==>
                forall offset: nat, key ::
                  BlockMayMatch(hash, contents, offset, key) <==>
                    || offset / 2048 >= old(Filters())
                    || CoveredBy(Policy(hash, bitsPerKey, k), old(KeysAt(offset / 2048)), key)
    {
      if |start| > 0 {
        GenerateFilter();
      }
      NonePendingIf(keys, start, pending);
      forall i: nat { CoversItself(Policy(hash, bitsPerKey, k), KeysAt(i)); }
      hide PendingOk, FiltersOk, MayMatch, BlockMayMatch, CoveredBy;
      FinishedOk(Policy(hash, bitsPerKey, k), result, filterOffsets, done);
      var end, offsets := |result|, filterOffsets;
      ghost var filters, low := result, Low(offsets);
      contents := result;
      for i := 0 to |offsets|
        invariant contents == filters + FixedAll(low[..i])
      {
        assert low[..i + 1][..i] == low[..i];
        contents := contents + Fixed32(offsets[i] % LIMIT);
      }
      assert low[..|low|] == low;
      contents := contents + Fixed32(end % LIMIT) + [BASE_LG];
      result := contents;
    }
  }

  lemma PieceAt(keys: Bytes, start: seq<nat>, pending: seq<Bytes>, i: nat)
    requires PendingOk(keys, start, pending) && i < |start|
    ensures var all := start + [|keys|]; all[i] <= all[i + 1] <= |keys| && keys[all[i]..all[i + 1]] == pending[i]
  {}

  lemma NonePending(keys: Bytes, start: seq<nat>, pending: seq<Bytes>)
    requires start == [] && (PendingOk(keys, start, pending) || (keys == [] && pending == []))
    ensures pending == [] && keys == [] && PendingOk(keys, start, pending)
  {}

  lemma SomePending(keys: Bytes, start: seq<nat>, pending: seq<Bytes>)
    requires start != [] && PendingOk(keys, start, pending)
    ensures pending != []
  {}

  lemma NonePendingIf(keys: Bytes, start: seq<nat>, pending: seq<Bytes>)
    requires PendingOk(keys, start, pending)
    ensures start == [] ==> pending == []
  {}

  lemma FlatMore(keys: Bytes, start: seq<nat>, pending: seq<Bytes>, key: Bytes)
    requires PendingOk(keys, start, pending)
    ensures PendingOk(keys + key, start + [|keys|], pending + [key])
  {}

  // ---------- reading ----------

  datatype Reader = Reader(data: Bytes, offsetStart: nat, num: nat, baseLg: Byte)

  /** FilterBlockReader: num is 0 for contents that cannot be a filter block. */
  function Open(contents: Bytes): (r: Reader)
    ensures r.data == contents && (r.num > 0 ==> r.offsetStart + 4 * r.num + 5 <= |contents|)
  {
    var n := |contents|;
    if n < 5 then Reader(contents, 0, 0, 0)
    else
      var lastWord := DecodeFixed32(contents[n - 5..]);
      if lastWord > n - 5 then Reader(contents, 0, 0, contents[n - 1])
      else Reader(contents, lastWord, (n - 5 - lastWord) / 4, contents[n - 1])
  }

  /** offset >> lg. */
  function Shift(offset: nat, lg: nat): nat
  {
    if lg == 0 then offset else Shift(offset, lg - 1) / 2
  }

  ghost predicate BlockMayMatch(hash: Hash, contents: Bytes, offset: nat, key: Bytes)
  {
    var r := Open(contents);
    var index := Shift(offset, r.baseLg);
    index < r.num ==>
      var start := DecodeFixed32(contents[r.offsetStart + 4 * index..]);
      var limit := DecodeFixed32(contents[r.offsetStart + 4 * index + 4..]);
      if start <= limit <= r.offsetStart then MayMatch(hash, key, contents[start..limit]) else start != limit
  }

  lemma ShiftIs(offset: nat)
    ensures Shift(offset, BASE_LG) == offset / BASE
  {
    assert Shift(offset, 1) == offset / 2 && Shift(offset, 2) == offset / 4 && Shift(offset, 3) == offset / 8;
    assert Shift(offset, 4) == offset / 16 && Shift(offset, 5) == offset / 32 && Shift(offset, 6) == offset / 64;
    assert Shift(offset, 7) == offset / 128 && Shift(offset, 8) == offset / 256 && Shift(offset, 9) == offset / 512;
    assert Shift(offset, 10) == offset / 1024;
  }

  function Finished(result: Bytes, offsets: seq<nat>): Bytes
  {
    result + FixedAll(Low(offsets)) + Fixed32(|result| % LIMIT) + [BASE_LG]
  }

  lemma FinishedOpens(result: Bytes, offsets: seq<nat>)
    requires |Finished(result, offsets)| < LIMIT
    ensures Open(Finished(result, offsets)) == Reader(Finished(result, offsets), |result|, |offsets|, BASE_LG)
  {
    hide Fixed32, DecodeFixed32, FixedAll;
    var contents := Finished(result, offsets);
    var n := |contents|;
    assert contents[n - 5..] == Fixed32(|result|) + [BASE_LG];
    Fixed32RoundTrip(|result|, [BASE_LG]);
  }

  lemma WordAt(result: Bytes, offsets: seq<nat>, i: nat)
    requires |Finished(result, offsets)| < LIMIT && i <= |offsets|
    requires forall j :: 0 <= j < |offsets| ==> offsets[j] < LIMIT
    ensures DecodeFixed32(Finished(result, offsets)[|result| + 4 * i..]) == (offsets + [|result|])[i]
  {
    hide Fixed32, DecodeFixed32;
    var contents, words := Finished(result, offsets), offsets + [|result|];
    assert Low(offsets) == offsets && words[..|offsets|] == offsets;
    assert contents[|result| + 4 * i..] == (FixedAll(words) + [BASE_LG])[4 * i..];
    FixedAllAt(words, i, [BASE_LG]);
  }

  /** A finished filter block says yes exactly for the keys that the filter of the range covers, and for every key of a
      range that has no filter. */
  lemma FinishedOk(p: Policy, result: Bytes, offsets: seq<nat>, done: seq<seq<Bytes>>)
    requires FiltersOk(p, result, offsets, done) && p.k <= 30
    ensures |Finished(result, offsets)| < LIMIT ==>
      forall offset: nat, key ::
        BlockMayMatch(p.hash, Finished(result, offsets), offset, key) <==>
          offset / BASE >= |done| || CoveredBy(p, done[offset / BASE], key)
  {
    hide BlockMayMatch, CoveredBy, FilterAt;
    var contents := Finished(result, offsets);
    if |contents| < LIMIT {
      forall offset: nat, key
        ensures BlockMayMatch(p.hash, contents, offset, key) <==>
                  offset / BASE >= |done| || CoveredBy(p, done[offset / BASE], key)
      {
        ShiftIs(offset);
        if offset / BASE < |done| {
          OneAnswer(p, result, offsets, done, offset, offset / BASE, key);
        } else {
          NoAnswer(p, result, offsets, offset, key);
        }
      }
    }
  }

  lemma NoAnswer(p: Policy, result: Bytes, offsets: seq<nat>, offset: nat, key: Bytes)
    requires |Finished(result, offsets)| < LIMIT && Shift(offset, BASE_LG) >= |offsets|
    ensures BlockMayMatch(p.hash, Finished(result, offsets), offset, key)
  {
    FinishedOpens(result, offsets);
    hide Finished, Open, Shift;
  }

  lemma OneAnswer(p: Policy, result: Bytes, offsets: seq<nat>, done: seq<seq<Bytes>>, offset: nat, i: nat, key: Bytes)
    requires FiltersOk(p, result, offsets, done) && p.k <= 30 && |Finished(result, offsets)| < LIMIT
    requires i < |done| && Shift(offset, BASE_LG) == i
    ensures BlockMayMatch(p.hash, Finished(result, offsets), offset, key) <==> CoveredBy(p, done[i], key)
  {
    hide MadeFor, Fixed32, DecodeFixed32, Shift, Open, MayMatch, CoveredBy;
    var contents, end := Finished(result, offsets), EndOf(offsets, |result|, i);
    assert FilterAt(p, result, offsets, i, done[i]);
    MadeExactly(p, done[i], result[offsets[i]..end], key);
    forall j | 0 <= j < |offsets| ensures offsets[j] < LIMIT { assert FilterAt(p, result, offsets, j, done[j]); }
    assert contents[offsets[i]..end] == result[offsets[i]..end];
    hide Finished, FiltersOk, FilterAt;
    FinishedOpens(result, offsets);
    WordAt(result, offsets, i);
    WordAt(result, offsets, i + 1);
  }

  lemma CoversItself(p: Policy, keys: seq<Bytes>)
    ensures forall key :: key in keys ==> CoveredBy(p, keys, key)
  {}

  /** FilterBlockReader::KeyMayMatch. */
  method BlockKeyMayMatch(hash: Hash, contents: Bytes, offset: nat, key: Bytes) returns (may: bool)
    ensures may <==> BlockMayMatch(hash, contents, offset, key)
  {
    var r := Open(contents);
    var index := Shift(offset, r.baseLg);
    if index < r.num {
      var start := DecodeFixed32(contents[r.offsetStart + 4 * index..]);
      var limit := DecodeFixed32(contents[r.offsetStart + 4 * index + 4..]);
      if start <= limit <= r.offsetStart {
        may := KeyMayMatch(hash, key, contents[start..limit]);
        return;
      } else if start == limit {
        return false;
      }
    }
    return true;
  }
}
