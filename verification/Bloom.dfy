/** The bloom filter over user keys (util/bloom.cc).  The hash is any function of the key. */
module Bloom {
  import opened Keys
  import opened Coding

  type Hash = Bytes -> U32

  // ---------- bits of a byte ----------

  predicate TestBit(b: nat, i: nat)
  {
    if i == 0 then b % 2 == 1 else TestBit(b / 2, i - 1)
  }

  function SetBit(b: nat, i: nat): nat
  {
    if i == 0 then b - b % 2 + 1 else 2 * SetBit(b / 2, i - 1) + b % 2
  }

  lemma {:induction false} SetBitSets(b: nat, i: nat, j: nat)
    ensures TestBit(SetBit(b, i), j) <==> i == j || TestBit(b, j)
  {
    if i > 0 && j > 0 {
      SetBitSets(b / 2, i - 1, j - 1);
      assert SetBit(b, i) / 2 == SetBit(b / 2, i - 1);
    } else if j > 0 {
      assert SetBit(b, 0) / 2 == b / 2;
    }
  }

  lemma {:induction false} SetBitBelow(b: nat, i: nat, n: nat)
    requires i < n && b < Pow2(n)
    ensures SetBit(b, i) < Pow2(n)
  {
    if i > 0 { SetBitBelow(b / 2, i - 1, n - 1); }
  }

  function Pow2(n: nat): (r: nat)
    ensures r > 0
  {
    if n == 0 then 1 else 2 * Pow2(n - 1)
  }

  /** Bit number p of a byte array. */
  predicate BitOf(a: seq<Byte>, p: nat)
  {
    p / 8 < |a| && TestBit(a[p / 8], p % 8)
  }

  // ---------- probes ----------

  /** Rotate right by 17 bits. */
  function Delta(h: U32): U32
  {
    h / 0x2_0000 + h % 0x2_0000 * 0x8000
  }

  /** The low 17 bits of the hash go to the top, the others down. */
  lemma DeltaRotates(h: U32)
    ensures Delta(h) / 0x8000 == h % 0x2_0000 && Delta(h) % 0x8000 == h / 0x2_0000
  {}

  /** Double hashing: the probes of a key are equally far apart. */
  lemma {:induction false} ProbeIs(h: U32, j: nat)
    ensures Probe(h, j) == (h + j * Delta(h)) % LIMIT
  {
    hide Delta;
    if j > 0 {
      ProbeIs(h, j - 1);
      var d := Delta(h);
      Wraps(h + (j - 1) * d, d);
      assert h + (j - 1) * d + d == h + j * d;
    }
  }

  lemma Wraps(x: nat, d: nat)
    ensures (x % LIMIT + d) % LIMIT == (x + d) % LIMIT
  {}

  function Probe(h: U32, j: nat): U32
  {
    if j == 0 then h else (Probe(h, j - 1) + Delta(h)) % LIMIT
  }

  /** The first k probes of a hash are all set. */
  ghost predicate Probed(a: seq<Byte>, h: U32, k: nat)
  {
    |a| > 0 && forall j :: 0 <= j < k ==> BitOf(a, Probe(h, j) % (8 * |a|))
  }

  /** What a filter answers for a key: too short, written by a newer encoding, or all probes set. */
  ghost predicate MayMatch(hash: Hash, key: Bytes, filter: Bytes)
  {
    && |filter| >= 2
    && (filter[|filter| - 1] > 30 || Probed(filter[..|filter| - 1], hash(key), filter[|filter| - 1]))
  }

  method KeyMayMatch(hash: Hash, key: Bytes, filter: Bytes) returns (r: bool)
    ensures r <==> MayMatch(hash, key, filter)
  {
    if |filter| < 2 {
      return false;
    }
    var a, k := filter[..|filter| - 1], filter[|filter| - 1];
    var bits := 8 * |a|;
    if k > 30 {
      return true;
    }
    var h: U32 := hash(key);
    var delta := Delta(h);
    for j := 0 to k
      invariant h == Probe(hash(key), j) && Probed(a, hash(key), j)
    {
      if !BitOf(a, h % bits) {
        assert !Probed(a, hash(key), k);
        return false;
      }
      h := (h + delta) % LIMIT;
    }
    return true;
  }

  method SetProbe(a: array<Byte>, p: nat)
    requires p < 8 * a.Length
    modifies a
    ensures forall q: nat :: BitOf(a[..], q) <==> q == p || old(BitOf(a[..], q))
  {
    assert Pow2(8) == 256;
    SetBitBelow(a[p / 8], p % 8, 8);
    ghost var before := a[..];
    a[p / 8] := SetBit(a[p / 8], p % 8);
    forall q: nat ensures BitOf(a[..], q) <==> q == p || BitOf(before, q) {
      if q / 8 == p / 8 { SetBitSets(before[p / 8], p % 8, q % 8); }
    }
  }

  /** The position is one of the first k probes of the hash. */
  ghost predicate ProbeOf(h: U32, k: nat, bits: nat, q: nat)
    requires bits > 0
  {
    exists j :: 0 <= j < k && q == Probe(h, j) % bits
  }

  /** All probes of one key. */
  method AddKey(a: array<Byte>, h: U32, k: nat)
    requires a.Length > 0
    modifies a
    ensures forall q: nat :: BitOf(a[..], q) <==> old(BitOf(a[..], q)) || ProbeOf(h, k, 8 * a.Length, q)
  {
    var g, delta := h, Delta(h);
    for j := 0 to k
      invariant g == Probe(h, j)
      invariant forall q: nat :: BitOf(a[..], q) <==> old(BitOf(a[..], q)) || ProbeOf(h, j, 8 * a.Length, q)
    {
      ProbesMore(h, j, 8 * a.Length);
      hide ProbeOf, BitOf;
      SetProbe(a, g % (8 * a.Length));
      g := (g + delta) % LIMIT;
    }
  }

  lemma ProbesMore(h: U32, j: nat, bits: nat)
    requires bits > 0
    ensures forall q: nat :: ProbeOf(h, j + 1, bits, q) <==> ProbeOf(h, j, bits, q) || q == Probe(h, j) % bits
  {}

  /** The filter of the keys: as many bits as asked for and at least 64, in whole bytes, and set in it exactly the
      probes of the keys; then the number of probes. */
  ghost predicate IsFilter(hash: Hash, bitsPerKey: nat, k: Byte, keys: seq<Bytes>, filter: Bytes)
  {
    var n := |filter| - 1;
    && n >= 8 && |keys| * bitsPerKey <= 8 * n && (n > 8 ==> 8 * (n - 1) < |keys| * bitsPerKey) && filter[n] == k
    && forall q: nat :: BitOf(filter[..n], q) <==> OfSomeKey(hash, k, keys, 8 * n, q)
  }

  ghost predicate OfSomeKey(hash: Hash, k: nat, keys: seq<Bytes>, bits: nat, q: nat)
    requires bits > 0
  {
    exists i :: 0 <= i < |keys| && ProbeOf(hash(keys[i]), k, bits, q)
  }

  /** The filter never misses a key it was made for. */
  lemma FilterMatches(hash: Hash, bitsPerKey: nat, k: Byte, keys: seq<Bytes>, filter: Bytes)
    requires k <= 30 && IsFilter(hash, bitsPerKey, k, keys, filter)
    ensures forall i :: 0 <= i < |keys| ==> MayMatch(hash, keys[i], filter)
  {
    var n := |filter| - 1;
    forall i, j | 0 <= i < |keys| && 0 <= j < k ensures BitOf(filter[..n], Probe(hash(keys[i]), j) % (8 * n)) {
      assert ProbeOf(hash(keys[i]), k, 8 * n, Probe(hash(keys[i]), j) % (8 * n));
    }
  }

  /** Every probe of the hash is a probe of some key. */
  ghost predicate Covered(hash: Hash, k: nat, keys: seq<Bytes>, bits: nat, h: U32)
    requires bits > 0
  {
    forall j :: 0 <= j < k ==> OfSomeKey(hash, k, keys, bits, Probe(h, j) % bits)
  }

  lemma ProbedIs(hash: Hash, k: nat, keys: seq<Bytes>, a: seq<Byte>, h: U32)
    requires |a| > 0 && forall q: nat :: BitOf(a, q) <==> OfSomeKey(hash, k, keys, 8 * |a|, q)
    ensures Probed(a, h, k) <==> Covered(hash, k, keys, 8 * |a|, h)
  {
    hide BitOf, OfSomeKey, Probe;
  }

  /** A key is let through exactly when each of its probes is a probe of some key of the filter. */
  lemma MatchesExactly(hash: Hash, bitsPerKey: nat, k: Byte, keys: seq<Bytes>, filter: Bytes, key: Bytes)
    requires k <= 30 && IsFilter(hash, bitsPerKey, k, keys, filter)
    ensures MayMatch(hash, key, filter) <==> Covered(hash, k, keys, 8 * (|filter| - 1), hash(key))
  {
    hide Covered, BitOf, OfSomeKey, Probed;
    var a := filter[..|filter| - 1];
    ProbedIs(hash, k, keys, a, hash(key));
  }

  /** CreateFilter. */
  method CreateFilter(hash: Hash, bitsPerKey: nat, k: Byte, keys: seq<Bytes>) returns (filter: Bytes)
    requires 1 <= k <= 30
    ensures IsFilter(hash, bitsPerKey, k, keys, filter)
    ensures forall i :: 0 <= i < |keys| ==> MayMatch(hash, keys[i], filter)
  {
    var bits := |keys| * bitsPerKey;
    if bits < 64 {
      bits := 64;
    }
    var a := new Byte[(bits + 7) / 8](_ => 0);
    NoBits(a[..]);
    hide ProbeOf, BitOf, MayMatch;
    for i := 0 to |keys|
      invariant forall q: nat :: BitOf(a[..], q) <==>
                  exists j :: 0 <= j < i && ProbeOf(hash(keys[j]), k, 8 * a.Length, q)
    {
      AddKey(a, hash(keys[i]), k);
    }
    filter := a[..] + [k];
    assert filter[..|filter| - 1] == a[..];
    FilterMatches(hash, bitsPerKey, k, keys, filter);
  }

  lemma {:induction false} NoBit(i: nat)
    ensures !TestBit(0, i)
  {
    if i > 0 { NoBit(i - 1); }
  }

  lemma NoBits(a: seq<Byte>)
    requires forall i :: 0 <= i < |a| ==> a[i] == 0
    ensures forall q: nat :: !BitOf(a, q)
  {
    forall q: nat ensures !BitOf(a, q) { NoBit(q % 8); }
  }
}
