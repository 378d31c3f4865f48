/** What keys and values as bytes stand for in the models over user keys (db/dbformat.h, db/dbformat.cc). */
module Bytewise {
  import opened Keys
  import opened Coding
  import opened Separator

  /** The internal key that bytes with a trailer stand for. */
  function KeyOf(b: Bytes): InternalKey
  {
    InternalKey(Rank(User(b)), Trailer(b) / 256, if Trailer(b) % 256 == 0 then Deletion else Value)
  }

  /** The trailer holds a known type. */
  predicate Parses(b: Bytes)
  {
    |b| >= 8 && Trailer(b) % 256 <= 1
  }

  /** Comparing internal keys as bytes is comparing what they stand for. */
  lemma KeyOrder(a: Bytes, b: Bytes)
    requires Parses(a) && Parses(b)
    ensures InternalLess(a, b) <==> Before(KeyOf(a), KeyOf(b))
  {
    RankPreservesOrder(User(a), User(b));
  }

  /** LookupKey: the user key, and the trailer of the snapshot with kValueTypeForSeek. */
  function SeekKey(user: Bytes, snapshot: nat): Bytes
    requires snapshot < MAX_SEQUENCE
  {
    var trailer := 256 * snapshot + 1;
    user + Fixed32(trailer % LIMIT) + Fixed32(trailer / LIMIT)
  }

  lemma SeekKeyIs(user: Bytes, snapshot: nat)
    requires snapshot < MAX_SEQUENCE
    ensures User(SeekKey(user, snapshot)) == user && Parses(SeekKey(user, snapshot))
    ensures KeyOf(SeekKey(user, snapshot)) == LookupKey(Rank(user), snapshot)
  {
    hide Fixed32, DecodeFixed32, Rank;
    var key, trailer := SeekKey(user, snapshot), 256 * snapshot + 1;
    var low, high := Fixed32(trailer % LIMIT), Fixed32(trailer / LIMIT);
    assert key[..|key| - 8] == user;
    assert key[|key| - 8..] == low + high && key[|key| - 4..] == high + [];
    Fixed32RoundTrip(trailer % LIMIT, high);
    Fixed32RoundTrip(trailer / LIMIT, []);
    assert Trailer(key) == trailer;
  }

  /** No larger sequence number leaves room for a type in a trailer of 64 bits. */
  lemma SequenceFits()
    ensures 256 * MAX_SEQUENCE + 255 == 0xFFFF_FFFF_FFFF_FFFF
  {}

  lemma TextIs(a: Bytes, b: Bytes)
    ensures Text(a) == Text(b) <==> a == b
  {
    if Text(a) == Text(b) {
      forall i | 0 <= i < |a| ensures a[i] == b[i] { assert Text(a)[i] == Text(b)[i]; }
    }
  }

  /** Values as strings. */
  function Text(b: Bytes): string
  {
    seq(|b|, i requires 0 <= i < |b| => b[i] as char)
  }
}
