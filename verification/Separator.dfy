/** Shortened index keys: bytewise separators and successors, and their internal-key forms
    (util/comparator.cc, db/dbformat.cc). */
module Separator {
  import opened Keys
  import opened Coding

  predicate UserLess(a: Bytes, b: Bytes)
  {
    BytewiseCompare(a, b) < 0
  }

  /** UserLess is a strict total order. */
  lemma UserOrder(a: Bytes, b: Bytes, c: Bytes)
    ensures UserLess(a, b) && UserLess(b, c) ==> UserLess(a, c)
    ensures !UserLess(a, a)
    ensures UserLess(a, b) || a == b || UserLess(b, a)
    ensures UserLess(a, b) ==> a != b && !UserLess(b, a)
  {
    RankPreservesOrder(a, b);
    RankPreservesOrder(b, c);
    RankPreservesOrder(a, c);
    RankPreservesOrder(b, a);
    RankPreservesOrder(a, a);
  }

  lemma {:induction false} DifferAt(a: Bytes, b: Bytes, i: nat)
    requires i < |a| && i < |b| && a[..i] == b[..i] && a[i] < b[i]
    ensures UserLess(a, b)
  {
    if i > 0 {
      assert a[0] == a[..i][0] == b[..i][0] == b[0];
      assert a[1..][..i - 1] == a[..i][1..] && b[1..][..i - 1] == b[..i][1..];
      DifferAt(a[1..], b[1..], i - 1);
    }
  }

  /** The key cut after position d, with the byte there one higher. */
  function Stepped(key: Bytes, d: nat): (r: Bytes)
    requires d < |key| && key[d] < 255
    ensures |r| == d + 1 && r[..d] == key[..d] && r[d] == key[d] + 1
  {
    var byte: int := key[d];
    key[..d] + [byte + 1]
  }

  lemma DifferOnce(a: Bytes, b: Bytes, d: nat, e: nat)
    requires d < |a| && d < |b| && a[..d] == b[..d] && a[d] != b[d]
    requires e < |a| && e < |b| && a[..e] == b[..e] && a[e] != b[e]
    ensures d == e
  {
    forall i ensures i < d && i < |a| && 0 <= i ==> a[i] == b[i] { assert 0 <= i < d ==> a[..d][i] == b[..d][i]; }
    forall i ensures i < e && i < |a| && 0 <= i ==> a[i] == b[i] { assert 0 <= i < e ==> a[..e][i] == b[..e][i]; }
  }

  lemma DifferApart(a: Bytes, b: Bytes, d: nat)
    requires d < |a| && d < |b| && a[d] != b[d]
    ensures !(a <= b) && !(b <= a)
  {}

  /** The bytewise FindShortestSeparator: the key itself, or something shorter strictly between. */
  method FindShortestSeparator(start: Bytes, limit: Bytes) returns (sep: Bytes)
    ensures |sep| <= |start| && (sep == start || (UserLess(start, sep) && UserLess(sep, limit)))
    ensures start <= limit || limit <= start ==> sep == start
    ensures forall d :: 0 <= d < |start| && d < |limit| && start[..d] == limit[..d] && start[d] != limit[d] ==>
              sep == if start[d] < 255 && start[d] + 1 < limit[d] then Stepped(start, d) else start
  {
    sep := start;
    var diff := 0;
    while diff < |start| && diff < |limit| && start[diff] == limit[diff]
      invariant diff <= |start| && diff <= |limit| && start[..diff] == limit[..diff]
    {
      diff := diff + 1;
    }
    if diff < |start| && diff < |limit| {
      forall d | 0 <= d < |start| && d < |limit| && start[..d] == limit[..d] && start[d] != limit[d] ensures d == diff {
        DifferOnce(start, limit, d, diff);
      }
      var byte: int := start[diff];
      if byte < 0xff && byte + 1 < limit[diff] {
        sep := start[..diff] + [byte + 1];
        assert sep[..diff] == start[..diff];
        DifferAt(start, sep, diff);
        DifferAt(sep, limit, diff);
        assert sep == Stepped(start, diff);
      }
      DifferApart(start, limit, diff);
    } else {
      forall d | 0 <= d < |start| && d < |limit| ensures start[d] == limit[d] {
        assert start[..diff][d] == limit[..diff][d];
      }
    }
  }

  /** The bytewise FindShortSuccessor: the key itself, or something after it. */
  method FindShortSuccessor(key: Bytes) returns (succ: Bytes)
    ensures |succ| <= |key| && (succ == key || UserLess(key, succ))
    ensures (forall j :: 0 <= j < |key| ==> key[j] == 255) ==> succ == key
    ensures forall i :: 0 <= i < |key| && key[i] < 255 && (forall j :: 0 <= j < i ==> key[j] == 255) ==>
              succ == Stepped(key, i)
  {
    for i := 0 to |key|
      invariant forall j :: 0 <= j < i ==> key[j] == 255
    {
      var byte: int := key[i];
      if byte != 0xff {
        succ := key[..i] + [byte + 1];
        assert succ[..i] == key[..i];
        DifferAt(key, succ, i);
        return;
      }
    }
    return key;
  }

  // ---------- internal keys as bytes ----------

  /** ExtractUserKey; only keys with a trailer are ever passed. */
  function User(key: Bytes): Bytes
  {
    if |key| < 8 then [] else key[..|key| - 8]
  }

  function Trailer(key: Bytes): nat
  {
    if |key| < 8 then 0
    else DecodeFixed32(key[|key| - 8..]) + LIMIT * DecodeFixed32(key[|key| - 4..])
  }

  /** InternalKeyComparator: user key ascending, trailer descending. */
  predicate InternalLess(a: Bytes, b: Bytes)
  {
    UserLess(User(a), User(b)) || (User(a) == User(b) && Trailer(a) > Trailer(b))
  }

  lemma InternalOrder(a: Bytes, b: Bytes, c: Bytes)
    ensures InternalLess(a, b) && InternalLess(b, c) ==> InternalLess(a, c)
    ensures !InternalLess(a, a)
    ensures InternalLess(a, b) ==> !InternalLess(b, a)
    ensures InternalLess(a, b) && !InternalLess(c, b) ==> InternalLess(a, c)
    ensures !InternalLess(b, a) && InternalLess(b, c) ==> InternalLess(a, c)
  {
    hide UserLess, Trailer;
    UserOrder(User(a), User(b), User(c));
    UserOrder(User(b), User(c), User(a));
    UserOrder(User(b), User(a), User(c));
  }

  /** The packed trailer of the largest sequence number and kTypeValue. */
  const SEEK_TRAILER: Bytes := [1, 255, 255, 255, 255, 255, 255, 255]

  /** What the index may hold instead of the last key of a block. */
  predicate IsSeparator(start: Bytes, limit: Bytes, sep: Bytes)
  {
    sep == start || (UserLess(User(start), User(sep)) && UserLess(User(sep), User(limit)))
  }

  method InternalSeparator(start: Bytes, limit: Bytes) returns (sep: Bytes)
    ensures IsSeparator(start, limit, sep) && |sep| <= |start| + 8
    ensures var a, b := User(start), User(limit);
      && (a <= b || b <= a ==> sep == start)
      && forall d :: 0 <= d < |a| && d < |b| && a[..d] == b[..d] && a[d] != b[d] ==>
           sep == if a[d] < 255 && a[d] + 1 < b[d] && d + 1 < |a|
                  then Stepped(a, d) + [1, 255, 255, 255, 255, 255, 255, 255] else start
  {
    var user := User(start);
    var tmp := FindShortestSeparator(user, User(limit));
    if |tmp| < |user| && BytewiseCompare(user, tmp) < 0 {
      sep := tmp + SEEK_TRAILER;
      assert User(sep) == tmp;
    } else {
      sep := start;
    }
  }

  method InternalSuccessor(key: Bytes) returns (succ: Bytes)
    ensures (succ == key || UserLess(User(key), User(succ))) && |succ| <= |key| + 8
    ensures var a := User(key);
      && ((forall j :: 0 <= j < |a| ==> a[j] == 255) ==> succ == key)
      && forall i :: 0 <= i < |a| && a[i] < 255 && (forall j :: 0 <= j < i ==> a[j] == 255) ==>
           succ == if i + 1 < |a| then Stepped(a, i) + [1, 255, 255, 255, 255, 255, 255, 255] else key
  {
    var user := User(key);
    var tmp := FindShortSuccessor(user);
    if |tmp| < |user| && BytewiseCompare(user, tmp) < 0 {
      succ := tmp + SEEK_TRAILER;
      assert User(succ) == tmp;
    } else {
      succ := key;
    }
  }
}
