/** Keys and entries of the store, and the versioned-map meaning of a set of entries
    (db/dbformat.h, db/dbformat.cc, util/comparator.cc).

    User keys are reals.  A comparator is a total order on the countable set of byte strings,
    so it embeds into the reals; RankPreservesOrder gives the embedding for the bytewise one.
    Every theorem over all reals therefore holds for every comparator. */
module Keys {

  // ---------- user keys ----------

  type UserKey = real

  type Byte = x: int | 0 <= x < 256

  /** The bytewise comparator: memcmp on the common prefix, then length. */
  function BytewiseCompare(a: seq<Byte>, b: seq<Byte>): int
  {
    if a == [] then (if b == [] then 0 else -1)
    else if b == [] then 1
    else if a[0] != b[0] then a[0] - b[0]
    else BytewiseCompare(a[1..], b[1..])
  }

  /** Reads the bytes as digits 1..256 after the point, in base 257. */
  function Rank(s: seq<Byte>): UserKey
  {
    if s == [] then 0.0 else (s[0] as real + 1.0 + Rank(s[1..])) / 257.0
  }

  lemma {:induction false} RankBounds(s: seq<Byte>)
    ensures 0.0 <= Rank(s) < 1.0
    ensures s != [] ==> 0.0 < Rank(s)
  {
    if s == [] {
    } else {
      RankBounds(s[1..]);
    }
  }

  lemma {:induction false} RankPreservesOrder(a: seq<Byte>, b: seq<Byte>)
    ensures BytewiseCompare(a, b) < 0 <==> Rank(a) < Rank(b)
    ensures BytewiseCompare(a, b) == 0 <==> Rank(a) == Rank(b)
    ensures Rank(a) == Rank(b) <==> a == b
  {
    RankBounds(a);
    RankBounds(b);
    if a == [] || b == [] {
    } else {
      RankBounds(a[1..]);
      RankBounds(b[1..]);
      RankPreservesOrder(a[1..], b[1..]);
      assert a == [a[0]] + a[1..] && b == [b[0]] + b[1..];
    }
  }

  // ---------- internal keys ----------

  datatype Option<+T> = None | Some(value: T)

  datatype ValueType = Deletion | Value

  const MAX_SEQUENCE: nat := 0xFF_FFFF_FFFF_FFFF

  datatype InternalKey = InternalKey(user: UserKey, sequence: nat, kind: ValueType) {
    /** The packed trailer: the sequence number above eight bits of type. */
    function Tag(): nat { 256 * sequence + (if kind.Deletion? then 0 else 1) }
  }

  /** Internal keys: user key ascending, packed trailer descending. */
  predicate Before(a: InternalKey, b: InternalKey)
  {
    a.user < b.user || (a.user == b.user && a.Tag() > b.Tag())
  }

  /** The key that sorts before exactly the entries of `user` visible at `snapshot`. */
  function LookupKey(user: UserKey, snapshot: nat): InternalKey
  {
    InternalKey(user, snapshot, Value)
  }

  // ---------- entries ----------

  datatype Entry = Entry(key: InternalKey, value: string)

  predicate SortedTable(t: seq<Entry>)
  {
    forall i, j :: 0 <= i < j < |t| ==> Before(t[i].key, t[j].key)
  }

  /** No two entries share a user key and a sequence number. */
  ghost predicate Distinct(E: set<Entry>)
  {
    forall e, d :: e in E && d in E && e.key.user == d.key.user && e.key.sequence == d.key.sequence ==> e == d
  }

  ghost function Elements(t: seq<Entry>): set<Entry>
  {
    set e | e in t
  }

  // ---------- meaning: a versioned map ----------

  predicate Visible(e: Entry, user: UserKey, snapshot: nat)
  {
    e.key.user == user && e.key.sequence <= snapshot
  }

  ghost predicate IsNewest(E: set<Entry>, user: UserKey, snapshot: nat, e: Entry)
  {
    && e in E && Visible(e, user, snapshot)
    && forall d :: d in E && Visible(d, user, snapshot) ==> d.key.sequence <= e.key.sequence
  }

  /** The newest entry of `user` whose sequence number is at most `snapshot`. */
  ghost function Newest(E: set<Entry>, user: UserKey, snapshot: nat): (r: Option<Entry>)
    ensures r.None? ==> forall e :: e in E ==> !Visible(e, user, snapshot)
    ensures r.Some? ==> IsNewest(E, user, snapshot, r.value)
  {
    var visible := set e | e in E && Visible(e, user, snapshot);
    assert forall e :: e in E && Visible(e, user, snapshot) ==> e in visible;
    if visible == {} then None
    else
      var m := NewestExists(visible);
      Some(m)
  }

  ghost function NewestExists(V: set<Entry>): (m: Entry)
    requires V != {}
    ensures m in V && forall x :: x in V ==> x.key.sequence <= m.key.sequence
  {
    var x :| x in V;
    if V == {x} then x
    else
      assert V == (V - {x}) + {x};
      var m := NewestExists(V - {x});
      if x.key.sequence <= m.key.sequence then m else x
  }

  lemma NewestIs(E: set<Entry>, user: UserKey, snapshot: nat, e: Entry)
    requires Distinct(E) && IsNewest(E, user, snapshot, e)
    ensures Newest(E, user, snapshot) == Some(e)
  {}

  /** What a reader is told: the value, or nothing when the newest entry is missing or a deletion. */
  function Reading(newest: Option<Entry>): Option<string>
  {
    if newest.Some? && newest.value.key.kind.Value? then Some(newest.value.value) else None
  }

  ghost function Read(E: set<Entry>, user: UserKey, snapshot: nat): Option<string>
  {
    Reading(Newest(E, user, snapshot))
  }

  /** Every user key reads the same at every snapshot from the smallest on. */
  ghost predicate ReadsEqual(E: set<Entry>, D: set<Entry>, smallest: nat)
  {
    forall user, s: nat :: smallest <= s ==> Read(E, user, s) == Read(D, user, s)
  }

  /** Every entry of `A` was written after every entry of `B`. */
  ghost predicate Above(A: set<Entry>, B: set<Entry>)
  {
    forall e, d :: e in A && d in B ==> e.key.sequence > d.key.sequence
  }

  /** A newer layer that holds a visible entry hides everything under it. */
  lemma LayerDecides(A: set<Entry>, B: set<Entry>, user: UserKey, q: nat)
    requires Above(A, B) && Distinct(A + B)
    ensures Newest(A + B, user, q) == if Newest(A, user, q).Some? then Newest(A, user, q) else Newest(B, user, q)
  {}
}
