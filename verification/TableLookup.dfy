/** A table file answers as the lookup over entries assumes: the separators, the blocks and the filter on the one
    side, the newest visible entry on the other (table/table.cc, db/version_set.cc). */
module TableLookup {
  import opened Keys
  import opened Coding
  import opened Separator
  import opened Bytewise
  import opened Block
  import opened Bloom
  import opened Table
  import opened Lookup

  function EntryOf(kv: KV): Entry
  {
    Entry(KeyOf(kv.key), Text(kv.value))
  }

  /** What the blocks of a table stand for. */
  ghost function TableEntries(blocks: seq<DataBlock>): set<Entry>
  {
    set i, e | 0 <= i < |blocks| && e in blocks[i].entries :: EntryOf(e)
  }

  ghost predicate KeysParse(blocks: seq<DataBlock>)
  {
    forall e :: InTable(blocks, e) ==> Parses(e.key)
  }

  lemma StandsFor(blocks: seq<DataBlock>, e: KV)
    requires InTable(blocks, e)
    ensures EntryOf(e) in TableEntries(blocks)
  {}

  lemma ComesFrom(blocks: seq<DataBlock>, d: Entry) returns (e: KV)
    requires d in TableEntries(blocks)
    ensures InTable(blocks, e) && EntryOf(e) == d
  {
    var i, kv :| 0 <= i < |blocks| && kv in blocks[i].entries && EntryOf(kv) == d;
    e := kv;
  }

  /** An entry of the user key is at or after the lookup key exactly when the snapshot sees it. */
  lemma VisibleFrom(user: Bytes, snapshot: nat, e: KV)
    requires snapshot < MAX_SEQUENCE && Parses(e.key)
    ensures User(e.key) == user ==> (Visible(EntryOf(e), Rank(user), snapshot) <==>
            !InternalLess(e.key, SeekKey(user, snapshot)))
    ensures Visible(EntryOf(e), Rank(user), snapshot) ==> User(e.key) == user
  {
    SeekKeyIs(user, snapshot);
    KeyOrder(e.key, SeekKey(user, snapshot));
    RankPreservesOrder(User(e.key), user);
  }

  /** There is a first entry at or after k as soon as there is one at all. */
  lemma {:induction false} FirstExists(blocks: seq<DataBlock>, k: Bytes, n: nat, d: KV) returns (e: KV)
    requires WellIndexed(blocks) && n <= |blocks| && InTable(blocks, d) && !InternalLess(d.key, k)
    requires forall j, q :: 0 <= j < n && 0 <= q < |blocks[j].entries| ==> InternalLess(blocks[j].entries[q].key, k)
    ensures IsFirst(blocks, k, e)
    decreases |blocks| - n
  {
    var j, q := Place(blocks, d);
    assert n <= j;
    var p := LowerBoundExists(blocks[n].entries, k, 0);
    if p == |blocks[n].entries| {
      e := FirstExists(blocks, k, n + 1, d);
    } else {
      e := blocks[n].entries[p];
      FirstHere(blocks, k, n, p);
    }
  }

  lemma FirstHere(blocks: seq<DataBlock>, k: Bytes, n: nat, p: nat)
    requires WellIndexed(blocks) && n < |blocks| && p < |blocks[n].entries|
    requires IsLowerBound(InternalLess, blocks[n].entries, k, p)
    requires forall j, q :: 0 <= j < n && 0 <= q < |blocks[j].entries| ==> InternalLess(blocks[j].entries[q].key, k)
    ensures IsFirst(blocks, k, blocks[n].entries[p])
  {
    var e := blocks[n].entries[p];
    assert e in blocks[n].entries;
    forall d | InTable(blocks, d) && !InternalLess(d.key, k) ensures d == e || InternalLess(e.key, d.key) {
      var j, q := Place(blocks, d);
      if n < j { assert AllBefore(blocks[n].entries, blocks[j].entries); }
    }
  }

  /** The first entry at or after the lookup key is the newest visible one, if it has the user key at all. */
  lemma FirstIsNewest(blocks: seq<DataBlock>, user: Bytes, snapshot: nat, e: KV)
    requires KeysParse(blocks) && Distinct(TableEntries(blocks)) && snapshot < MAX_SEQUENCE
    requires IsFirst(blocks, SeekKey(user, snapshot), e)
    ensures Newest(TableEntries(blocks), Rank(user), snapshot) == if User(e.key) == user then Some(EntryOf(e)) else None
  {
    var E, k := TableEntries(blocks), SeekKey(user, snapshot);
    SeekKeyIs(user, snapshot);
    VisibleFrom(user, snapshot, e);
    forall d | d in E && Visible(d, Rank(user), snapshot)
      ensures User(e.key) == user && d.key.sequence <= KeyOf(e.key).sequence
    {
      var c := ComesFrom(blocks, d);
      VisibleFrom(user, snapshot, c);
      BetweenUsers(k, e.key, c.key);
      KeyOrder(e.key, c.key);
    }
    if User(e.key) == user {
      StandsFor(blocks, e);
      NewestIs(E, Rank(user), snapshot, EntryOf(e));
    }
  }

  /** What lies between two keys of a user key has that user key. */
  lemma BetweenUsers(k: Bytes, e: Bytes, c: Bytes)
    requires !InternalLess(e, k) && (e == c || InternalLess(e, c)) && User(c) == User(k)
    ensures User(e) == User(k)
  {
    UserOrder(User(k), User(e), User(c));
    UserOrder(User(e), User(c), User(k));
  }

  /** A table file asked for a user key at a snapshot, as Version::Get asks it: InternalGet, then SaveValue. */
  method GetFromTable(t: Table, hash: Hash, user: Bytes, snapshot: nat, ghost blocks: seq<DataBlock>)
      returns (a: Answer)
    requires TableOk(t, hash, blocks) && KeysParse(blocks) && Distinct(TableEntries(blocks)) && snapshot < MAX_SEQUENCE
    ensures a == AnswerOf(Newest(TableEntries(blocks), Rank(user), snapshot))
  {
    var k := SeekKey(user, snapshot);
    SeekKeyIs(user, snapshot);
    hide TableOk, KeysParse, Distinct, TableEntries, SeekKey, WellIndexed;
    var found := InternalGet(t, hash, k, blocks);
    if found.None? || User(found.value.key) != user {
      a := Missing;
    } else {
      var e := EntryOf(found.value);
      a := if e.key.kind.Deletion? then Deleted else Found(e.value);
    }
    if found.Some? {
      FirstIsNewest(blocks, user, snapshot, found.value);
    } else {
      NothingVisible(t, hash, blocks, user, snapshot);
    }
  }

  lemma NothingVisible(t: Table, hash: Hash, blocks: seq<DataBlock>, user: Bytes, snapshot: nat)
    requires TableOk(t, hash, blocks) && KeysParse(blocks) && Distinct(TableEntries(blocks)) && snapshot < MAX_SEQUENCE
    requires forall e :: IsFirst(blocks, SeekKey(user, snapshot), e) ==> User(e.key) != user
    ensures Newest(TableEntries(blocks), Rank(user), snapshot).None?
  {
    var n := Newest(TableEntries(blocks), Rank(user), snapshot);
    if n.Some? {
      var c := ComesFrom(blocks, n.value);
      VisibleFrom(user, snapshot, c);
      var e := FirstExists(blocks, SeekKey(user, snapshot), 0, c);
      FirstIsNewest(blocks, user, snapshot, e);
    }
  }
}
