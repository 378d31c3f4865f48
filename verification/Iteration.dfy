/** DBIter: the user-level iterator over the merged internal entries (db/db_iter.cc). */
module Iteration {
  import opened Keys
  import opened Lookup
  import opened Merger

  // ---------- what the iterator should show ----------

  predicate Seen(e: Entry, sequence: nat)
  {
    e.key.sequence <= sequence
  }

  /** Entry i is the newest visible one of its user key, and a value. */
  ghost predicate Shown(es: seq<Entry>, sequence: nat, i: int)
  {
    && 0 <= i < |es| && Seen(es[i], sequence) && es[i].key.kind.Value?
    && forall j :: 0 <= j < i && es[j].key.user == es[i].key.user ==> !Seen(es[j], sequence)
  }

  /** The live user keys with their values, in order: what a cursor over the map would walk. */
  ghost function Live(es: seq<Entry>, sequence: nat, n: nat): seq<(UserKey, string)>
    requires n <= |es|
  {
    if n == 0 then []
    else Live(es, sequence, n - 1) + if Shown(es, sequence, n - 1) then [(es[n - 1].key.user, es[n - 1].value)] else []
  }

  lemma ShownIsRead(es: seq<Entry>, sequence: nat, i: nat)
    requires SortedTable(es) && Distinct(Elements(es)) && i < |es| && Seen(es[i], sequence)
    requires forall j :: 0 <= j < i && es[j].key.user == es[i].key.user ==> !Seen(es[j], sequence)
    ensures Newest(Elements(es), es[i].key.user, sequence) == Some(es[i])
  {
    var user := es[i].key.user;
    forall j | 0 <= j < i ensures Before(es[j].key, LookupKey(user, sequence)) {
      assert Before(es[j].key, es[i].key);
    }
    SeekFindsNewest(es, user, sequence, i);
  }

  lemma ReadIsShown(es: seq<Entry>, sequence: nat, user: UserKey) returns (i: nat)
    requires SortedTable(es) && Distinct(Elements(es)) && Read(Elements(es), user, sequence).Some?
    ensures Shown(es, sequence, i) && es[i].key.user == user
  {
    var e := Newest(Elements(es), user, sequence).value;
    i :| 0 <= i < |es| && es[i] == e;
    forall j | 0 <= j < i && es[j].key.user == user ensures !Seen(es[j], sequence) {
      assert es[j] in Elements(es) && Before(es[j].key, es[i].key);
      assert Distinct(Elements(es));
    }
  }

  lemma {:induction false} LiveMember(es: seq<Entry>, sequence: nat, n: nat, x: (UserKey, string))
    requires n <= |es|
    ensures x in Live(es, sequence, n) <==>
              exists i :: 0 <= i < n && Shown(es, sequence, i) && x == (es[i].key.user, es[i].value)
  {
    if n == 0 {
    } else {
      LiveMember(es, sequence, n - 1, x);
    }
  }

  /** The list is the sorted map of the readings at the snapshot. */
  lemma LiveIsTheMap(es: seq<Entry>, sequence: nat, user: UserKey, value: string)
    requires SortedTable(es) && Distinct(Elements(es))
    ensures (user, value) in Live(es, sequence, |es|) <==> Read(Elements(es), user, sequence) == Some(value)
  {
    LiveMember(es, sequence, |es|, (user, value));
    if Read(Elements(es), user, sequence) == Some(value) {
      var i := ReadIsShown(es, sequence, user);
      ShownIsRead(es, sequence, i);
    }
    if i :| 0 <= i < |es| && Shown(es, sequence, i) && (user, value) == (es[i].key.user, es[i].value) {
      ShownIsRead(es, sequence, i);
    }
  }

  lemma {:induction false} LiveSorted(es: seq<Entry>, sequence: nat, n: nat)
    requires SortedTable(es) && n <= |es|
    ensures Ascending(Live(es, sequence, n))
  {
    if n == 0 {
    } else {
      LiveSorted(es, sequence, n - 1);
      var live := Live(es, sequence, n - 1);
      forall a | 0 <= a < |live| && Shown(es, sequence, n - 1) ensures live[a].0 < es[n - 1].key.user {
        LiveMember(es, sequence, n - 1, live[a]);
        assert live[a] in live;
        var i :| 0 <= i < n - 1 && Shown(es, sequence, i) && live[a] == (es[i].key.user, es[i].value);
        assert Before(es[i].key, es[n - 1].key);
      }
      var all := Live(es, sequence, n);
      assert forall a :: 0 <= a < |live| ==> all[a] == live[a];
    }
  }

  ghost predicate Ascending(live: seq<(UserKey, string)>)
  {
    forall a, b :: 0 <= a < b < |live| ==> live[a].0 < live[b].0
  }

  /** With nothing shown in between, the position does not change. */
  lemma {:induction false} LiveGap(es: seq<Entry>, sequence: nat, a: nat, b: nat)
    requires a <= b <= |es| && forall i :: a <= i < b ==> !Shown(es, sequence, i)
    ensures Live(es, sequence, a) == Live(es, sequence, b)
  {
    if a == b {
    } else {
      LiveGap(es, sequence, a, b - 1);
    }
  }

  lemma {:induction false} LivePrefix(es: seq<Entry>, sequence: nat, a: nat, b: nat)
    requires a <= b <= |es|
    ensures Live(es, sequence, a) <= Live(es, sequence, b)
  {
    if a == b {
    } else {
      LivePrefix(es, sequence, a, b - 1);
    }
  }

  // ---------- scanning rules ----------

  /** Scanning forward from p finds the right entry: what lies behind is hidden by `skip`, and nothing visible
      ahead is below it. */
  ghost predicate ForwardReady(es: seq<Entry>, sequence: nat, p: nat, skip: Option<UserKey>)
    requires p <= |es|
  {
    && (forall j, i :: 0 <= j < p <= i < |es| && es[j].key.user == es[i].key.user && Seen(es[j], sequence) ==>
          skip.Some? && es[i].key.user <= skip.value)
    && (forall i :: p <= i < |es| && Seen(es[i], sequence) && skip.Some? ==> es[i].key.user >= skip.value)
  }

  ghost predicate Wanted(es: seq<Entry>, sequence: nat, skip: Option<UserKey>, i: int)
  {
    Shown(es, sequence, i) && (skip.Some? ==> es[i].key.user > skip.value)
  }

  /** What the forward scan knows at position q, with `now` the current skip key. */
  ghost predicate ScanAt(es: seq<Entry>, sequence: nat, p: nat, skip: Option<UserKey>, q: nat, now: Option<UserKey>)
  {
    && p <= q <= |es|
    && (forall i :: p <= i < q ==> !Wanted(es, sequence, skip, i))
    && ForwardReady(es, sequence, q, now)
    && (skip.Some? ==> now.Some? && skip.value <= now.value)
    && (forall i :: q <= i < |es| && now.Some? && es[i].key.user <= now.value ==> !Wanted(es, sequence, skip, i))
  }

  lemma ScanStart(es: seq<Entry>, sequence: nat, p: nat, skip: Option<UserKey>)
    requires p <= |es| && ForwardReady(es, sequence, p, skip)
    ensures ScanAt(es, sequence, p, skip, p, skip)
  {}

  lemma ScanHidden(es: seq<Entry>, sequence: nat, p: nat, skip: Option<UserKey>, q: nat, now: Option<UserKey>)
    requires SortedTable(es) && ScanAt(es, sequence, p, skip, q, now) && q < |es|
    requires !Seen(es[q], sequence) || (now.Some? && es[q].key.user <= now.value)
    ensures ScanAt(es, sequence, p, skip, q + 1, now)
  {}

  lemma ScanDeletion(es: seq<Entry>, sequence: nat, p: nat, skip: Option<UserKey>, q: nat, now: Option<UserKey>)
    requires SortedTable(es) && ScanAt(es, sequence, p, skip, q, now) && q < |es|
    requires Seen(es[q], sequence) && es[q].key.kind.Deletion?
    ensures ScanAt(es, sequence, p, skip, q + 1, Some(es[q].key.user))
  {}

  lemma ScanFound(es: seq<Entry>, sequence: nat, p: nat, skip: Option<UserKey>, q: nat, now: Option<UserKey>)
    requires SortedTable(es) && ScanAt(es, sequence, p, skip, q, now) && q < |es|
    requires Seen(es[q], sequence) && es[q].key.kind.Value? && !(now.Some? && es[q].key.user <= now.value)
    ensures Wanted(es, sequence, skip, q)
  {}

  /** The forward scan's decision about one entry: stop here, or go on with a skip key. */
  datatype Verdict = Stop | GoOn(skip: Option<UserKey>)

  function Judge(e: Entry, sequence: nat, now: Option<UserKey>): Verdict
  {
    if !Seen(e, sequence) then GoOn(now)
    else if e.key.kind.Deletion? then GoOn(Some(e.key.user))
    else if now.Some? && e.key.user <= now.value then GoOn(now)
    else Stop
  }

  lemma JudgeIsRight(es: seq<Entry>, sequence: nat, p: nat, skip: Option<UserKey>, q: nat, now: Option<UserKey>)
    requires SortedTable(es) && ScanAt(es, sequence, p, skip, q, now) && q < |es|
    ensures match Judge(es[q], sequence, now)
            case Stop => Wanted(es, sequence, skip, q)
            case GoOn(next) => ScanAt(es, sequence, p, skip, q + 1, next)
  {
    if Seen(es[q], sequence) && es[q].key.kind.Deletion? {
      ScanDeletion(es, sequence, p, skip, q, now);
    } else if Judge(es[q], sequence, now).Stop? {
      ScanFound(es, sequence, p, skip, q, now);
    } else {
      ScanHidden(es, sequence, p, skip, q, now);
    }
  }

  /** What the backward scan knows before looking at i, having seen everything down from q: the
      candidate c is the last visible entry met, when it was a value. */
  ghost predicate BackScan(es: seq<Entry>, sequence: nat, q: int, i: int, c: Option<nat>)
  {
    && -1 <= i <= q < |es|
    && (match c
        case None => forall r :: i < r <= q ==> !Shown(es, sequence, r)
        case Some(m) =>
          && i < m <= q && Seen(es[m], sequence) && es[m].key.kind.Value?
          && (forall r :: i < r < m ==> !Seen(es[r], sequence))
          && (forall r :: m < r <= q ==> !Shown(es, sequence, r)))
  }

  lemma BackStep(es: seq<Entry>, sequence: nat, q: int, i: int, c: Option<nat>)
    requires SortedTable(es) && BackScan(es, sequence, q, i, c) && 0 <= i
    requires Seen(es[i], sequence) && c.Some? ==> es[i].key.user >= es[c.value].key.user
    ensures BackScan(es, sequence, q, i - 1,
                     if !Seen(es[i], sequence) then c else if es[i].key.kind.Deletion? then None else Some(i))
  {}

  lemma BackFound(es: seq<Entry>, sequence: nat, q: int, i: int, m: nat)
    requires SortedTable(es) && BackScan(es, sequence, q, i, Some(m))
    requires i >= 0 ==> es[i].key.user < es[m].key.user
    ensures Shown(es, sequence, m)
  {}

  // ---------- the iterator ----------

  class DBIter {
    const iter: MergingIterator
    const sequence: nat
    var savedKey: UserKey
    var savedValue: string
    var direction: Direction
    var valid: bool
    ghost var shown: nat      // index of the entry shown, |es| when not valid

    ghost function Es(): seq<Entry>
    {
      iter.all
    }

    /** The internal position, with -1 for "before everything". */
    ghost function Below(): int
      reads iter
    {
      if iter.at < |iter.all| then iter.at else -1
    }

    ghost predicate Valid()
      reads this, iter
    {
      && iter.Valid() && SortedTable(Es()) && Distinct(Elements(Es()))
      && (if valid then Shown(Es(), sequence, shown) else shown == |Es()|)
      && (valid && direction == Forward ==> iter.at == shown)
      && (valid && direction == Reverse ==>
            && savedKey == Es()[shown].key.user && savedValue == Es()[shown].value
            && Below() < shown
            && (forall j :: Below() < j < shown ==> !Seen(Es()[j], sequence))
            && (Below() >= 0 ==> Es()[Below()].key.user < savedKey))
    }

    /** The position in the list of live keys. */
    ghost function Position(): nat
      requires shown <= |Es()|
      reads this
    {
      |Live(Es(), sequence, shown)|
    }

    ghost function Map(): seq<(UserKey, string)>
    {
      Live(Es(), sequence, |Es()|)
    }

    constructor (iter: MergingIterator, sequence: nat)
      requires iter.Valid() && Distinct(Elements(iter.all))
      ensures Valid() && !valid && this.iter == iter && this.sequence == sequence
    {
      this.iter := iter;
      this.sequence := sequence;
      savedKey, savedValue, direction, valid := 0.0, "", Forward, false;
      shown := |iter.all|;
    }

    /** Valid(): the position is inside the list of live keys. */
    predicate IsValid()
      requires Valid()
      reads this, iter
      ensures IsValid() <==> Position() < |Map()|
    {
      (if valid then LiveAt(Es(), sequence, shown); valid else valid)
    }

    /** key() and value(). */
    function Current(): (kv: (UserKey, string))
      requires Valid() && valid
      reads this, iter
      ensures Position() < |Map()| && kv == Map()[Position()]
    {
      LiveAt(Es(), sequence, shown);
      if direction == Forward then (iter.Entry().key.user, iter.Entry().value) else (savedKey, savedValue)
    }

    method FindNextUserEntry(skip: Option<UserKey>)
      requires iter.Valid() && SortedTable(Es()) && Distinct(Elements(Es()))
      requires iter.IsValid() && direction == Forward && ForwardReady(Es(), sequence, iter.at, skip)
      modifies this, iter
      ensures Valid() && direction == Forward
      ensures forall i :: old(iter.at) <= i < shown ==> !Wanted(Es(), sequence, skip, i)
      ensures valid ==> old(iter.at) <= shown && Wanted(Es(), sequence, skip, shown)
    {
      hide MergingIterator.Valid;
      valid := ScanForward(iter, sequence, skip);
      savedKey := 0.0;
      shown := iter.at;
    }

    /** Next: the following live key, whichever way the iterator was moving. */
    method Next()
      requires Valid() && valid
      modifies this, iter
      ensures Valid() && Position() == old(Position()) + 1
    {
      hide MergingIterator.Valid;
      ghost var a := shown;
      var skip := if direction == Reverse then savedKey else iter.Entry().key.user;
      if direction == Reverse {
        ReadyAbove(Es(), sequence, Below(), a);
        direction := Forward;
        StepUp(iter);
      } else {
        ReadyAt(Es(), sequence, a);
      }
      ghost var p := iter.at;
      FindNextUserEntry(Some(skip));
      NextIsOneFurther(Es(), sequence, a, p, shown);
    }

    /** FindPrevUserEntry. */
    method FindPrevUserEntry()
      requires iter.Valid() && SortedTable(Es()) && Distinct(Elements(Es())) && direction == Reverse
      modifies this, iter
      ensures Valid()
      ensures if valid then shown <= old(Below()) else true
      ensures forall r :: (if valid then shown < r else 0 <= r) && r <= old(Below()) ==> !Shown(Es(), sequence, r)
    {
      hide MergingIterator.Valid;
      var saved;
      ghost var m;
      saved, m := ScanBackward(iter, sequence);
      if saved.None? {
        valid, savedKey, savedValue, direction := false, 0.0, "", Forward;
        shown := |Es()|;
      } else {
        valid, savedKey, savedValue := true, saved.value.key.user, saved.value.value;
        shown := m;
      }
    }

    /** Prev: the preceding live key, whichever way the iterator was moving. */
    method Prev()
      requires Valid() && valid
      modifies this, iter
      ensures Valid() && Position() == if old(Position()) == 0 then |Map()| else old(Position()) - 1
    {
      hide MergingIterator.Valid, Newest, SortedTable;
      ghost var a := shown;
      if direction == Forward {
        savedKey := iter.Entry().key.user;
        StepBefore(iter, savedKey);
        InvisibleBelow(Es(), sequence, a, Below());
        if !iter.IsValid() {
          valid, savedKey, savedValue := false, 0.0, "";
          shown := |Es()|;
          PrevIsOneLess(Es(), sequence, a, -1, shown);
          return;
        }
        direction := Reverse;
      }
      ghost var q := Below();
      FindPrevUserEntry();
      PrevIsOneLess(Es(), sequence, a, q, shown);
    }

    /** Seek: the first live key that is not before the target. */
    method Seek(target: UserKey)
      requires Valid()
      modifies this, iter
      ensures Valid()
      ensures Position() <= |Map()|
      ensures forall i :: 0 <= i < Position() ==> Map()[i].0 < target
      ensures forall i :: Position() <= i < |Map()| ==> Map()[i].0 >= target
    {
      hide MergingIterator.Valid;
      direction, savedValue := Forward, "";
      iter.SeekTo(LookupKey(target, sequence));
      ReadyAtSeek(Es(), sequence, iter.at, target);
      ghost var p := iter.at;
      if iter.IsValid() {
        FindNextUserEntry(None);
      } else {
        valid := false;
        shown := |Es()|;
      }
      SeekPosition(Es(), sequence, p, shown, target);
    }

    method SeekToFirst()
      requires Valid()
      modifies this, iter
      ensures Valid() && Position() == 0
    {
      hide MergingIterator.Valid;
      direction, savedValue := Forward, "";
      iter.SeekToFirst();
      if iter.IsValid() {
        FindNextUserEntry(None);
      } else {
        valid := false;
        shown := |Es()|;
      }
      NothingWanted(Es(), sequence, 0, shown);
      LiveGap(Es(), sequence, 0, shown);
    }

    method SeekToLast()
      requires Valid()
      modifies this, iter
      ensures Valid() && Position() == if |Map()| == 0 then 0 else |Map()| - 1
    {
      hide MergingIterator.Valid;
      direction, savedValue := Reverse, "";
      iter.SeekToLast();
      FindPrevUserEntry();
      LastIsLast(Es(), sequence, shown);
    }
  }

  // ---------- loops over the internal iterator ----------

  /** From before the entries of a key into them. */
  method StepUp(iter: MergingIterator)
    requires iter.Valid()
    modifies iter
    ensures iter.Valid() && iter.at == if old(iter.at) < |iter.all| then old(iter.at) + 1 else 0
  {
    hide MergingIterator.Valid;
    if !iter.IsValid() {
      iter.SeekToFirst();
    } else {
      iter.Next();
    }
  }

  /** Back to the last entry whose user key is smaller. */
  method StepBefore(iter: MergingIterator, key: UserKey)
    requires iter.Valid() && iter.IsValid() && SortedTable(iter.all) && iter.all[iter.at].key.user == key
    modifies iter
    ensures iter.Valid()
    ensures iter.IsValid() ==> iter.at < old(iter.at) && iter.all[iter.at].key.user < key
    ensures forall j :: (if iter.IsValid() then iter.at < j else 0 <= j) && j <= old(iter.at) ==>
            iter.all[j].key.user == key
  {
    hide MergingIterator.Valid;
    ghost var a := iter.at;
    while true
      invariant iter.Valid() && iter.IsValid() && iter.at <= a
      invariant forall j :: iter.at <= j <= a ==> iter.all[j].key.user == key
      decreases iter.at
    {
      ghost var b := iter.at;
      iter.Prev();
      if !iter.IsValid() {
        return;
      }
      assert Before(iter.all[iter.at].key, iter.all[b].key);
      if iter.Entry().key.user < key {
        return;
      }
    }
  }

  /** The scanning loop of FindPrevUserEntry. */
  method ScanBackward(iter: MergingIterator, sequence: nat) returns (saved: Option<Entry>, ghost m: nat)
    requires iter.Valid() && SortedTable(iter.all)
    modifies iter
    ensures iter.Valid()
    ensures var es, q, b := iter.all, Under(old(iter.at), |iter.all|), Under(iter.at, |iter.all|);
            if saved.None? then forall r :: 0 <= r <= q ==> !Shown(es, sequence, r)
            else Settled(es, sequence, q, b, m) && saved.value == es[m]
  {
    hide MergingIterator.Valid;
    ghost var q := Under(iter.at, |iter.all|);
    saved, m := None, 0;
    while iter.IsValid()
      invariant iter.Valid()
      invariant BackScan(iter.all, sequence, q, Under(iter.at, |iter.all|), if saved.None? then None else Some(m))
      invariant saved.Some? ==> m < |iter.all| && saved.value == iter.all[m]
      decreases Under(iter.at, |iter.all|)
    {
      var e := iter.Entry();
      if Seen(e, sequence) && saved.Some? && e.key.user < saved.value.key.user {
        BackFound(iter.all, sequence, q, iter.at, m);
        return;
      }
      BackStep(iter.all, sequence, q, iter.at, if saved.None? then None else Some(m));
      if Seen(e, sequence) {
        saved := if e.key.kind.Deletion? then None else Some(e);
        m := iter.at;
      }
      iter.Prev();
    }
    if saved.Some? {
      BackFound(iter.all, sequence, q, -1, m);
    }
  }

  ghost function Under(at: nat, n: nat): int
  {
    if at < n then at else -1
  }

  /** The backward scan from q stopped at b with m the entry to show. */
  ghost predicate Settled(es: seq<Entry>, sequence: nat, q: int, b: int, m: nat)
  {
    && Shown(es, sequence, m) && b < m <= q < |es|
    && (forall r :: m < r <= q ==> !Shown(es, sequence, r))
    && (forall j :: 0 <= b < j < m || b < 0 <= j < m ==> !Seen(es[j], sequence))
    && (b >= 0 ==> es[b].key.user < es[m].key.user)
  }

  /** The scanning loop of FindNextUserEntry. */
  method ScanForward(iter: MergingIterator, sequence: nat, skip: Option<UserKey>) returns (found: bool)
    requires iter.Valid() && SortedTable(iter.all) && iter.at <= |iter.all|
    requires ForwardReady(iter.all, sequence, iter.at, skip)
    modifies iter
    ensures iter.Valid() && old(iter.at) <= iter.at
    ensures forall i :: old(iter.at) <= i < iter.at ==> !Wanted(iter.all, sequence, skip, i)
    ensures if found then Wanted(iter.all, sequence, skip, iter.at) else iter.at == |iter.all|
  {
    hide MergingIterator.Valid;
    ghost var p := iter.at;
    var now := skip;
    ScanStart(iter.all, sequence, p, skip);
    while iter.IsValid()
      invariant iter.Valid() && ScanAt(iter.all, sequence, p, skip, iter.at, now)
      decreases |iter.all| - iter.at
    {
      JudgeIsRight(iter.all, sequence, p, skip, iter.at, now);
      var verdict := Judge(iter.Entry(), sequence, now);
      if verdict.Stop? {
        return true;
      }
      now := verdict.skip;
      iter.Next();
    }
    return false;
  }

  lemma LiveAt(es: seq<Entry>, sequence: nat, i: nat)
    requires Shown(es, sequence, i)
    ensures var p := |Live(es, sequence, i)|; var live := Live(es, sequence, |es|);
            p < |live| && live[p] == (es[i].key.user, es[i].value)
  {
    LivePrefix(es, sequence, i + 1, |es|);
  }

  // ---------- positions ----------

  lemma ReadyAt(es: seq<Entry>, sequence: nat, a: nat)
    requires SortedTable(es) && a < |es|
    ensures ForwardReady(es, sequence, a, Some(es[a].key.user))
  {}

  lemma ReadyAbove(es: seq<Entry>, sequence: nat, b: int, a: nat)
    requires SortedTable(es) && a < |es| && -1 <= b < a
    requires forall j :: b < j < a ==> !Seen(es[j], sequence)
    requires b >= 0 ==> es[b].key.user < es[a].key.user
    ensures ForwardReady(es, sequence, b + 1, Some(es[a].key.user))
  {}

  lemma ReadyAtSeek(es: seq<Entry>, sequence: nat, p: nat, target: UserKey)
    requires SortedTable(es) && SplitsAt(es, p, LookupKey(target, sequence))
    ensures ForwardReady(es, sequence, p, None)
  {}

  lemma ShownUsersDiffer(es: seq<Entry>, sequence: nat, a: nat, b: nat)
    requires SortedTable(es) && a < b && Shown(es, sequence, a) && Shown(es, sequence, b)
    ensures es[a].key.user < es[b].key.user
  {}

  lemma NextIsOneFurther(es: seq<Entry>, sequence: nat, a: nat, p: nat, b: nat)
    requires SortedTable(es) && Shown(es, sequence, a) && p <= a && b <= |es|
    requires forall i :: p <= i < b ==> !Wanted(es, sequence, Some(es[a].key.user), i)
    requires b < |es| ==> p <= b && Wanted(es, sequence, Some(es[a].key.user), b)
    ensures |Live(es, sequence, b)| == |Live(es, sequence, a)| + 1
  {
    assert a < b by {
      if b < a { ShownUsersDiffer(es, sequence, b, a); }
    }
    forall i | a < i < b ensures !Shown(es, sequence, i) {
      if Shown(es, sequence, i) { ShownUsersDiffer(es, sequence, a, i); }
      assert !Wanted(es, sequence, Some(es[a].key.user), i);
    }
    LiveGap(es, sequence, a + 1, b);
  }

  lemma InvisibleBelow(es: seq<Entry>, sequence: nat, a: nat, b: int)
    requires Shown(es, sequence, a) && -1 <= b < a && forall j :: b < j <= a ==> es[j].key.user == es[a].key.user
    ensures forall j :: b < j < a ==> !Seen(es[j], sequence)
  {}

  lemma PrevIsOneLess(es: seq<Entry>, sequence: nat, a: nat, q: int, b: nat)
    requires Shown(es, sequence, a) && -1 <= q < a && b <= |es|
    requires forall j :: q < j < a ==> !Seen(es[j], sequence)
    requires b < |es| ==> Shown(es, sequence, b) && b <= q
    requires forall r :: (if b < |es| then b < r else 0 <= r) && r <= q ==> !Shown(es, sequence, r)
    ensures var p := |Live(es, sequence, a)|;
            |Live(es, sequence, b)| == if p == 0 then |Live(es, sequence, |es|)| else p - 1
  {
    if b < |es| {
      LiveGap(es, sequence, b + 1, a);
    } else {
      LiveGap(es, sequence, 0, a);
    }
  }

  lemma NothingWanted(es: seq<Entry>, sequence: nat, p: nat, b: nat)
    requires forall i :: p <= i < b ==> !Wanted(es, sequence, None, i)
    ensures forall i :: p <= i < b ==> !Shown(es, sequence, i)
  {
    forall i | p <= i < b ensures !Shown(es, sequence, i) {
      assert !Wanted(es, sequence, None, i);
    }
  }

  lemma SeekPosition(es: seq<Entry>, sequence: nat, p: nat, b: nat, target: UserKey)
    requires SortedTable(es) && SplitsAt(es, p, LookupKey(target, sequence)) && p <= b <= |es|
    requires forall i :: p <= i < b ==> !Wanted(es, sequence, None, i)
    ensures var pos, live := |Live(es, sequence, b)|, Live(es, sequence, |es|);
            && pos <= |live|
            && (forall i :: 0 <= i < pos ==> live[i].0 < target)
            && (forall i :: pos <= i < |live| ==> live[i].0 >= target)
  {
    LivePrefix(es, sequence, b, |es|);
    NothingWanted(es, sequence, p, b);
    LiveGap(es, sequence, p, b);
    LiveBelow(es, sequence, p, target);
    LiveFrom(es, sequence, p, |es|, target);
  }

  lemma LiveBelow(es: seq<Entry>, sequence: nat, p: nat, target: UserKey)
    requires SplitsAt(es, p, LookupKey(target, sequence))
    ensures forall i :: 0 <= i < |Live(es, sequence, p)| ==> Live(es, sequence, p)[i].0 < target
  {
    forall i | 0 <= i < |Live(es, sequence, p)| ensures Live(es, sequence, p)[i].0 < target {
      var x := Live(es, sequence, p)[i];
      LiveMember(es, sequence, p, x);
      assert x in Live(es, sequence, p);
      var k :| 0 <= k < p && Shown(es, sequence, k) && x == (es[k].key.user, es[k].value);
      assert Before(es[k].key, LookupKey(target, sequence));
    }
  }

  lemma {:induction false} LiveFrom(es: seq<Entry>, sequence: nat, p: nat, n: nat, target: UserKey)
    requires SplitsAt(es, p, LookupKey(target, sequence)) && p <= n <= |es|
    ensures |Live(es, sequence, p)| <= |Live(es, sequence, n)|
    ensures forall i :: |Live(es, sequence, p)| <= i < |Live(es, sequence, n)| ==> Live(es, sequence, n)[i].0 >= target
  {
    if n == p {
    } else {
      LiveFrom(es, sequence, p, n - 1, target);
      assert !Before(es[n - 1].key, LookupKey(target, sequence));
    }
  }

  lemma LastIsLast(es: seq<Entry>, sequence: nat, b: nat)
    requires b <= |es| && (b < |es| ==> Shown(es, sequence, b))
    requires forall r :: (if b < |es| then b < r else 0 <= r) && r < |es| ==> !Shown(es, sequence, r)
    ensures var n := |Live(es, sequence, |es|)|; |Live(es, sequence, b)| == if n == 0 then 0 else n - 1
  {
    if b < |es| {
      LiveGap(es, sequence, b + 1, |es|);
    } else {
      LiveGap(es, sequence, 0, |es|);
    }
  }
}
