/** Sequences used as queues and lists of distinct elements. */
module Lists {

  ghost predicate NoDups<T>(q: seq<T>)
  {
    forall i, j :: 0 <= i < j < |q| ==> q[i] != q[j]
  }

  /** Unlinks one element. */
  function Without<T(==, !new)>(q: seq<T>, x: T): (r: seq<T>)
    ensures NoDups(q) ==> NoDups(r)
    ensures NoDups(q) ==> forall y :: y in r <==> y in q && y != x
  {
    if q == [] then []
    else if q[0] == x then
      assert q == [q[0]] + q[1..];
      q[1..]
    else
      assert q == [q[0]] + q[1..];
      var r := [q[0]] + Without(q[1..], x);
      assert NoDups(q) ==> forall i :: 0 < i < |r| ==> r[i] in Without(q[1..], x);
      r
  }

  lemma WithoutAbsent<T(!new)>(q: seq<T>, x: T)
    requires x !in q
    ensures Without(q, x) == q
  {}

  lemma Pop<T(!new)>(q: seq<T>)
    requires q != [] && NoDups(q)
    ensures NoDups(q[1..]) && forall y :: y in q[1..] <==> y in q && y != q[0]
  {}

  lemma {:induction false} CountOne<T>(q: seq<T>, x: T)
    requires NoDups(q)
    ensures multiset(q)[x] == if x in q then 1 else 0
  {
    if q != [] {
      assert q == [q[0]] + q[1..];
      CountOne(q[1..], x);
    }
  }

  // ---------- order in a queue ----------

  ghost predicate Precedes<T>(q: seq<T>, x: T, y: T)
  {
    exists i: nat, j: nat :: i < j < |q| && q[i] == x && q[j] == y
  }

  /** One leaves at the front and others may join at the end. */
  lemma PrecedesTail<T>(q: seq<T>, more: seq<T>, x: T, y: T)
    requires Precedes(q, x, y)
    ensures q[0] == x || Precedes(q[1..] + more, x, y)
  {
    var i: nat, j: nat :| i < j < |q| && q[i] == x && q[j] == y;
    var r := q[1..] + more;
    if i > 0 { assert r[i - 1] == x && r[j - 1] == y; }
  }

  lemma PrecedesMore<T>(q: seq<T>, more: seq<T>, x: T, y: T)
    requires Precedes(q, x, y)
    ensures Precedes(q + more, x, y)
  {
    var i: nat, j: nat :| i < j < |q| && q[i] == x && q[j] == y;
    assert (q + more)[i] == x && (q + more)[j] == y;
  }

  /** Unlinking another element keeps the order. */
  lemma {:induction false} PrecedesWithout<T(!new)>(q: seq<T>, z: T, x: T, y: T)
    requires x != z && y != z && Precedes(q, x, y)
    ensures Precedes(Without(q, z), x, y)
  {
    var i: nat, j: nat :| i < j < |q| && q[i] == x && q[j] == y;
    if q[0] == z {
      assert q[1..][i - 1] == x && q[1..][j - 1] == y;
    } else {
      var r := Without(q[1..], z);
      assert Without(q, z) == [q[0]] + r;
      if i == 0 {
        WithoutKeeps(q[1..], z, j - 1);
        var k :| 0 <= k < |r| && r[k] == y;
        assert ([q[0]] + r)[0] == x && ([q[0]] + r)[k + 1] == y;
      } else {
        assert q[1..][i - 1] == x && q[1..][j - 1] == y;
        PrecedesWithout(q[1..], z, x, y);
        var k: nat, l: nat :| k < l < |r| && r[k] == x && r[l] == y;
        assert ([q[0]] + r)[k + 1] == x && ([q[0]] + r)[l + 1] == y;
      }
    }
  }

  lemma {:induction false} WithoutKeeps<T(!new)>(q: seq<T>, z: T, i: nat)
    requires i < |q| && q[i] != z
    ensures q[i] in Without(q, z)
  {
    if q[0] != z && i > 0 { WithoutKeeps(q[1..], z, i - 1); }
    if q[0] == z { assert q[1..][i - 1] == q[i]; }
  }
}
