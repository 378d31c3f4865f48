/** Timers of the event loop: starting, stopping, and running the due ones in order (timer.c). */
module Timers {
  import opened Heap

  type U64 = x: int | 0 <= x <= 0xFFFF_FFFF_FFFF_FFFF

  const UINT64_MAX: U64 := 0xFFFF_FFFF_FFFF_FFFF

  /** By due time, and of those due at the same time the one started first. */
  ghost predicate FiredInOrder(key: seq<Key>, fired: seq<Node>)
  {
    forall i, j :: 0 <= i < j < |fired| ==>
      && fired[i] < |key| && fired[j] < |key| && fired[i] != fired[j]
      && key[fired[i]].timeout <= key[fired[j]].timeout
      && (key[fired[i]].timeout == key[fired[j]].timeout ==> key[fired[i]].startId < key[fired[j]].startId)
  }

  /** Start numbers differ. */
  ghost predicate StartsDiffer(key: seq<Key>, members: set<Node>)
  {
    forall x, y :: x in members && y in members && x != y ==>
      x < |key| && y < |key| && key[x].startId != key[y].startId
  }

  /** All waiting timers were started, one after the other, before the counter came to where it is. */
  ghost predicate Counted(key: seq<Key>, members: set<Node>, counter: nat)
  {
    StartsDiffer(key, members) && forall x :: x in members ==> x < |key| && key[x].startId < counter
  }

  lemma CountedDiffer(key: seq<Key>, members: set<Node>, counter: nat)
    requires Counted(key, members, counter)
    ensures StartsDiffer(key, members)
  {}

  lemma NoneFired(key: seq<Key>)
    ensures FiredInOrder(key, [])
  {}

  lemma CountedLess(key: seq<Key>, members: set<Node>, x: Node, counter: nat)
    requires Counted(key, members, counter)
    ensures Counted(key, members - {x}, counter)
  {}

  lemma CountedMore(key: seq<Key>, members: set<Node>, counter: nat, next: seq<Key>, x: Node)
    requires Counted(key, members, counter) && |next| == |key| && x < |key| && next[x].startId == counter
    requires forall y :: 0 <= y < |key| && y != x ==> next[y] == key[y]
    ensures Counted(next, members + {x}, counter + 1)
  {}

  ghost function Due(key: seq<Key>, members: set<Node>, time: nat): set<Node>
  {
    set x | x in members && x < |key| && key[x].timeout <= time
  }

  class Loop {
    const heap: TimerHeap
    var time: U64
    var timerCounter: nat
    var repeat: seq<U64>
    var active: set<Node>

    ghost predicate Valid()
      reads this, heap
    {
      && heap.Valid() && |repeat| == |heap.key| && active == heap.Members()
         && (forall x :: x in active ==> x < |repeat|)
      && Counted(heap.key, active, timerCounter)
    }

    constructor (heap: TimerHeap, time: U64)
      requires heap.Valid() && heap.Members() == {}
      ensures Valid() && this.heap == heap && this.time == time
    {
      this.heap, this.time := heap, time;
      timerCounter := 0;
      repeat := seq(|heap.key|, _ => 0);
      active := {};
    }

    /** uv__update_time. */
    method UpdateTime(now: U64)
      requires Valid()
      modifies this`time
      ensures Valid() && time == now
    {
      time := now;
    }

    /** uv_timer_stop. */
    method Stop(x: Node)
      requires Valid() && x < |repeat|
      modifies this`active, heap
      ensures Valid() && heap.key == old(heap.key) && heap.Members() == old(heap.Members()) - {x}
    {
      hide TimerHeap.Valid, Counted;
      CountedLess(heap.key, active, x, timerCounter);
      if x in active {
        assert x in heap.Members();
        heap.Remove(x);
        active := active - {x};
      }
    }

    /** uv_timer_start; refused without a callback.  The timer is due from time + timeout on, or at the end of time
        when that does not fit; started later than every timer that is waiting. */
    method Start(x: Node, callback: bool, timeout: U64, again: U64) returns (ok: bool)
      requires Valid() && x < |repeat|
      modifies this, heap
      ensures Valid() && ok == callback && time == old(time)
      ensures !ok ==> heap.key == old(heap.key) && heap.Members() == old(heap.Members()) && repeat == old(repeat)
      ensures ok ==>
                && heap.Members() == old(heap.Members()) + {x}
                && |heap.key| == |old(heap.key)| && (forall y :: 0 <= y < |heap.key| && y != x ==>
                   heap.key[y] == old(heap.key[y]))
                && repeat == old(repeat)[x := again] && timerCounter == old(timerCounter) + 1
      ensures ok && time + timeout <= 0xFFFF_FFFF_FFFF_FFFF ==> heap.key[x].timeout == time + timeout
      ensures ok && time + timeout > 0xFFFF_FFFF_FFFF_FFFF ==> heap.key[x].timeout == 0xFFFF_FFFF_FFFF_FFFF
      ensures ok ==> heap.key[x].startId == old(timerCounter)
      ensures ok ==> forall now: U64 :: x in Due(heap.key, heap.Members(), now) <==>
                       now >= time + timeout || now == 0xFFFF_FFFF_FFFF_FFFF
    {
      hide TimerHeap.Valid, Counted;
      CountedLess(heap.key, active, x, timerCounter);
      if !callback {
        return false;
      }
      Stop(x);
      assert x !in heap.Members();
      repeat := repeat[x := again];
      var clamped := (time + timeout) % 0x1_0000_0000_0000_0000;
      if clamped < timeout {
        clamped := UINT64_MAX;
      }
      heap.SetKey(x, Key(clamped, timerCounter));
      timerCounter := timerCounter + 1;
      heap.Insert(x);
      CountedMore(old(heap.key), active, old(timerCounter), heap.key, x);
      active := active + {x};
      return true;
    }

    /** uv_timer_again: a repeating timer is put back with its repeat as timeout. */
    method Again(x: Node)
      requires Valid() && x < |repeat|
      modifies this, heap
      ensures Valid() && repeat == old(repeat) && time == old(time)
      ensures repeat[x] == 0 ==> heap.key == old(heap.key) && heap.Members() == old(heap.Members())
      ensures repeat[x] > 0 ==>
                && heap.Members() == old(heap.Members()) + {x}
                && |heap.key| == |old(heap.key)| && (forall y :: 0 <= y < |heap.key| && y != x ==>
                   heap.key[y] == old(heap.key[y]))
                && heap.key[x].startId == old(timerCounter)
                && heap.key[x].timeout == if time + repeat[x] <= 0xFFFF_FFFF_FFFF_FFFF then time + repeat[x]
                                          else 0xFFFF_FFFF_FFFF_FFFF
    {
      hide TimerHeap.Valid, Counted;
      if repeat[x] > 0 {
        Stop(x);
        var _ := Start(x, true, repeat[x], repeat[x]);
      }
    }

    /** What has been fired so far, and what is still to come. */
    ghost predicate Running(key0: seq<Key>, members0: set<Node>, fired: seq<Node>)
      reads this, heap
    {
      && Valid() && |heap.key| == |key0|
      && FiredInOrder(key0, fired)
      && (forall x :: x in fired ==> x in Due(key0, members0, time))
      && (forall x :: x in members0 && x !in fired ==> x in active && heap.key[x] == key0[x])
      && (forall x :: x in active ==> if x in fired then repeat[x] > 0 && heap.key[x].timeout > time else x in members0)
      && (forall x, y :: x in fired && y in members0 && y !in fired ==> y < |key0| && !Less(key0[y], key0[x]))
      && StartsDiffer(key0, members0)
      && (forall x :: x in fired && repeat[x] > 0 ==> x in active)
    }

    /** A turn leaves every due timer that repeats due again, when the clock stands at its last value: a loop that
        does not end at once never ends. */
    method Turn(m: Node)
      requires Valid() && m in active && time == UINT64_MAX
      modifies this, heap
      ensures Valid() && repeat == old(repeat) && time == old(time)
      ensures !old(Ends()) ==> !Ends()
      ensures forall x :: x in Due(old(heap.key), old(heap.Members()), time) && repeat[x] > 0 ==>
                x in Due(heap.key, heap.Members(), time)
    {
      hide TimerHeap.Valid;
      Stop(m);
      Again(m);
    }

    /** The loop ends: the clock can pass a new due time, or no due timer repeats. */
    ghost predicate Ends()
      reads this, heap
      requires Valid()
    {
      time < UINT64_MAX || forall x :: x in Due(heap.key, heap.Members(), time) ==> repeat[x] == 0
    }

    /** uv__run_timers, with callbacks that start no timers: exactly the due timers fire, each once, in order
        of timeout and start; afterwards the repeating ones are waiting again and nothing is due. */
    method RunTimers() returns (fired: seq<Node>)
      requires Valid() && Ends()
      modifies this, heap
      ensures Valid() && repeat == old(repeat) && time == old(time)
      ensures FiredInOrder(old(heap.key), fired)
      ensures SetOf(fired) == Due(old(heap.key), old(heap.Members()), time)
      ensures Due(heap.key, heap.Members(), time) == {}
      ensures heap.Members() == set x | x in old(heap.Members()) && (x in fired ==> repeat[x] > 0)
    {
      CountedDiffer(heap.key, active, timerCounter);
      hide TimerHeap.Valid, Counted, StartsDiffer, FiredInOrder;
      NoneFired(heap.key);
      ghost var key0, members0 := heap.key, heap.Members();
      fired := [];
      while true
        invariant Running(key0, members0, fired) && repeat == old(repeat) && time == old(time)
        invariant time < UINT64_MAX || forall x :: x in Due(key0, members0, time) ==> repeat[x] == 0
        decreases Due(key0, members0, time) - SetOf(fired)
      {
        var m := heap.Min();
        if m == NIL || heap.key[m].timeout > time {
          NothingDue(heap.key, heap.Members(), time, m);
          return;
        }
        assert m in active && m !in fired && m in Due(key0, members0, time);
        Fire(m, key0, members0, fired);
        assert SetOf(fired + [m]) == SetOf(fired) + {m};
        fired := fired + [m];
      }
    }

    /** One turn of the loop: the due minimum is stopped, possibly started again, and called. */
    method Fire(m: Node, ghost key0: seq<Key>, ghost members0: set<Node>, ghost fired: seq<Node>)
      requires Running(key0, members0, fired)
      requires m in active && m !in fired && heap.key[m].timeout <= time && (time < UINT64_MAX || repeat[m] == 0)
      requires forall x :: x in heap.Members() ==> x < |heap.key| && !Less(heap.key[x], heap.key[m])
      modifies this, heap
      ensures Running(key0, members0, fired + [m]) && repeat == old(repeat) && time == old(time)
      ensures m in Due(key0, members0, time)
    {
      hide TimerHeap.Valid, Counted, FiredInOrder;
      FireOrder(key0, fired, m);
      hide StartsDiffer;
      Stop(m);
      Again(m);
    }
  }

  lemma NothingDue(key: seq<Key>, members: set<Node>, time: nat, m: int)
    requires if m == NIL then members == {}
             else
               && 0 <= m < |key| && key[m].timeout > time
               && forall x :: x in members ==> x < |key| && !Less(key[x], key[m])
    ensures Due(key, members, time) == {}
  {}

  lemma FireOrder(key: seq<Key>, fired: seq<Node>, m: Node)
    requires FiredInOrder(key, fired) && m !in fired && m < |key|
    requires forall x :: x in fired ==> x < |key| && !Less(key[m], key[x]) && key[m].startId != key[x].startId
    ensures FiredInOrder(key, fired + [m])
  {}
}
