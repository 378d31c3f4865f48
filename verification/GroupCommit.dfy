/** The writer queue: how a leader gathers a group of waiting batches, numbers it, and applies it
    (db/db_impl.cc, db/write_batch.cc). */
module GroupCommit {
  import opened Keys

  datatype Op = Put(user: UserKey, value: string) | Delete(user: UserKey)

  /** A caller of Write; a missing batch asks for a memtable switch. */
  datatype Writer = Writer(batch: Option<seq<Op>>, bytes: nat, sync: bool)

  /** A batch group with its first sequence number: one log record. */
  datatype Record = Record(first: nat, ops: seq<Op>)

  function OpEntry(op: Op, sequence: nat): Entry
  {
    match op
    case Put(user, value) => Entry(InternalKey(user, sequence, Value), value)
    case Delete(user) => Entry(InternalKey(user, sequence, Deletion), "")
  }

  /** The entries of a record: consecutive sequence numbers in batch order. */
  function Stamp(r: Record): (entries: seq<Entry>)
    ensures |entries| == |r.ops|
    ensures forall i :: 0 <= i < |entries| ==> entries[i].key.sequence == r.first + i
  {
    seq(|r.ops|, i requires 0 <= i < |r.ops| => OpEntry(r.ops[i], r.first + i))
  }

  /** MemTableInserter: adds the operations one by one, counting the sequence number up. */
  method InsertInto(r: Record, mem: seq<Entry>) returns (after: seq<Entry>)
    ensures after == mem + Stamp(r)
  {
    after := mem;
    var sequence := r.first;
    for i := 0 to |r.ops|
      invariant sequence == r.first + i && after == mem + Stamp(r)[..i]
    {
      match r.ops[i] {
        case Put(user, value) => after := after + [Entry(InternalKey(user, sequence, Value), value)];
        case Delete(user) => after := after + [Entry(InternalKey(user, sequence, Deletion), "")];
      }
      sequence := sequence + 1;
    }
  }

  function Ops(writers: seq<Writer>): seq<Op>
  {
    if writers == [] then []
    else Ops(writers[..|writers| - 1]) + BatchOps(writers[|writers| - 1])
  }

  function BatchOps(w: Writer): seq<Op>
  {
    if w.batch.Some? then w.batch.value else []
  }

  function Bytes(writers: seq<Writer>): nat
  {
    if writers == [] then 0
    else Bytes(writers[..|writers| - 1]) + BatchBytes(writers[|writers| - 1])
  }

  function BatchBytes(w: Writer): nat
  {
    if w.batch.Some? then w.bytes else 0
  }

  function MaxGroupBytes(first: nat): nat
  {
    if first <= 0x20000 then first + 0x20000 else 0x100000
  }

  /** A writer that must wait for a later group. */
  predicate Breaks(queue: seq<Writer>, k: nat)
    requires 0 < k < |queue|
  {
    || (queue[k].sync && !queue[0].sync)
    || (queue[k].batch.Some? && Bytes(queue[..k + 1]) > MaxGroupBytes(queue[0].bytes))
  }

  /** The first k waiting writers form a group: as many as possible, none of them breaking. */
  ghost predicate IsGroup(queue: seq<Writer>, k: nat)
  {
    && 0 < k <= |queue| && queue[0].batch.Some?
    && (forall j :: 0 < j < k ==> !Breaks(queue, j))
    && (k < |queue| ==> Breaks(queue, k))
  }

  lemma GroupMore(queue: seq<Writer>, k: nat)
    requires k < |queue|
    ensures Bytes(queue[..k + 1]) == Bytes(queue[..k]) + (if queue[k].batch.Some? then queue[k].bytes else 0)
    ensures Ops(queue[..k + 1]) == Ops(queue[..k]) + (if queue[k].batch.Some? then queue[k].batch.value else [])
    ensures Bytes(queue[..0]) == 0 && Ops(queue[..0]) == []
  {
    assert queue[..k + 1][..k] == queue[..k];
  }

  /** BuildBatchGroup. */
  method BuildBatchGroup(queue: seq<Writer>) returns (k: nat, ops: seq<Op>)
    requires queue != [] && queue[0].batch.Some?
    ensures IsGroup(queue, k) && ops == Ops(queue[..k])
    ensures queue[0].bytes <= 128 * 1024 ==> Bytes(queue[..k]) <= queue[0].bytes + 128 * 1024
    ensures queue[0].bytes > 128 * 1024 ==> Bytes(queue[..k]) <= 1024 * 1024 || Bytes(queue[..k]) == queue[0].bytes
    ensures k < |queue| && !(queue[k].sync && !queue[0].sync) ==>
              Bytes(queue[..k + 1]) > if queue[0].bytes <= 128 * 1024 then queue[0].bytes + 128 * 1024 else 1024 * 1024
  {
    hide Bytes, Ops;
    var first := queue[0];
    ops := first.batch.value;
    var size := first.bytes;
    var maxSize := 0x100000;
    if size <= 0x20000 {
      maxSize := size + 0x20000;
    }
    GroupMore(queue, 0);
    k := 1;
    while k < |queue|
      invariant 0 < k <= |queue| && ops == Ops(queue[..k]) && size == Bytes(queue[..k])
      invariant forall j :: 0 < j < k ==> !Breaks(queue, j)
      invariant size <= maxSize || size == first.bytes
    {
      var w := queue[k];
      GroupMore(queue, k);
      if w.sync && !first.sync {
        break;
      }
      if w.batch.Some? {
        size := size + w.bytes;
        if size > maxSize {
          break;
        }
        ops := ops + w.batch.value;
      }
      k := k + 1;
    }
  }

  /** A group with a sync writer is led by one. */
  lemma SyncGroup(queue: seq<Writer>, k: nat, i: nat)
    requires IsGroup(queue, k) && i < k && queue[i].sync
    ensures queue[0].sync
  {
    if i > 0 { assert !Breaks(queue, i); }
  }

  /** The entries logged so far, in order. */
  function Replay(records: seq<Record>): seq<Entry>
  {
    if records == [] then [] else Replay(records[..|records| - 1]) + Stamp(records[|records| - 1])
  }

  lemma ReplayMore(records: seq<Record>, r: Record)
    ensures Replay(records + [r]) == Replay(records) + Stamp(r)
  {}
}
