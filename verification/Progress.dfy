/** Nobody waits for ever for want of a step: from every reachable state the writers and the background worker can
    bring the first waiting writer to its answer (db/db_impl.cc). */
module Progress {
  import opened Keys
  import opened GroupCommit
  import opened Durability

  /** The worker only gives up together with a background error. */
  ghost predicate Sound(s: Db)
  {
    Inv(s) && (s.back.dead ==> s.bgError)
  }

  lemma StepSound(s: Db, t: Db, step: Step)
    requires Sound(s) && Next(s, t, step)
    ensures Sound(t)
  {
    hide Inv;
    StepKeepsInv(s, t, step);
    StepDead(s, t, step);
  }

  lemma StepDead(s: Db, t: Db, step: Step)
    requires (s.back.dead ==> s.bgError) && Next(s, t, step)
    ensures t.back.dead ==> t.bgError
  {
    hide FrontNext, Cleaned, CutOk, LogsFrom, TablesOf, ReadsEqual, OnDisk;
  }

  lemma {:induction false} RunsSound(states: seq<Db>, steps: seq<Step>, n: nat)
    requires Run(states, steps) && n < |states|
    ensures Sound(states[n])
  {
    hide Inv, Next;
    if n == 0 {
      RunsKeepInv(states, steps, 0);
    } else {
      RunsSound(states, steps, n - 1);
      StepSound(states[n - 1], states[n], steps[n - 1]);
    }
  }

  // ---------- how far it is ----------

  /** Which memtables still have room. */
  type Room = seq<Entry> -> bool

  predicate MustSwitch(s: Db, room: Room)
  {
    s.front.phase.MakingRoom? && !s.bgError && (s.front.phase.force || !room(s.memory.mem))
  }

  /** The memtable must be switched and the one before it is not yet on disk. */
  predicate NeedsFlush(s: Db, room: Room)
  {
    MustSwitch(s, room) && s.memory.imm.Some?
  }

  /** Writers go on with a memtable that has room and switch one that has none, or is to be forced out. */
  predicate Heeds(s: Db, step: Step, room: Room)
  {
    if step.SwitchLog? then MustSwitch(s, room) else step.RoomOk? ==> room(s.memory.mem)
  }

  ghost function FlushRank(b: Back): nat
  {
    if b.flush.Some? then
      if b.apply.Some? then (if b.apply.value.written then 1 else 2) else if b.flush.value.built then 3 else 4
    else if b.apply.Some? then (if b.apply.value.written then 6 else 7)
    else 5
  }

  /** A bound on the steps to the answer of the first writer. */
  ghost function Rank(s: Db, room: Room): nat
  {
    match s.front.phase
    case NoLeader => 30
    case MakingRoom(_) =>
      if !MustSwitch(s, room) then 10 else 11 + if s.memory.imm.Some? then FlushRank(s.back) else 0
    case Grouped(_, _) => 4
    case Logged(_, _, synced) => if synced then 2 else 3
    case Done(_, _, _, _) => 0
  }

  // ---------- one step ----------

  lemma FlushStep(s: Db, room: Room) returns (step: Step, t: Db)
    requires Sound(s) && NeedsFlush(s, room)
    ensures GoesOn(s, t, step, room)
    ensures t.front == s.front && Rank(t, room) < Rank(s, room)
  {
    var b := s.back;
    hide FrontOk, LogsOk, LogNumbersOk, MemoryBounds, TablesOk, UsedUpTo, OwedOk, ManifestBounds, Cleaned, TablesOf,
         ReadsEqual;
    assert !b.dead && (b.apply.Some? ==> ApplyOk(b.apply.value, b, s.memory));
    if b.apply.Some? && !b.apply.value.written {
      step := WriteManifest;
      t := s.(disk := s.disk.(manifest := b.apply.value.next),
          back := b.(apply := Some(b.apply.value.(written := true))));
    } else if b.flush.Some? && b.apply.Some? {
      step := InstallFlush;
      var c := b.(version := b.apply.value.next.files, log := b.apply.value.next.log, flush := None, apply := None);
      t := s.(memory := s.memory.(imm := None), back := c, disk := Cleaned(s.disk, c, s.bgError),
              flushed := s.flushed + Elements(s.memory.imm.value));
    } else if b.flush.Some? && b.flush.value.built {
      step := CommitFlush;
      var files := if s.memory.imm.value == [] then b.version else b.version + {b.flush.value.number};
      t := s.(back := b.(pending := b.pending - {b.flush.value.number},
                         apply := Some(Apply(CurrentManifest(s, files, s.memory.logNumber), false, s.horizon))));
    } else if b.flush.Some? {
      step := BuildFlush;
      t := s.(back := b.(flush := Some(b.flush.value.(built := true))),
              disk := if s.memory.imm.value == [] then s.disk
                      else s.disk.(tables := s.disk.tables[b.flush.value.number := Elements(s.memory.imm.value)]));
    } else if b.apply.Some? {
      step := InstallCompaction;
      var c := b.(version := b.apply.value.next.files, compaction := None, apply := None,
                  pending := b.pending - b.compaction.value.outputs);
      t := s.(back := c, disk := Cleaned(s.disk, c, s.bgError), horizon := b.apply.value.smallest);
    } else {
      step := StartFlush;
      t := s.(back := b.(flush := Some(Flush(b.nextNumber, false)), pending := b.pending + {b.nextNumber},
                         nextNumber := b.nextNumber + 1));
    }
  }

  lemma {:induction false} GroupExists(queue: seq<Writer>, k: nat) returns (n: nat)
    requires 0 < k <= |queue| && queue[0].batch.Some? && forall j :: 0 < j < k ==> !Breaks(queue, j)
    ensures IsGroup(queue, n)
    decreases |queue| - k
  {
    if k == |queue| || Breaks(queue, k) {
      n := k;
    } else {
      n := GroupExists(queue, k + 1);
    }
  }

  /** The first waiting writer, and the current log. */
  ghost predicate Waiting(s: Db)
  {
    && s.front.queue != [] && s.front.queue[0] == Head(s.front) < |s.front.writers|
    && s.memory.logNumber in s.disk.logs
  }

  lemma SoundWaiting(s: Db)
    requires Sound(s) && s.front.queue != []
    ensures Waiting(s)
  {
    hide LogNumbersOk, MemoryBounds, TablesOk, UsedUpTo, OwedOk, ManifestOk, GroupsOk, ResultsOk, InsertedOk, PhaseOk;
  }

  lemma RoomStep(s: Db, room: Room) returns (step: Step, t: Db)
    requires Waiting(s) && !NeedsFlush(s, room) && s.front.phase.MakingRoom? && room([])
    ensures IsWriterStep(step) && WriterNext(s, t, step) && Heeds(s, step, room)
    ensures Head(t.front) == Head(s.front) && t.front.queue != [] && Rank(t, room) < Rank(s, room)
  {
    var f, log, force := s.front, s.memory.logNumber, s.front.phase.force;
    hide Ops, IsGroup, Stamp;
    if s.bgError {
      step, t := RoomError, s.(front := f.(phase := Done(f.queue[0] + 1, None, false, false)));
    } else if force || !room(s.memory.mem) {
      var n := s.back.nextNumber;
      step := SwitchLog;
      t := s.(front := f.(phase := MakingRoom(false)),
              memory := Memory([], Some(s.memory.mem), n, log, s.memory.orphan),
              disk := s.disk.(logs := s.disk.logs[n := NEW_LOG]), back := s.back.(nextNumber := n + 1));
    } else if Leader(f).batch.None? {
      step, t := RoomOk(0), s.(front := f.(phase := Done(f.queue[0] + 1, None, true, false)));
    } else {
      var k := GroupExists(f.writers[f.queue[0]..], 1);
      assert 0 < k <= |f.writers| - f.queue[0] by { IsGroupBounds(f.writers[f.queue[0]..], k); }
      step := RoomOk(k);
      t := s.(front := f.(phase := Grouped(f.queue[0] + k, Record(f.lastSequence + 1,
                                                           Ops(f.writers[f.queue[0]..f.queue[0] + k])))));
    }
  }

  lemma WriterStep(s: Db, room: Room) returns (step: Step, t: Db)
    requires Waiting(s) && !NeedsFlush(s, room) && !s.front.phase.Done? && room([])
    ensures IsWriterStep(step) && WriterNext(s, t, step) && Heeds(s, step, room)
    ensures Head(t.front) == Head(s.front) && t.front.queue != [] && Rank(t, room) < Rank(s, room)
  {
    var f, log := s.front, s.memory.logNumber;
    hide Ops, IsGroup, Stamp;
    match f.phase
    case NoLeader =>
      step, t := Lead, s.(front := f.(phase := MakingRoom(Leader(f).batch.None?)));
    case MakingRoom(_) => step, t := RoomStep(s, room);
    case Grouped(to, record) =>
      step := Append(true);
      t := s.(front := f.(phase := Logged(to, record, false)),
              disk := s.disk.(logs := s.disk.logs[log := AppendLog(s.disk.logs[log], record)]));
    case Logged(to, record, synced) =>
      if Leader(f).sync && !synced {
        step := SyncLog(true);
        var l := s.disk.logs[log];
        t := s.(front := f.(phase := f.phase.(synced := true)),
                disk := s.disk.(logs := s.disk.logs[log := l.(synced := |l.records|)]));
      } else {
        step := Insert;
        t := s.(front := f.(phase := Done(to, Some(record), true, false), inserted := f.inserted + [record]),
                memory := s.memory.(mem := s.memory.mem + Stamp(record)));
      }
  }

  lemma IsGroupBounds(queue: seq<Writer>, k: nat)
    requires IsGroup(queue, k)
    ensures 0 < k <= |queue|
  {}

  /** The last step: the whole group is answered. */
  lemma FinishStep(s: Db) returns (t: Db)
    requires Sound(s) && s.front.queue != [] && s.front.phase.Done?
    ensures WriterNext(s, t, Finish) && Head(s.front) < Head(t.front)
    ensures forall id :: Head(s.front) <= id < Head(t.front) ==>
              id in t.front.results && t.front.results[id] == s.front.phase.ok
  {
    var f, p := s.front, s.front.phase;
    hide LogsOk, LogNumbersOk, MemoryBounds, TablesOk, UsedUpTo, OwedOk, ManifestOk, GroupsOk,
        InsertedOk, ResultsOk, Ops,
         Stamp, Finished;
    SoundWaiting(s);
    FinishTells(f);
    var entries := if p.ok && p.written.Some? then Elements(Stamp(p.written.value)) else {};
    t := s.(front := Finished(f), bgError := s.bgError || p.syncError,
            memory := s.memory.(orphan := if p.syncError then p.written else s.memory.orphan),
            acked := s.acked + entries,
            safe := if s.disk.logs[s.memory.logNumber].failedAt.None?
                       && exists i :: f.queue[0] <= i < p.to && f.writers[i].sync
                    then s.safe + entries else s.safe);
  }

  // ---------- the way to the answer ----------

  predicate Cooperative(step: Step)
  {
    || IsWriterStep(step) || step.StartFlush? || step.BuildFlush? || step.CommitFlush? || step.InstallFlush?
    || step.InstallCompaction? || step.WriteManifest?
  }

  ghost predicate GoesOn(s: Db, t: Db, step: Step, room: Room)
  {
    Cooperative(step) && Next(s, t, step) && Heeds(s, step, room)
  }

  /** Steps of the writers and the worker alone lead from the first state to the last. */
  ghost predicate Way(states: seq<Db>, steps: seq<Step>, room: Room)
  {
    && |states| == |steps| + 1
    && forall i :: 0 <= i < |steps| ==> GoesOn(states[i], states[i + 1], steps[i], room)
  }

  lemma Longer(s: Db, step: Step, states: seq<Db>, steps: seq<Step>, room: Room)
    requires Way(states, steps, room) && GoesOn(s, states[0], step, room)
    ensures Way([s] + states, [step] + steps, room)
  {
    hide GoesOn;
    var all, made := [s] + states, [step] + steps;
    forall i | 0 <= i < |made| ensures GoesOn(all[i], all[i + 1], made[i], room) {
      if i > 0 { assert made[i] == steps[i - 1] && all[i] == states[i - 1] && all[i + 1] == states[i]; }
    }
  }

  /** From every sound state with a waiting writer such a way answers the first writer. */
  lemma {:induction false} AnswerComes(s: Db, room: Room) returns (states: seq<Db>, steps: seq<Step>)
    requires Sound(s) && s.front.queue != [] && room([])
    ensures Way(states, steps, room) && states[0] == s && |steps| <= Rank(s, room) + 1
    ensures var t := states[|steps|]; Head(s.front) < Head(t.front) && Head(s.front) in t.front.results
    decreases Rank(s, room)
  {
    hide Inv, FlushNext, CompactionNext, WriterNext, Rank, Way, NeedsFlush, Waiting, Heeds;
    var step, t;
    if s.front.phase.Done? {
      t := FinishStep(s);
      states, steps := [s, t], [Finish];
      OneStep(s, t, room);
    } else {
      if NeedsFlush(s, room) {
        step, t := FlushStep(s, room);
      } else {
        SoundWaiting(s);
        step, t := WriterStep(s, room);
      }
      StepSound(s, t, step);
      states, steps := AnswerComes(t, room);
      Longer(s, step, states, steps, room);
      states, steps := [s] + states, [step] + steps;
    }
  }

  /** In every reachable state: whatever happened before, and whichever memtables but the empty one count as full, the
      first waiting writer can be answered within 31 steps of the writers and the worker. */
  lemma NeverStuck(states: seq<Db>, steps: seq<Step>, n: nat, room: Room)
      returns (way: seq<Db>, made: seq<Step>)
    requires Run(states, steps) && n < |states| && states[n].front.queue != [] && room([])
    ensures Way(way, made, room) && way[0] == states[n] && |made| <= 31
    ensures var f, g := states[n].front, way[|made|].front;
      Head(f) < Head(g) && Head(f) in g.results
  {
    RunsSound(states, steps, n);
    hide Sound, Run, Way;
    way, made := AnswerComes(states[n], room);
  }

  lemma OneStep(s: Db, t: Db, room: Room)
    requires Next(s, t, Finish)
    ensures Way([s, t], [Finish], room)
  {
    hide Next;
  }
}
