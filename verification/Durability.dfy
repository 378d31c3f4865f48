/** Writers, memtables, log files and the background worker as one state machine, one step per
    critical section or unlocked I/O call, with crashes (db/db_impl.cc, db/version_set.cc). */
module Durability {
  import opened Keys
  import opened GroupCommit

  // ---------- state ----------

  /** What the writer at the front of the queue is doing.  `to` is one past the last writer of its group. */
  datatype Phase =
    | NoLeader
    | MakingRoom(force: bool)
    | Grouped(to: nat, record: Record)
    | Logged(to: nat, record: Record, synced: bool)
    | Done(to: nat, written: Option<Record>, ok: bool, syncError: bool)

  /** A group that was acknowledged, since the database was opened. */
  datatype Group = Group(from: nat, to: nat, record: Record)

  /** Writers are numbered in order of arrival. */
  datatype Front = Front(writers: seq<Writer>, queue: seq<nat>, phase: Phase, results: map<nat, bool>,
                         lastSequence: nat,
                         openedAt: nat, groups: seq<Group>, inserted: seq<Record>)

  /** `orphan` is a record that reached the log although its sync failed. */
  datatype Memory = Memory(mem: seq<Entry>, imm: Option<seq<Entry>>, logNumber: nat, immLog: nat,
                           orphan: Option<Record>)

  /** `failedAt` counts the records before the first append that failed, and `strays` holds the records of such
      appends, which may or may not be in the file. */
  datatype LogFile = LogFile(records: seq<Record>, synced: nat, failedAt: Option<nat>, strays: seq<Record>)

  const NEW_LOG := LogFile([], 0, None, [])

  /** How many records a machine crash cannot take away: the synced ones that precede every failed append.  A failed
      append may leave part of a record behind, and the writer counts the whole of it, so that the reader can lose
      its place in what follows (Log.FailedAppendHides). */
  function Firm(l: LogFile): nat
  {
    if l.failedAt.Some? && l.failedAt.value < l.synced then l.failedAt.value else l.synced
  }

  datatype Manifest = Manifest(files: set<nat>, log: nat, lastSequence: nat, next: nat)

  datatype Disk = Disk(tables: map<nat, set<Entry>>, logs: map<nat, LogFile>, manifest: Manifest)

  datatype Flush = Flush(number: nat, built: bool)

  datatype Compaction = Compaction(base: set<nat>, inputs: set<nat>, numbers: set<nat>, outputs: set<nat>)

  /** LogAndApply between preparing the next version and installing it; readings below `smallest` may then change. */
  datatype Apply = Apply(next: Manifest, written: bool, smallest: nat)

  datatype Back = Back(version: set<nat>, log: nat, held: seq<set<nat>>, pending: set<nat>, nextNumber: nat,
                       flush: Option<Flush>, compaction: Option<Compaction>, apply: Option<Apply>, dead: bool)

  /** `acked`: entries acknowledged and not cut off by a crash; `safe`: entries of acknowledged sync writers;
      `flushed`: every entry that has reached the tables of the version; `horizon`: the oldest snapshot whose
      readings the compactions had to keep. */
  datatype Db = Db(front: Front, memory: Memory, disk: Disk, back: Back, bgError: bool,
                   acked: set<Entry>, safe: set<Entry>, flushed: set<Entry>, horizon: nat)

  function Head(f: Front): int
  {
    |f.writers| - |f.queue|
  }

  // ---------- what is where ----------

  ghost function TablesOf(tables: map<nat, set<Entry>>, files: set<nat>): set<Entry>
  {
    set n, e | n in files && n in tables && e in tables[n] :: e
  }

  ghost function LogsFrom(logs: map<nat, LogFile>, first: nat): set<Entry>
  {
    set n, e | n in logs && n >= first && e in Replay(logs[n].records) :: e
  }

  /** What a reopened database would hold: the manifest's tables and the logs it still needs. */
  ghost function Recovered(d: Disk): set<Entry>
  {
    TablesOf(d.tables, d.manifest.files) + LogsFrom(d.logs, d.manifest.log)
  }

  ghost function InMemory(m: Memory): set<Entry>
  {
    Elements(m.mem) + (if m.imm.Some? then Elements(m.imm.value) else {})
  }

  /** What a reader of the running database sees. */
  ghost function Contents(s: Db): set<Entry>
  {
    TablesOf(s.disk.tables, s.back.version) + InMemory(s.memory)
  }

  /** In the current log, not in the memtable: a group being applied, or one whose sync failed. */
  function Extra(phase: Phase, orphan: Option<Record>): seq<Entry>
  {
    match phase
    case Logged(_, r, _) => Stamp(r)
    case Done(_, Some(r), false, true) => Stamp(r)
    case _ => if orphan.Some? then Stamp(orphan.value) else []
  }

  // ---------- steps of the writers ----------

  datatype Step =
    | Enqueue(w: Writer) | Lead | RoomError | RoomNoLogFile | SwitchLog | RoomOk(k: nat)
    | Append(ok: bool) | SyncLog(ok: bool) | Insert | Finish
    | StartFlush | BuildFlush | CommitFlush | StartCompaction(inputs: set<nat>) | OpenOutput
        | BuildOutput(number: nat, content: set<Entry>)
    | CommitCompaction(smallest: nat) | WriteManifest | InstallFlush | InstallCompaction | BackgroundFails
    | Pin | Unpin(index: nat)
    | Crash(cut: map<nat, seq<Record>>, rebuilt: map<nat, set<Entry>>)

  function Leader(f: Front): Writer
    requires f.queue != [] && f.queue[0] < |f.writers|
  {
    f.writers[f.queue[0]]
  }

  ghost predicate FrontNext(f: Front, g: Front, m: Memory, bgError: bool, step: Step)
  {
    f.queue != [] && f.queue[0] < |f.writers| &&
    match step
    case Lead => f.phase.NoLeader? && g == f.(phase := MakingRoom(Leader(f).batch.None?))
    case RoomError => f.phase.MakingRoom? && bgError && g == f.(phase := Done(f.queue[0] + 1, None, false, false))
    case RoomNoLogFile => f.phase.MakingRoom? && !bgError && m.imm.None?
        && g == f.(phase := Done(f.queue[0] + 1, None, false, false))
    case SwitchLog => f.phase.MakingRoom? && !bgError && m.imm.None? && g == f.(phase := MakingRoom(false))
    case RoomOk(k) =>
      && f.phase == MakingRoom(false) && !bgError
      && (if Leader(f).batch.None? then g == f.(phase := Done(f.queue[0] + 1, None, true, false))
          else IsGroup(f.writers[f.queue[0]..], k) &&
               g == f.(phase := Grouped(f.queue[0] + k, Record(f.lastSequence + 1,
                   Ops(f.writers[f.queue[0]..f.queue[0] + k])))))
    case Append(ok) =>
      f.phase.Grouped? &&
      g == f.(phase := if ok then Logged(f.phase.to, f.phase.record, false)
          else Done(f.phase.to, Some(f.phase.record), false, false))
    case SyncLog(ok) =>
      && f.phase.Logged? && Leader(f).sync && !f.phase.synced
      && g == f.(phase := if ok then f.phase.(synced := true) else Done(f.phase.to, Some(f.phase.record), false, true))
    case Insert =>
      && f.phase.Logged? && (Leader(f).sync ==> f.phase.synced)
      && g == f.(phase := Done(f.phase.to, Some(f.phase.record), true, false), inserted := f.inserted +
         [f.phase.record])
    case Finish => f.phase.Done? && f.phase.to <= |f.writers| && f.queue[0] < f.phase.to <= f.queue[0] + |f.queue|
        && g == Finished(f)
    case _ => false
  }

  /** The group is popped and told its status; its sequence numbers are used up whatever the status. */
  function Finished(f: Front): Front
    requires f.phase.Done? && f.queue != [] && f.queue[0] < f.phase.to <= f.queue[0] + |f.queue|
  {
    var p, from := f.phase, f.queue[0];
    var popped := f.queue[..p.to - from];
    f.(queue := f.queue[p.to - from..], phase := NoLeader,
       results := f.results + map id | id in popped :: p.ok,
       lastSequence := if p.written.Some? then f.lastSequence + |p.written.value.ops| else f.lastSequence,
       groups := if p.ok && p.written.Some? then f.groups + [Group(from, p.to, p.written.value)] else f.groups)
  }

  predicate IsWriterStep(step: Step)
  {
    step.Lead? || step.RoomError? || step.RoomNoLogFile? || step.SwitchLog? || step.RoomOk?
        || step.Append? || step.SyncLog?
    || step.Insert? || step.Finish?
  }

  /** The current log after a record was appended, or synced. */
  function AppendLog(l: LogFile, r: Record): LogFile { l.(records := l.records + [r]) }

  function FailLog(l: LogFile, r: Record): LogFile
  {
    l.(strays := l.strays + [r], failedAt := if l.failedAt.Some? then l.failedAt else Some(|l.records|))
  }

  /** Effects of a writer step on the memtables and the log. */
  ghost predicate WriterNext(s: Db, t: Db, step: Step)
    requires IsWriterStep(step)
  {
    && FrontNext(s.front, t.front, s.memory, s.bgError, step) && s.memory.logNumber in s.disk.logs
    && var log := s.disk.logs[s.memory.logNumber];
       var u := s.(front := t.front);
       match step
       case SwitchLog =>
         var n := s.back.nextNumber;
         t == u.(memory := Memory([], Some(s.memory.mem), n, s.memory.logNumber, s.memory.orphan),
                 disk := s.disk.(logs := s.disk.logs[n := NEW_LOG]), back := s.back.(nextNumber := n + 1))
       case Append(ok) =>
         var after := if ok then AppendLog(log, s.front.phase.record) else FailLog(log, s.front.phase.record);
         t == u.(disk := s.disk.(logs := s.disk.logs[s.memory.logNumber := after]))
       case SyncLog(ok) =>
         t == if ok then u.(disk := s.disk.(logs := s.disk.logs[s.memory.logNumber := log.(synced := |log.records|)]))
             else u
       case Insert => t == u.(memory := s.memory.(mem := s.memory.mem + Stamp(s.front.phase.record)))
       case Finish => FinishNext(s, t)
       case _ => t == u
  }

  ghost predicate FinishNext(s: Db, t: Db)
    requires s.front.phase.Done? && s.front.queue != [] && s.front.phase.to <= |s.front.writers|
    requires s.memory.logNumber in s.disk.logs
  {
    var p, u := s.front.phase, s.(front := t.front);
    var entries := if p.ok && p.written.Some? then Elements(Stamp(p.written.value)) else {};
    t == u.(bgError := s.bgError || p.syncError,
            memory := s.memory.(orphan := if p.syncError then p.written else s.memory.orphan),
            acked := s.acked + entries,
            safe := if s.disk.logs[s.memory.logNumber].failedAt.None?
                       && exists i :: s.front.queue[0] <= i < p.to && s.front.writers[i].sync
                    then s.safe + entries else s.safe)
  }

  // ---------- steps of the background worker ----------

  /** DeleteObsoleteFiles: everything no version, pending output or unflushed memtable needs. */
  ghost function Live(b: Back): set<nat>
  {
    b.pending + b.version + (set h, n | h in b.held && n in h :: n) +
        (if b.compaction.Some? then b.compaction.value.base else {})
  }

  ghost function Cleaned(d: Disk, b: Back, bgError: bool): Disk
  {
    if bgError then d
    else d.(tables := map n | n in d.tables && n in Live(b) :: d.tables[n], logs := map n | n in d.logs
        && n >= b.log :: d.logs[n])
  }

  function CurrentManifest(s: Db, files: set<nat>, log: nat): Manifest
  {
    Manifest(files, log, s.front.lastSequence, s.back.nextNumber)
  }

  ghost predicate FlushNext(s: Db, t: Db, step: Step)
  {
    var b := s.back;
    !b.dead && s.memory.imm.Some? &&
    match step
    case StartFlush =>
      && !s.bgError && b.flush.None? && b.apply.None?
      && t == s.(back := b.(flush := Some(Flush(b.nextNumber, false)), pending := b.pending +
         {b.nextNumber}, nextNumber := b.nextNumber + 1))
    case BuildFlush =>
      && b.flush.Some? && !b.flush.value.built
      && t == s.(back := b.(flush := Some(b.flush.value.(built := true))),
                 disk := if s.memory.imm.value == [] then s.disk
                         else s.disk.(tables := s.disk.tables[b.flush.value.number := Elements(s.memory.imm.value)]))
    case CommitFlush =>
      && b.flush.Some? && b.flush.value.built && b.apply.None?
      && var files := if s.memory.imm.value == [] then b.version else b.version + {b.flush.value.number};
         t == s.(back := b.(pending := b.pending - {b.flush.value.number},
                            apply := Some(Apply(CurrentManifest(s, files, s.memory.logNumber), false, s.horizon))))
    case InstallFlush =>
      && b.flush.Some? && b.apply.Some? && b.apply.value.written
      && var c := b.(version := b.apply.value.next.files, log := b.apply.value.next.log, flush := None, apply := None);
         t == s.(memory := s.memory.(imm := None), back := c, disk := Cleaned(s.disk, c, s.bgError),
                 flushed := s.flushed + Elements(s.memory.imm.value))
    case _ => false
  }

  ghost predicate CompactionNext(s: Db, t: Db, step: Step)
  {
    var b := s.back;
    !b.dead && b.flush.None? &&
    match step
    case StartCompaction(inputs) =>
      && !s.bgError && b.compaction.None? && b.apply.None? && inputs <= b.version
      && t == s.(back := b.(compaction := Some(Compaction(b.version, inputs, {}, {}))))
    case OpenOutput =>
      && b.compaction.Some? && b.apply.None?
      && t == s.(back := b.(compaction := Some(b.compaction.value.(numbers := b.compaction.value.numbers +
         {b.nextNumber})),
                            pending := b.pending + {b.nextNumber}, nextNumber := b.nextNumber + 1))
    case BuildOutput(n, content) =>
      && b.compaction.Some? && b.apply.None? && n in b.compaction.value.numbers - b.compaction.value.outputs
      && content <= TablesOf(s.disk.tables, b.compaction.value.inputs)
      && t == s.(back := b.(compaction := Some(b.compaction.value.(outputs := b.compaction.value.outputs + {n}))),
                 disk := s.disk.(tables := s.disk.tables[n := content]))
    case CommitCompaction(smallest) =>
      && b.compaction.Some? && b.apply.None? && b.compaction.value.outputs == b.compaction.value.numbers
      && s.horizon <= smallest <= s.front.lastSequence
      && var files := b.version - b.compaction.value.inputs + b.compaction.value.outputs;
         && ReadsEqual(TablesOf(s.disk.tables, b.version), TablesOf(s.disk.tables, files), smallest)
         && t == s.(back := b.(apply := Some(Apply(CurrentManifest(s, files, b.log), false, smallest))))
    case InstallCompaction =>
      && b.compaction.Some? && b.apply.Some? && b.apply.value.written
      && var c := b.(version := b.apply.value.next.files, compaction := None, apply := None,
                     pending := b.pending - b.compaction.value.outputs);
         t == s.(back := c, disk := Cleaned(s.disk, c, s.bgError), horizon := b.apply.value.smallest)
    case _ => false
  }

  // ---------- crashes ----------

  predicate ManifestAhead(s: Db)
  {
    s.back.apply.Some? && s.back.apply.value.written
  }

  /** What has reached the tables of the manifest: its flush may not be installed yet. */
  ghost function OnDisk(s: Db): set<Entry>
  {
    if ManifestAhead(s) && s.back.flush.Some? && s.memory.imm.Some? then s.flushed + Elements(s.memory.imm.value)
        else s.flushed
  }

  function DiskHorizon(s: Db): nat
  {
    if ManifestAhead(s) then s.back.apply.value.smallest else s.horizon
  }

  /** What the reader may find in a log after a crash. */
  ghost predicate Found(l: LogFile, kept: seq<Record>)
  {
    && Firm(l) <= |l.records| && l.records[..Firm(l)] <= kept
    && forall r :: r in kept ==> r in l.records || r in l.strays
  }

  ghost predicate CutOk(logs: map<nat, LogFile>, cut: map<nat, seq<Record>>)
  {
    cut.Keys == logs.Keys && forall n :: n in logs ==> Found(logs[n], cut[n])
  }

  function Cut(logs: map<nat, LogFile>, cut: map<nat, seq<Record>>): map<nat, LogFile>
    requires cut.Keys == logs.Keys
  {
    map n | n in logs :: LogFile(cut[n], |cut[n]|, None, [])
  }

  /** A crash at any moment, and DB::Open: the logs the manifest needs are replayed into new tables. */
  ghost predicate CrashNext(s: Db, t: Db, cut: map<nat, seq<Record>>, rebuilt: map<nat, set<Entry>>)
  {
    CutOk(s.disk.logs, cut) &&
    var d := s.disk.(logs := Cut(s.disk.logs, cut));
    var m := d.manifest;
    var replayed := LogsFrom(d.logs, m.log);
    && (forall n :: n in rebuilt ==> n >= m.next)
    && TablesOf(rebuilt, rebuilt.Keys) == replayed
    && var files, log := m.files + rebuilt.Keys, t.memory.logNumber;
       && (forall n :: n in files || n in d.logs ==> n < log) && t.back.nextNumber > log
       && t.front.lastSequence >= m.lastSequence && (forall e :: e in replayed ==>
          e.key.sequence <= t.front.lastSequence)
       && t == Db(Front(s.front.writers, [], NoLeader, s.front.results, t.front.lastSequence,
          |s.front.writers|, [], []),
                  Memory([], None, log, 0, None),
                  Disk(map n | n in files :: if n in rebuilt then rebuilt[n] else if n in d.tables then d.tables[n]
                      else {},
                       map[log := NEW_LOG],
                       Manifest(files, log, t.front.lastSequence, t.back.nextNumber)),
                  Back(files, log, [], {}, t.back.nextNumber, None, None, None, false),
                  false,
                  s.acked - (LogsFrom(s.disk.logs, m.log) - replayed), s.safe, OnDisk(s) + replayed, DiskHorizon(s))
  }

  ghost predicate Next(s: Db, t: Db, step: Step)
  {
    match step
    case Enqueue(w) => t == s.(front := s.front.(writers := s.front.writers + [w], queue := s.front.queue +
        [|s.front.writers|]))
    case StartFlush => FlushNext(s, t, step)
    case BuildFlush => FlushNext(s, t, step)
    case CommitFlush => FlushNext(s, t, step)
    case InstallFlush => FlushNext(s, t, step)
    case StartCompaction(_) => CompactionNext(s, t, step)
    case OpenOutput => CompactionNext(s, t, step)
    case BuildOutput(_, _) => CompactionNext(s, t, step)
    case CommitCompaction(_) => CompactionNext(s, t, step)
    case InstallCompaction => CompactionNext(s, t, step)
    case WriteManifest =>
      && !s.back.dead && s.back.apply.Some?
      && t == s.(disk := s.disk.(manifest := s.back.apply.value.next),
         back := s.back.(apply := Some(s.back.apply.value.(written := true))))
    case BackgroundFails => t == s.(bgError := true, back := s.back.(dead := true))
    case Pin => t == s.(back := s.back.(held := s.back.held + [s.back.version]))
    case Unpin(i) => i < |s.back.held| && t == s.(back := s.back.(held := s.back.held[..i] + s.back.held[i + 1..]))
    case Crash(cut, rebuilt) => CrashNext(s, t, cut, rebuilt)
    case _ => WriterNext(s, t, step)
  }

  // ---------- the writers' invariant ----------

  ghost predicate QueueOk(f: Front)
  {
    |f.queue| <= |f.writers| && f.openedAt <= Head(f) && forall i :: 0 <= i < |f.queue| ==> f.queue[i] == Head(f) + i
  }

  /** A group in flight: numbered next, in queue order, without a sync writer unless its leader is one. */
  ghost predicate GroupOk(f: Front, to: nat, r: Record)
  {
    && 0 <= Head(f) < to <= |f.writers|
    && r == Record(f.lastSequence + 1, Ops(f.writers[Head(f)..to]))
    && (f.writers[Head(f)].sync || forall i :: Head(f) <= i < to ==> !f.writers[i].sync)
  }

  ghost predicate PhaseOk(f: Front)
  {
    && (f.phase.NoLeader? || f.queue != [])
    && match f.phase
       case Grouped(to, r) => GroupOk(f, to, r)
       case Logged(to, r, _) => GroupOk(f, to, r)
       case Done(to, Some(r), ok, syncError) => GroupOk(f, to, r) && !(ok && syncError)
       case Done(to, None, ok, syncError) => 0 <= Head(f) < |f.writers| && to == Head(f) + 1
           && !syncError && (ok ==> f.writers[Head(f)].batch.None?)
       case _ => true
  }

  ghost predicate OneGroupOk(f: Front, g: Group)
  {
    && f.openedAt <= g.from < g.to <= Head(f)
    && g.record.ops == Ops(f.writers[g.from..g.to]) && g.record.first + |g.record.ops| <= f.lastSequence + 1
    && forall id :: g.from <= id < g.to ==> id in f.results && f.results[id]
  }

  /** Groups do not share writers or sequence numbers, and come in queue order. */
  ghost predicate Follows(g: Group, h: Group)
  {
    g.to <= h.from && g.record.first + |g.record.ops| <= h.record.first
  }

  ghost predicate GroupsOk(f: Front)
  {
    && (forall i :: 0 <= i < |f.groups| ==> OneGroupOk(f, f.groups[i]))
    && (forall i, j :: 0 <= i < j < |f.groups| ==> Follows(f.groups[i], f.groups[j]))
  }

  ghost predicate InGroup(g: Group, id: nat)
  {
    g.from <= id < g.to
  }

  /** Acknowledged writers with a batch are in a group. */
  ghost predicate ResultsOk(f: Front)
  {
    && (forall id :: id in f.results ==> id < Head(f))
    && forall id: nat ::
         f.openedAt <= id && id in f.results && f.results[id] && id < |f.writers| && f.writers[id].batch.Some? ==>
         exists i :: 0 <= i < |f.groups| && InGroup(f.groups[i], id)
  }

  function Records(groups: seq<Group>): seq<Record>
  {
    seq(|groups|, i requires 0 <= i < |groups| => groups[i].record)
  }

  /** The memtables were given exactly the acknowledged groups' records, in order, and the one about to be
      acknowledged. */
  ghost predicate InsertedOk(f: Front)
  {
    f.inserted == Records(f.groups) + (if f.phase.Done? && f.phase.ok
        && f.phase.written.Some? then [f.phase.written.value] else [])
  }

  ghost predicate FrontOk(f: Front)
  {
    QueueOk(f) && PhaseOk(f) && GroupsOk(f) && ResultsOk(f) && InsertedOk(f)
  }

  lemma EnqueueFront(f: Front, w: Writer)
    requires FrontOk(f)
    ensures FrontOk(f.(writers := f.writers + [w], queue := f.queue + [|f.writers|]))
  {
    hide GroupsOk, Ops;
    var g := f.(writers := f.writers + [w], queue := f.queue + [|f.writers|]);
    assert forall a, b :: 0 <= a <= b <= |f.writers| ==> g.writers[a..b] == f.writers[a..b];
    EnqueueGroups(f, w);
  }

  lemma EnqueueGroups(f: Front, w: Writer)
    requires QueueOk(f) && GroupsOk(f)
    ensures GroupsOk(f.(writers := f.writers + [w], queue := f.queue + [|f.writers|]))
  {
    hide Ops;
    var g := f.(writers := f.writers + [w], queue := f.queue + [|f.writers|]);
    forall i | 0 <= i < |g.groups| ensures OneGroupOk(g, g.groups[i]) {
      var h := f.groups[i];
      assert OneGroupOk(f, h) && g.writers[h.from..h.to] == f.writers[h.from..h.to];
    }
  }

  lemma NewGroup(f: Front, k: nat)
    requires QueueOk(f) && f.queue != [] && IsGroup(f.writers[Head(f)..], k)
    ensures Head(f) + k <= |f.writers|
            && GroupOk(f, Head(f) + k, Record(f.lastSequence + 1, Ops(f.writers[Head(f)..Head(f) + k])))
  {
    var waiting := f.writers[Head(f)..];
    forall i | Head(f) <= i < Head(f) + k ensures !f.writers[i].sync || f.writers[Head(f)].sync {
      assert f.writers[i] == waiting[i - Head(f)];
      if f.writers[i].sync { SyncGroup(waiting, k, i - Head(f)); }
    }
  }

  /** A group leaves the queue together: its writers are told the one status, the others wait as before, and its
      operations have used up the next sequence numbers if its log record was begun. */
  lemma FinishTells(f: Front)
    requires FrontOk(f) && f.phase.Done?
    ensures var g, from, to := Finished(f), Head(f), f.phase.to;
      && from < to && Head(g) == to && g.writers == f.writers && g.queue == f.queue[to - from..]
      && (forall id: nat :: id in g.results <==> id in f.results || from <= id < to)
      && (forall id :: from <= id < to ==> g.results[id] == f.phase.ok)
      && (forall id :: id in f.results ==> g.results[id] == f.results[id])
      && g.lastSequence == f.lastSequence + if f.phase.written.Some? then |Ops(f.writers[from..to])| else 0
  {
    FinishResults(f);
    hide GroupsOk, InsertedOk, Ops;
  }

  lemma StepPhase(f: Front, g: Front, m: Memory, bgError: bool, step: Step)
    requires FrontOk(f) && IsWriterStep(step) && FrontNext(f, g, m, bgError, step) && !step.Finish?
    ensures QueueOk(g) && PhaseOk(g)
  {
    hide GroupsOk, ResultsOk, InsertedOk, IsGroup, Ops;
    if step.RoomOk? && Leader(f).batch.Some? { NewGroup(f, step.k); }
  }

  lemma StepInserted(f: Front, g: Front, m: Memory, bgError: bool, step: Step)
    requires FrontOk(f) && IsWriterStep(step) && FrontNext(f, g, m, bgError, step) && !step.Finish?
    ensures g == f.(phase := g.phase, inserted := g.inserted) && InsertedOk(g)
  {
    hide QueueOk, PhaseOk, GroupsOk, ResultsOk, IsGroup;
  }

  lemma StepFront(f: Front, g: Front, m: Memory, bgError: bool, step: Step)
    requires FrontOk(f) && IsWriterStep(step) && FrontNext(f, g, m, bgError, step) && !step.Finish?
    ensures FrontOk(g)
  {
    StepPhase(f, g, m, bgError, step);
    StepInserted(f, g, m, bgError, step);
    hide QueueOk, PhaseOk, InsertedOk, FrontNext;
    forall i | 0 <= i < |g.groups| ensures OneGroupOk(g, g.groups[i]) {
      assert OneGroupOk(f, f.groups[i]);
    }
  }

  lemma FinishResults(f: Front)
    requires QueueOk(f) && f.phase.Done? && f.queue != [] && Head(f) < f.phase.to <= |f.writers|
    ensures Head(Finished(f)) == f.phase.to && QueueOk(Finished(f))
    ensures forall id: nat :: id in Finished(f).results <==> id in f.results || Head(f) <= id < f.phase.to
    ensures forall id: nat :: id in Finished(f).results ==>
              Finished(f).results[id] == if Head(f) <= id < f.phase.to then f.phase.ok else f.results[id]
  {
    var popped := f.queue[..f.phase.to - f.queue[0]];
    forall id: nat ensures id in popped <==> Head(f) <= id < f.phase.to {
      if Head(f) <= id < f.phase.to { assert popped[id - Head(f)] == id; }
    }
  }

  lemma FinishOldGroup(f: Front, i: nat)
    requires FrontOk(f) && f.phase.Done? && i < |f.groups|
    ensures OneGroupOk(Finished(f), f.groups[i])
    ensures f.phase.ok && f.phase.written.Some? ==>
            Follows(f.groups[i], Group(Head(f), f.phase.to, f.phase.written.value))
  {
    hide ResultsOk, InsertedOk;
    FinishResults(f);
    assert OneGroupOk(f, f.groups[i]);
    hide Ops;
  }

  lemma FinishNewGroup(f: Front)
    requires FrontOk(f) && f.phase.Done? && f.phase.ok && f.phase.written.Some?
    ensures OneGroupOk(Finished(f), Group(Head(f), f.phase.to, f.phase.written.value))
  {
    hide GroupsOk, ResultsOk, InsertedOk;
    FinishResults(f);
    hide Ops;
  }

  lemma FinishGroups(f: Front)
    requires FrontOk(f) && f.phase.Done?
    ensures GroupsOk(Finished(f))
  {
    var g := Finished(f);
    forall i | 0 <= i < |f.groups| ensures OneGroupOk(g, f.groups[i])
                                   ensures f.phase.ok && f.phase.written.Some? ==>
                                           Follows(f.groups[i], Group(Head(f), f.phase.to, f.phase.written.value))
    { FinishOldGroup(f, i); }
    if f.phase.ok && f.phase.written.Some? { FinishNewGroup(f); }
    hide ResultsOk, InsertedOk, OneGroupOk, PhaseOk, Ops;
  }

  lemma FinishAcked(f: Front)
    requires FrontOk(f) && f.phase.Done?
    ensures ResultsOk(Finished(f))
  {
    hide GroupsOk, InsertedOk, Ops;
    var g, p := Finished(f), f.phase;
    FinishResults(f);
    hide PhaseOk, QueueOk;
    forall id: nat | g.openedAt <= id && id in g.results && g.results[id] && id < |g.writers|
        && g.writers[id].batch.Some?
      ensures exists i :: 0 <= i < |g.groups| && InGroup(g.groups[i], id)
    {
      if Head(f) <= id < p.to {
        assert InGroup(g.groups[|f.groups|], id);
      } else {
        var i :| 0 <= i < |f.groups| && InGroup(f.groups[i], id);
        assert InGroup(g.groups[i], id);
      }
    }
  }

  lemma FinishFront(f: Front)
    requires FrontOk(f) && f.phase.Done?
    ensures FrontOk(Finished(f))
  {
    hide QueueOk, PhaseOk, GroupsOk, ResultsOk, InsertedOk, Finished;
    FinishRest(f);
    FinishGroups(f);
    FinishAcked(f);
  }

  lemma FinishRest(f: Front)
    requires FrontOk(f) && f.phase.Done?
    ensures QueueOk(Finished(f)) && PhaseOk(Finished(f)) && InsertedOk(Finished(f))
  {
    hide GroupsOk, ResultsOk;
    FinishResults(f);
  }

  // ---------- the invariant of logs and memtables ----------

  ghost function SyncedIn(l: LogFile): set<Entry>
    requires Firm(l) <= |l.records|
  {
    Elements(Replay(l.records[..Firm(l)]))
  }

  ghost predicate MustBeSynced(f: Front)
  {
    || (f.phase.Logged? && f.phase.synced)
    || (f.phase.Done? && f.phase.ok && f.phase.written.Some? && 0 <= Head(f) < |f.writers| && f.writers[Head(f)].sync)
  }

  /** The current log replays to the memtable and what is in flight; the older log, if any, to the immutable
      memtable. */
  ghost predicate LogsOk(logs: map<nat, LogFile>, m: Memory, f: Front, bgError: bool)
  {
    && (forall n :: n in logs ==> logs[n].synced <= |logs[n].records|)
    && (forall n :: n in logs && logs[n].failedAt.Some? ==> logs[n].failedAt.value <= |logs[n].records|)
    && m.logNumber in logs && Replay(logs[m.logNumber].records) == m.mem + Extra(f.phase, m.orphan)
    && (m.imm.Some? ==> m.immLog in logs && m.immLog < m.logNumber && Replay(logs[m.immLog].records) == m.imm.value)
    && (MustBeSynced(f) ==> logs[m.logNumber].synced == |logs[m.logNumber].records|)
    && (m.orphan.Some? ==>
          bgError && (f.phase.NoLeader? || f.phase.MakingRoom? || (f.phase.Done? && f.phase.written.None?)))
  }

  /** The logs from the version's log number on are exactly those two. */
  ghost predicate LogNumbersOk(logs: map<nat, LogFile>, m: Memory, log: nat, nextNumber: nat)
  {
    && log == (if m.imm.Some? then m.immLog else m.logNumber) && log <= m.logNumber
    && (forall n :: n in logs ==> n < nextNumber && (n >= log ==> n == m.logNumber || (m.imm.Some? && n == m.immLog)))
  }

  /** Entries in memory and tables have used sequence numbers. */
  ghost predicate UsedUpTo(E: set<Entry>, last: nat)
  {
    forall e :: e in E ==> e.key.sequence <= last
  }

  function Limit(f: Front): nat
  {
    if f.phase.Done? && f.phase.ok && f.phase.written.Some? then f.lastSequence + |f.phase.written.value.ops|
        else f.lastSequence
  }

  ghost predicate MemoryBounds(m: Memory, f: Front)
  {
    && UsedUpTo(Elements(m.mem), Limit(f)) && (m.imm.Some? ==> UsedUpTo(Elements(m.imm.value), f.lastSequence))
    && (f.phase.Done? && f.phase.ok && f.phase.written.Some? ==>
        Elements(Stamp(f.phase.written.value)) <= Elements(m.mem))
  }

  lemma SyncedWithin(records: seq<Record>, k: nat)
    requires k <= |records|
    ensures Elements(Replay(records[..k])) <= Elements(Replay(records))
    decreases |records|
  {
    if k < |records| {
      SyncedWithin(records[..|records| - 1], k);
      assert records[..|records| - 1][..k] == records[..k];
    } else {
      assert records[..k] == records;
    }
  }

  lemma SwitchLogs(s: Db, t: Db)
    requires FrontOk(s.front) && WriterNext(s, t, SwitchLog)
    requires LogsOk(s.disk.logs, s.memory, s.front, s.bgError)
             && LogNumbersOk(s.disk.logs, s.memory, s.back.log, s.back.nextNumber)
    ensures LogsOk(t.disk.logs, t.memory, t.front, t.bgError)
            && LogNumbersOk(t.disk.logs, t.memory, t.back.log, t.back.nextNumber)
  {
    hide GroupsOk, ResultsOk, InsertedOk, IsGroup, Stamp;
    assert s.front.queue[0] == Head(s.front);
    assert s.memory.mem + [] == s.memory.mem;
  }

  lemma AppendLogs(s: Db, t: Db, ok: bool)
    requires FrontOk(s.front) && WriterNext(s, t, Append(ok))
    requires LogsOk(s.disk.logs, s.memory, s.front, s.bgError)
             && LogNumbersOk(s.disk.logs, s.memory, s.back.log, s.back.nextNumber)
    ensures LogsOk(t.disk.logs, t.memory, t.front, t.bgError)
            && LogNumbersOk(t.disk.logs, t.memory, t.back.log, t.back.nextNumber)
  {
    hide GroupsOk, ResultsOk, InsertedOk, IsGroup, Stamp, Replay;
    assert s.front.queue[0] == Head(s.front);
    ReplayMore(s.disk.logs[s.memory.logNumber].records, s.front.phase.record);
  }

  lemma SyncLogs(s: Db, t: Db, ok: bool)
    requires FrontOk(s.front) && WriterNext(s, t, SyncLog(ok))
    requires LogsOk(s.disk.logs, s.memory, s.front, s.bgError)
             && LogNumbersOk(s.disk.logs, s.memory, s.back.log, s.back.nextNumber)
    ensures LogsOk(t.disk.logs, t.memory, t.front, t.bgError)
            && LogNumbersOk(t.disk.logs, t.memory, t.back.log, t.back.nextNumber)
  {
    hide GroupsOk, ResultsOk, InsertedOk, IsGroup, Stamp, Replay;
    assert s.front.queue[0] == Head(s.front);
  }

  lemma InsertLogs(s: Db, t: Db)
    requires FrontOk(s.front) && WriterNext(s, t, Insert)
    requires LogsOk(s.disk.logs, s.memory, s.front, s.bgError)
             && LogNumbersOk(s.disk.logs, s.memory, s.back.log, s.back.nextNumber)
    ensures LogsOk(t.disk.logs, t.memory, t.front, t.bgError)
            && LogNumbersOk(t.disk.logs, t.memory, t.back.log, t.back.nextNumber)
  {
    hide GroupsOk, ResultsOk, InsertedOk, IsGroup, Stamp, Replay;
    assert s.front.queue[0] == Head(s.front);
  }

  lemma FinishLogs(s: Db, t: Db)
    requires FrontOk(s.front) && WriterNext(s, t, Finish)
    requires LogsOk(s.disk.logs, s.memory, s.front, s.bgError)
             && LogNumbersOk(s.disk.logs, s.memory, s.back.log, s.back.nextNumber)
    ensures LogsOk(t.disk.logs, t.memory, t.front, t.bgError)
            && LogNumbersOk(t.disk.logs, t.memory, t.back.log, t.back.nextNumber)
  {
    hide GroupsOk, ResultsOk, InsertedOk, IsGroup, Stamp, Replay;
    assert s.front.queue[0] == Head(s.front);
    FinishResults(s.front);
  }

  lemma WriterLogs(s: Db, t: Db, step: Step)
    requires FrontOk(s.front) && IsWriterStep(step) && WriterNext(s, t, step)
    requires LogsOk(s.disk.logs, s.memory, s.front, s.bgError)
             && LogNumbersOk(s.disk.logs, s.memory, s.back.log, s.back.nextNumber)
    ensures LogsOk(t.disk.logs, t.memory, t.front, t.bgError)
            && LogNumbersOk(t.disk.logs, t.memory, t.back.log, t.back.nextNumber)
  {
    match step
    case SwitchLog => SwitchLogs(s, t);
    case Append(ok) => AppendLogs(s, t, ok);
    case SyncLog(ok) => SyncLogs(s, t, ok);
    case Insert => InsertLogs(s, t);
    case Finish => FinishLogs(s, t);
    case _ => hide GroupsOk, ResultsOk, InsertedOk, IsGroup, Stamp, Replay;
  }

  lemma WriterBounds(s: Db, t: Db, step: Step)
    requires FrontOk(s.front) && IsWriterStep(step) && WriterNext(s, t, step) && MemoryBounds(s.memory, s.front)
    ensures MemoryBounds(t.memory, t.front) && s.front.lastSequence <= t.front.lastSequence
  {
    hide GroupsOk, ResultsOk, InsertedOk, IsGroup, QueueOk;
  }

  // ---------- the invariant of tables and the manifest ----------

  ghost predicate AllIn(files: set<nat>, tables: map<nat, set<Entry>>)
  {
    files <= tables.Keys
  }

  ghost predicate CompactionOk(c: Compaction, b: Back, tables: map<nat, set<Entry>>)
  {
    && AllIn(c.base, tables) && c.inputs <= b.version && AllIn(c.outputs, tables)
    && c.outputs <= c.numbers <= b.pending && c.numbers - c.outputs !! tables.Keys
    && (forall n :: n in c.numbers ==> n < b.nextNumber)
    && TablesOf(tables, c.outputs) <= TablesOf(tables, c.inputs)
  }

  ghost predicate FlushOk(f: Flush, b: Back, tables: map<nat, set<Entry>>, imm: Option<seq<Entry>>)
  {
    && imm.Some? && f.number < b.nextNumber && (b.compaction.Some? ==> f.number !in b.compaction.value.numbers)
    && (if f.built && imm.value != [] then f.number in tables && tables[f.number] == Elements(imm.value)
        else f.number !in tables)
  }

  /** Every table of the current version and of a version in use is on disk, and so are the finished outputs. */
  ghost predicate TablesOk(b: Back, tables: map<nat, set<Entry>>, imm: Option<seq<Entry>>)
  {
    && AllIn(b.version, tables) && (forall h :: h in b.held ==> AllIn(h, tables))
    && (forall n :: n in tables ==> n < b.nextNumber)
    && (b.compaction.Some? ==> CompactionOk(b.compaction.value, b, tables))
    && (b.flush.Some? ==> FlushOk(b.flush.value, b, tables, imm))
  }

  ghost predicate ManifestBounds(m: Manifest, tables: map<nat, set<Entry>>, nextNumber: nat, lastSequence: nat)
  {
    && AllIn(m.files, tables) && (forall n :: n in m.files ==> n < m.next) && m.next <= nextNumber
    && UsedUpTo(TablesOf(tables, m.files), m.lastSequence) && m.lastSequence <= lastSequence
  }

  /** What LogAndApply is about to install. */
  ghost predicate ApplyOk(a: Apply, b: Back, m: Memory)
  {
    if b.flush.Some? then
      && b.flush.value.built && m.imm.Some? && a.next.log == m.logNumber
      && a.next.files == if m.imm.value == [] then b.version else b.version + {b.flush.value.number}
    else
      && b.compaction.Some? && a.next.log == b.log
      && var c := b.compaction.value;
         a.next.files == b.version - c.inputs + c.outputs && c.outputs == c.numbers
  }

  ghost predicate ManifestOk(b: Back, d: Disk, m: Memory, lastSequence: nat)
  {
    && (b.apply.Some? ==> ApplyOk(b.apply.value, b, m)
                          && ManifestBounds(b.apply.value.next, d.tables, b.nextNumber, lastSequence))
    && ManifestBounds(d.manifest, d.tables, b.nextNumber, lastSequence)
    && (if b.apply.Some? && b.apply.value.written then d.manifest == b.apply.value.next
        else d.manifest.files == b.version && d.manifest.log == b.log)
  }

  /** Everything owed to a caller: acknowledged entries have been flushed or are in memory, and those of sync
      writers have been flushed or are in a synced part of a log. */
  ghost predicate OwedOk(s: Db)
  {
    && s.acked <= s.flushed + InMemory(s.memory)
    && s.safe <= s.flushed + SyncedLogs(s.disk.logs, s.memory)
  }

  ghost function SyncedLogs(logs: map<nat, LogFile>, m: Memory): set<Entry>
  {
    SyncedOf(logs, m.logNumber) + (if m.imm.Some? then SyncedOf(logs, m.immLog) else {})
  }

  ghost function SyncedOf(logs: map<nat, LogFile>, n: nat): set<Entry>
  {
    if n in logs && Firm(logs[n]) <= |logs[n].records| then SyncedIn(logs[n]) else {}
  }

  ghost predicate Inv(s: Db)
  {
    && FrontOk(s.front)
    && LogsOk(s.disk.logs, s.memory, s.front, s.bgError)
       && LogNumbersOk(s.disk.logs, s.memory, s.back.log, s.back.nextNumber)
    && MemoryBounds(s.memory, s.front)
    && TablesOk(s.back, s.disk.tables, s.memory.imm)
    && UsedUpTo(TablesOf(s.disk.tables, s.disk.tables.Keys), s.front.lastSequence)
    && ManifestOk(s.back, s.disk, s.memory, s.front.lastSequence)
    && OwedOk(s)
  }

  // ---------- what a crash leaves ----------

  lemma TablesUnion(tables: map<nat, set<Entry>>, a: set<nat>, b: set<nat>)
    ensures TablesOf(tables, a + b) == TablesOf(tables, a) + TablesOf(tables, b)
    ensures TablesOf(tables, a) <= TablesOf(tables, a - b) + TablesOf(tables, b)
  {}

  lemma ManifestLog(s: Db)
    requires Inv(s)
    ensures s.back.log <= s.disk.manifest.log <= s.memory.logNumber
    ensures s.memory.imm.Some? && s.disk.manifest.log > s.memory.immLog ==> ManifestAhead(s) && s.back.flush.Some?
  {
    hide FrontOk, LogsOk, OwedOk, MemoryBounds, TablesOk;
  }

  /** A crash of the process loses nothing: what is in memory is on disk, in the manifest's tables or in a log. */
  lemma MemoryOnDisk(s: Db)
    requires Inv(s)
    ensures s.flushed + InMemory(s.memory) <= OnDisk(s) + LogsFrom(s.disk.logs, s.disk.manifest.log)
  {
    ManifestLog(s);
    hide FrontOk, OwedOk, MemoryBounds, TablesOk, ManifestOk;
    forall e | e in InMemory(s.memory) ensures e in OnDisk(s) + LogsFrom(s.disk.logs, s.disk.manifest.log) {
      if e in s.memory.mem {
        assert e in Replay(s.disk.logs[s.memory.logNumber].records);
      } else {
        assert e in Replay(s.disk.logs[s.memory.immLog].records);
      }
    }
  }

  // ---------- steps of the writers keep it ----------

  lemma WriterTables(s: Db, t: Db, step: Step)
    requires Inv(s) && IsWriterStep(step) && WriterNext(s, t, step) && s.front.lastSequence <= t.front.lastSequence
    ensures TablesOk(t.back, t.disk.tables, t.memory.imm)
    ensures UsedUpTo(TablesOf(t.disk.tables, t.disk.tables.Keys), t.front.lastSequence)
    ensures ManifestOk(t.back, t.disk, t.memory, t.front.lastSequence)
  {
    hide FrontOk, LogsOk, OwedOk, MemoryBounds, Stamp, Replay, Ops, IsGroup, Finished;
    assert t.back == s.back.(nextNumber := t.back.nextNumber) && s.back.nextNumber <= t.back.nextNumber;
    assert t.disk.tables == s.disk.tables && t.disk.manifest == s.disk.manifest;
    assert s.back.flush.Some? ==> t.memory.imm == s.memory.imm && t.memory.logNumber == s.memory.logNumber;
    hide WriterNext, FrontNext;
  }

  lemma SyncedStays(logs: map<nat, LogFile>, n: nat, r: Record)
    requires n in logs && logs[n].synced <= |logs[n].records|
    requires logs[n].failedAt.Some? ==> logs[n].failedAt.value <= |logs[n].records|
    ensures SyncedOf(logs[n := AppendLog(logs[n], r)], n) == SyncedOf(logs, n)
    ensures SyncedOf(logs[n := FailLog(logs[n], r)], n) == SyncedOf(logs, n)
    ensures SyncedOf(logs, n) <= SyncedOf(logs[n := logs[n].(synced := |logs[n].records|)], n)
    ensures logs[n].synced == |logs[n].records| && logs[n].failedAt.None? ==>
            SyncedOf(logs, n) == Elements(Replay(logs[n].records))
  {
    var l := logs[n];
    var more := l.(synced := |l.records|);
    assert (l.records + [r])[..Firm(l)] == l.records[..Firm(l)];
    assert l.records[..|l.records|] == l.records;
    SyncedWithin(l.records[..Firm(more)], Firm(l));
    assert l.records[..Firm(more)][..Firm(l)] == l.records[..Firm(l)];
  }

  lemma WriterOwed(s: Db, t: Db, step: Step)
    requires Inv(s) && IsWriterStep(step) && WriterNext(s, t, step)
    ensures OwedOk(t)
  {
    hide TablesOk, ManifestOk, FrontOk, IsGroup, Ops, Stamp, MemoryBounds, UsedUpTo, FinishNext, Firm;
    var log := s.disk.logs[s.memory.logNumber];
    if step.Append? { SyncedStays(s.disk.logs, s.memory.logNumber, s.front.phase.record); }
    if step.SyncLog? { SyncedStays(s.disk.logs, s.memory.logNumber, Record(0, [])); }
    if step.Finish? { FinishOwed(s, t); }
  }

  lemma FinishOwed(s: Db, t: Db)
    requires Inv(s) && WriterNext(s, t, Finish)
    ensures OwedOk(t)
  {
    hide TablesOk, ManifestOk, GroupsOk, ResultsOk, InsertedOk, IsGroup, Ops, Stamp;
    SyncedStays(s.disk.logs, s.memory.logNumber, Record(0, []));
  }

  lemma WriterKeeps(s: Db, t: Db, step: Step)
    requires Inv(s) && IsWriterStep(step) && WriterNext(s, t, step)
    ensures Inv(t)
  {
    WriterLogs(s, t, step);
    WriterBounds(s, t, step);
    WriterTables(s, t, step);
    WriterOwed(s, t, step);
    if step.Finish? { FinishFront(s.front); } else { StepFront(s.front, t.front, s.memory, s.bgError, step); }
    hide *;
    hide FrontOk, LogsOk, LogNumbersOk, MemoryBounds, TablesOk, ManifestOk, OwedOk, FrontNext;
  }

  // ---------- steps of the background worker keep it ----------

  lemma TablesMore(tables: map<nat, set<Entry>>, n: nat, content: set<Entry>, files: set<nat>)
    requires n !in tables
    ensures AllIn(files, tables) ==>
              AllIn(files, tables[n := content]) && TablesOf(tables[n := content], files) == TablesOf(tables, files)
    ensures TablesOf(tables[n := content], files + {n}) == TablesOf(tables, files) + content
  {
    var more := tables[n := content];
    forall e | e in content ensures e in TablesOf(more, files + {n}) {
      assert n in files + {n} && e in more[n];
    }
    forall e | e in TablesOf(tables, files) ensures e in TablesOf(more, files + {n}) {
      var k :| k in files && k in tables && e in tables[k];
      assert k in files + {n} && e in more[k];
    }
  }

  lemma OwedSame(s: Db, t: Db)
    requires OwedOk(s) && s.acked == t.acked && s.safe == t.safe && s.flushed <= t.flushed && s.memory == t.memory
    requires s.disk.logs == t.disk.logs
    ensures OwedOk(t)
  {}

  lemma BoundsMore(m: Manifest, tables: map<nat, set<Entry>>, n: nat, content: set<Entry>,
                   nextNumber: nat, lastSequence: nat)
    requires ManifestBounds(m, tables, nextNumber, lastSequence) && n !in tables
    ensures ManifestBounds(m, tables[n := content], nextNumber, lastSequence)
  {}

  lemma StartFlushKeeps(s: Db, t: Db)
    requires Inv(s) && FlushNext(s, t, StartFlush)
    ensures Inv(t)
  {}

  /** Writing a table no version refers to yet changes nothing else. */
  lemma TableWritten(s: Db, t: Db, n: nat, content: set<Entry>)
    requires Inv(s) && n !in s.disk.tables && n < s.back.nextNumber
    requires t == s.(back := t.back, disk := s.disk.(tables := s.disk.tables[n := content]))
    requires t.back == s.back.(flush := t.back.flush, compaction := t.back.compaction) && t.back.apply.None?
    requires UsedUpTo(content, s.front.lastSequence)
    ensures OwedOk(t) && ManifestOk(t.back, t.disk, t.memory, t.front.lastSequence)
    ensures UsedUpTo(TablesOf(t.disk.tables, t.disk.tables.Keys), t.front.lastSequence)
  {
    hide FrontOk, LogsOk, LogNumbersOk, MemoryBounds, OwedOk, FlushOk, CompactionOk;
    TablesMore(s.disk.tables, n, content, s.back.version);
    OwedSame(s, t);
    BoundsMore(s.disk.manifest, s.disk.tables, n, content, s.back.nextNumber, s.front.lastSequence);
    TablesMore(s.disk.tables, n, content, s.disk.tables.Keys);
    assert t.disk.tables.Keys == s.disk.tables.Keys + {n};
    hide TablesOf, ManifestBounds;
  }

  lemma BuildFlushKeeps(s: Db, t: Db)
    requires Inv(s) && FlushNext(s, t, BuildFlush)
    ensures Inv(t)
  {
    var n, imm := s.back.flush.value.number, s.memory.imm.value;
    hide FrontOk, LogsOk, OwedOk;
    if imm == [] {
      OwedSame(s, t);
    } else {
      TableWritten(s, t, n, Elements(imm));
      BuiltTables(s, t, n, Elements(imm));
    }
    hide TablesOf, MemoryBounds;
  }

  lemma BuiltTables(s: Db, t: Db, n: nat, content: set<Entry>)
    requires Inv(s) && FlushNext(s, t, BuildFlush) && s.memory.imm.value != []
    requires n == s.back.flush.value.number && content == Elements(s.memory.imm.value)
    ensures TablesOk(t.back, t.disk.tables, t.memory.imm)
  {
    hide FrontOk, LogsOk, LogNumbersOk, MemoryBounds, OwedOk, ManifestOk;
    if s.back.compaction.Some? {
      TablesMore(s.disk.tables, n, content, s.back.compaction.value.inputs);
      TablesMore(s.disk.tables, n, content, s.back.compaction.value.outputs);
    }
    hide TablesOf;
  }

  lemma CommitFlushKeeps(s: Db, t: Db)
    requires Inv(s) && FlushNext(s, t, CommitFlush)
    ensures Inv(t)
  {
    hide FrontOk, LogsOk, MemoryBounds, OwedOk;
    OwedSame(s, t);
    NextBounds(s, t.back.apply.value.next);
    hide TablesOf;
  }

  lemma NextBounds(s: Db, next: Manifest)
    requires Inv(s) && AllIn(next.files, s.disk.tables) && next.lastSequence == s.front.lastSequence
             && next.next == s.back.nextNumber
    ensures ManifestBounds(next, s.disk.tables, s.back.nextNumber, s.front.lastSequence)
  {}

  lemma StartCompactionKeeps(s: Db, t: Db, inputs: set<nat>)
    requires Inv(s) && CompactionNext(s, t, StartCompaction(inputs))
    ensures Inv(t)
  {
    hide FrontOk, LogsOk, MemoryBounds, OwedOk;
    OwedSame(s, t);
  }

  lemma OpenOutputKeeps(s: Db, t: Db)
    requires Inv(s) && CompactionNext(s, t, OpenOutput)
    ensures Inv(t)
  {
    hide FrontOk, LogsOk, MemoryBounds, OwedOk;
    OwedSame(s, t);
    hide TablesOf;
  }

  lemma BuildOutputKeeps(s: Db, t: Db, n: nat, content: set<Entry>)
    requires Inv(s) && CompactionNext(s, t, BuildOutput(n, content))
    ensures Inv(t)
  {
    hide FrontOk, LogsOk, OwedOk, MemoryBounds;
    assert UsedUpTo(content, s.front.lastSequence);
    TableWritten(s, t, n, content);
    OutputTables(s, t, n, content);
    hide TablesOf;
  }

  lemma OutputTables(s: Db, t: Db, n: nat, content: set<Entry>)
    requires Inv(s) && CompactionNext(s, t, BuildOutput(n, content))
    ensures TablesOk(t.back, t.disk.tables, t.memory.imm)
  {
    hide FrontOk, LogsOk, LogNumbersOk, MemoryBounds, OwedOk, ManifestOk;
    TablesMore(s.disk.tables, n, content, s.back.compaction.value.inputs);
    TablesMore(s.disk.tables, n, content, s.back.compaction.value.outputs);
    hide TablesOf;
  }

  lemma CommitCompactionKeeps(s: Db, t: Db, smallest: nat)
    requires Inv(s) && CompactionNext(s, t, CommitCompaction(smallest))
    ensures Inv(t)
  {
    hide FrontOk, LogsOk, MemoryBounds, OwedOk, TablesOf;
    OwedSame(s, t);
    NextBounds(s, t.back.apply.value.next);
  }

  lemma WriteManifestKeeps(s: Db, t: Db)
    requires Inv(s) && Next(s, t, WriteManifest)
    ensures Inv(t)
  {
    hide FrontOk, LogsOk, MemoryBounds, OwedOk, TablesOf;
    OwedSame(s, t);
  }

  lemma PinKeeps(s: Db, t: Db, step: Step)
    requires Inv(s) && (step.Pin? || step.Unpin?) && Next(s, t, step)
    ensures Inv(t)
  {
    hide FrontOk, LogsOk, LogNumbersOk, MemoryBounds, OwedOk, TablesOf, ManifestBounds, UsedUpTo, AllIn;
    OwedSame(s, t);
  }

  lemma FailKeeps(s: Db, t: Db)
    requires Inv(s) && Next(s, t, BackgroundFails)
    ensures Inv(t)
  {
    hide FrontOk, LogNumbersOk, MemoryBounds, OwedOk, TablesOf, ManifestBounds, UsedUpTo, AllIn, Stamp, Replay;
    OwedSame(s, t);
  }

  // ---------- removing obsolete files ----------

  /** Tables that are live, and logs from the version's log number on, survive. */
  lemma CleanedKeeps(d: Disk, b: Back, bgError: bool, files: set<nat>)
    requires files <= Live(b)
    ensures TablesOf(Cleaned(d, b, bgError).tables, files) == TablesOf(d.tables, files)
    ensures AllIn(files, d.tables) ==> AllIn(files, Cleaned(d, b, bgError).tables)
    ensures Cleaned(d, b, bgError).tables.Keys <= d.tables.Keys
    ensures TablesOf(Cleaned(d, b, bgError).tables, Cleaned(d, b, bgError).tables.Keys) <= TablesOf(d.tables,
            d.tables.Keys)
  {
    var c := Cleaned(d, b, bgError).tables;
    forall e ensures e in TablesOf(c, files) <==> e in TablesOf(d.tables, files) {
      if e in TablesOf(d.tables, files) {
        var n :| n in files && n in d.tables && e in d.tables[n];
        assert n in c && e in c[n];
      }
    }
  }

  /** When a result is installed without an earlier error, of the tables exactly those stay that the version, a version
      in use, a pending output or a running compaction needs, unchanged, and of the logs exactly those of the two
      memtables; after an error nothing is removed. */
  lemma ObsoleteGone(s: Db, t: Db, step: Step)
    requires Inv(s) && Next(s, t, step) && (step.InstallFlush? || step.InstallCompaction?)
    ensures !s.bgError ==>
              && (forall n :: n in t.disk.tables <==> n in s.disk.tables && Needed(t.back, n))
              && (forall n :: n in t.disk.tables ==> t.disk.tables[n] == s.disk.tables[n])
              && (forall n :: n in t.disk.logs <==>
                    n == t.memory.logNumber || (t.memory.imm.Some? && n == t.memory.immLog))
    ensures s.bgError ==> t.disk == s.disk
  {
    hide Cleaned, Needed, Inv, Next, Live;
    InstalledDisk(s, t, step);
    CleanedExactly(s.disk, t.back, s.bgError);
    StepKeepsInv(s, t, step);
    if !s.bgError { TwoLogs(t); }
  }

  lemma InstalledDisk(s: Db, t: Db, step: Step)
    requires Next(s, t, step) && (step.InstallFlush? || step.InstallCompaction?)
    ensures t.disk == Cleaned(s.disk, t.back, s.bgError)
  {
    hide Cleaned;
  }

  ghost predicate Needed(b: Back, n: nat)
  {
    || n in b.version || n in b.pending || (exists h :: h in b.held && n in h)
    || (b.compaction.Some? && n in b.compaction.value.base)
  }

  lemma CleanedExactly(d: Disk, b: Back, bgError: bool)
    ensures var c := Cleaned(d, b, bgError);
      if bgError then c == d
      else
        && c.manifest == d.manifest
        && (forall n :: n in c.tables <==> n in d.tables && Needed(b, n))
        && (forall n :: n in c.tables ==> c.tables[n] == d.tables[n])
        && (forall n :: n in c.logs <==> n in d.logs && n >= b.log)
  {
    forall n: nat ensures n in Live(b) <==> Needed(b, n) {}
    hide Live, Needed;
  }

  lemma TwoLogs(t: Db)
    requires Inv(t) && forall n :: n in t.disk.logs ==> n >= t.back.log
    ensures forall n :: n in t.disk.logs <==> n == t.memory.logNumber || (t.memory.imm.Some? && n == t.memory.immLog)
  {
    hide FrontOk, TablesOk, MemoryBounds, OwedOk, ManifestOk, Stamp, Replay;
  }

  lemma InstallFlushLogs(s: Db, t: Db)
    requires Inv(s) && FlushNext(s, t, InstallFlush)
    ensures LogsOk(t.disk.logs, t.memory, t.front, t.bgError)
            && LogNumbersOk(t.disk.logs, t.memory, t.back.log, t.back.nextNumber)
    ensures MemoryBounds(t.memory, t.front) && SyncedOf(t.disk.logs, t.memory.logNumber) ==
            SyncedOf(s.disk.logs, s.memory.logNumber)
  {
    hide FrontOk, OwedOk, TablesOk, ManifestBounds, Stamp, Replay;
  }

  lemma InstallFlushTables(s: Db, t: Db)
    requires Inv(s) && FlushNext(s, t, InstallFlush)
    ensures TablesOk(t.back, t.disk.tables, t.memory.imm)
    ensures UsedUpTo(TablesOf(t.disk.tables, t.disk.tables.Keys), t.front.lastSequence)
    ensures TablesOf(t.disk.tables, t.back.version) == TablesOf(s.disk.tables, s.back.version) +
            Elements(s.memory.imm.value)
  {
    hide FrontOk, OwedOk, LogsOk, LogNumbersOk, MemoryBounds;
    var b, tables := t.back, s.disk.tables;
    TablesUnion(tables, s.back.version, {s.back.flush.value.number});
    CleanedKeeps(s.disk, b, s.bgError, b.version);
    forall h | h in b.held ensures AllIn(h, t.disk.tables) { CleanedKeeps(s.disk, b, s.bgError, h); }
    if b.compaction.Some? {
      var c := b.compaction.value;
      CleanedKeeps(s.disk, b, s.bgError, c.base);
      CleanedKeeps(s.disk, b, s.bgError, c.inputs);
      CleanedKeeps(s.disk, b, s.bgError, c.outputs);
    }
    hide TablesOf, Cleaned;
  }

  lemma InstallFlushManifest(s: Db, t: Db)
    requires Inv(s) && FlushNext(s, t, InstallFlush)
    ensures ManifestOk(t.back, t.disk, t.memory, t.front.lastSequence)
  {
    CleanedKeeps(s.disk, t.back, s.bgError, t.back.version);
    hide FrontOk, OwedOk, LogsOk, LogNumbersOk, MemoryBounds, TablesOk, TablesOf;
  }

  lemma InstallFlushOwed(s: Db, t: Db)
    requires Inv(s) && FlushNext(s, t, InstallFlush)
    ensures OwedOk(t)
  {
    InstallFlushLogs(s, t);
    InstallFlushTables(s, t);
    FlushedSynced(s);
    hide FrontOk, TablesOk, LogsOk, LogNumbersOk, MemoryBounds, ManifestOk, TablesOf, Cleaned, SyncedOf, UsedUpTo;
  }

  lemma InstallFlushKeeps(s: Db, t: Db)
    requires Inv(s) && FlushNext(s, t, InstallFlush)
    ensures Inv(t)
  {
    InstallFlushLogs(s, t);
    InstallFlushTables(s, t);
    InstallFlushManifest(s, t);
    InstallFlushOwed(s, t);
    hide FrontOk, TablesOk, LogsOk, LogNumbersOk, MemoryBounds, ManifestOk, OwedOk, TablesOf, Cleaned, UsedUpTo;
  }

  lemma FlushedSynced(s: Db)
    requires Inv(s) && s.memory.imm.Some?
    ensures SyncedOf(s.disk.logs, s.memory.immLog) <= Elements(s.memory.imm.value)
  {
    var l := s.disk.logs[s.memory.immLog];
    SyncedWithin(l.records, Firm(l));
  }

  lemma InstallCompactionTables(s: Db, t: Db)
    requires Inv(s) && CompactionNext(s, t, InstallCompaction)
    ensures TablesOk(t.back, t.disk.tables, t.memory.imm)
    ensures UsedUpTo(TablesOf(t.disk.tables, t.disk.tables.Keys), t.front.lastSequence)
    ensures ManifestOk(t.back, t.disk, t.memory, t.front.lastSequence)
    ensures TablesOf(t.disk.tables, t.back.version) == TablesOf(s.disk.tables, t.back.version)
  {
    hide FrontOk, OwedOk, LogsOk, LogNumbersOk, MemoryBounds;
    var b := t.back;
    CleanedKeeps(s.disk, b, s.bgError, b.version);
    forall h | h in b.held ensures AllIn(h, t.disk.tables) { CleanedKeeps(s.disk, b, s.bgError, h); }
    hide TablesOf;
  }

  lemma InstallCompactionKeeps(s: Db, t: Db)
    requires Inv(s) && CompactionNext(s, t, InstallCompaction)
    ensures Inv(t)
  {
    InstallCompactionTables(s, t);
    assert SyncedLogs(t.disk.logs, t.memory) == SyncedLogs(s.disk.logs, s.memory);
    assert LogsOk(t.disk.logs, t.memory, t.front, t.bgError)
           && LogNumbersOk(t.disk.logs, t.memory, t.back.log, t.back.nextNumber);
    hide FrontOk, TablesOk, MemoryBounds, ManifestOk, LogsOk, LogNumbersOk, TablesOf, SyncedLogs,
        UsedUpTo, Stamp, Replay;
  }

  // ---------- crashes keep it ----------

  /** A record that was synced is replayed, wherever the unsynced tails are cut. */
  lemma SyncedReplayed(logs: map<nat, LogFile>, cut: map<nat, seq<Record>>, n: nat, first: nat)
    requires CutOk(logs, cut) && n in logs && first <= n
    ensures SyncedOf(logs, n) <= LogsFrom(Cut(logs, cut), first)
  {
    var l, kept := logs[n], Cut(logs, cut);
    assert Found(l, cut[n]);
    SyncedWithin(cut[n], Firm(l));
    assert cut[n][..Firm(l)] == l.records[..Firm(l)];
    forall e | e in SyncedOf(logs, n) ensures e in LogsFrom(kept, first) {
      assert e in Replay(kept[n].records);
    }
  }

  /** What sync writers were promised survives every machine crash. */
  lemma SafeSurvivesCrash(s: Db, cut: map<nat, seq<Record>>)
    requires Inv(s) && CutOk(s.disk.logs, cut)
    ensures s.safe <= OnDisk(s) + LogsFrom(Cut(s.disk.logs, cut), s.disk.manifest.log)
  {
    ManifestLog(s);
    FlushedSyncedIf(s);
    SyncedReplayed(s.disk.logs, cut, s.memory.logNumber, s.disk.manifest.log);
    if s.memory.imm.Some? && s.disk.manifest.log <= s.memory.immLog {
      SyncedReplayed(s.disk.logs, cut, s.memory.immLog, s.disk.manifest.log);
    }
    hide FrontOk, LogsOk, LogNumbersOk, MemoryBounds, TablesOk, ManifestOk, TablesOf, LogsFrom, SyncedOf;
  }

  lemma FlushedSyncedIf(s: Db)
    requires Inv(s)
    ensures s.memory.imm.Some? ==> SyncedOf(s.disk.logs, s.memory.immLog) <= Elements(s.memory.imm.value)
  {
    if s.memory.imm.Some? { FlushedSynced(s); }
  }

  /** The reopened version holds exactly what the cut disk holds. */
  lemma ReopenedContents(s: Db, t: Db, cut: map<nat, seq<Record>>, rebuilt: map<nat, set<Entry>>)
    requires Inv(s) && CrashNext(s, t, cut, rebuilt)
    ensures Contents(t) == Recovered(s.disk.(logs := Cut(s.disk.logs, cut)))
  {
    var m, tables := s.disk.manifest, s.disk.tables;
    hide FrontOk, LogsOk, LogNumbersOk, MemoryBounds, TablesOk, OwedOk, LogsFrom;
    assert rebuilt.Keys !! m.files;
    forall e | e in TablesOf(tables, m.files) ensures e in TablesOf(t.disk.tables, t.back.version) {
      var n :| n in m.files && n in tables && e in tables[n];
      assert n in t.disk.tables && e in t.disk.tables[n];
    }
    forall e | e in TablesOf(rebuilt, rebuilt.Keys) ensures e in TablesOf(t.disk.tables, t.back.version) {
      var n :| n in rebuilt && e in rebuilt[n];
      assert n in t.disk.tables && e in t.disk.tables[n];
    }
    forall e | e in TablesOf(t.disk.tables, t.back.version)
      ensures e in TablesOf(tables, m.files) + TablesOf(rebuilt, rebuilt.Keys) {
      var n :| n in t.back.version && n in t.disk.tables && e in t.disk.tables[n];
      if n !in rebuilt { assert n in m.files && n in tables; }
    }
  }

  lemma CrashOwed(s: Db, t: Db, cut: map<nat, seq<Record>>, rebuilt: map<nat, set<Entry>>)
    requires Inv(s) && CrashNext(s, t, cut, rebuilt)
    ensures OwedOk(t)
  {
    MemoryOnDisk(s);
    SafeSurvivesCrash(s, cut);
    assert InMemory(t.memory) == {};
    hide FrontOk, LogsOk, LogNumbersOk, MemoryBounds, TablesOk, ManifestOk, TablesOf, LogsFrom, SyncedLogs;
  }

  lemma CrashLogs(s: Db, t: Db, cut: map<nat, seq<Record>>, rebuilt: map<nat, set<Entry>>)
    requires Inv(s) && CrashNext(s, t, cut, rebuilt)
    ensures LogsOk(t.disk.logs, t.memory, t.front, t.bgError)
            && LogNumbersOk(t.disk.logs, t.memory, t.back.log, t.back.nextNumber)
    ensures MemoryBounds(t.memory, t.front)
  {
    hide Inv, TablesOf, LogsFrom;
  }

  lemma CrashTables(s: Db, t: Db, cut: map<nat, seq<Record>>, rebuilt: map<nat, set<Entry>>)
    requires Inv(s) && CrashNext(s, t, cut, rebuilt)
    ensures TablesOk(t.back, t.disk.tables, t.memory.imm) && ManifestOk(t.back, t.disk, t.memory, t.front.lastSequence)
    ensures UsedUpTo(TablesOf(t.disk.tables, t.disk.tables.Keys), t.front.lastSequence)
  {
    hide Inv, CrashNext, TablesOf;
    UsedWithin(s, t, cut, rebuilt);
  }

  lemma UsedWithin(s: Db, t: Db, cut: map<nat, seq<Record>>, rebuilt: map<nat, set<Entry>>)
    requires Inv(s) && CrashNext(s, t, cut, rebuilt)
    ensures UsedUpTo(TablesOf(t.disk.tables, t.back.version), t.front.lastSequence)
    ensures forall n :: n in t.back.version ==> n < t.back.nextNumber
    ensures t.back == Back(t.back.version, t.back.log, [], {}, t.back.nextNumber, None, None, None, false)
    ensures t.disk.tables.Keys == t.back.version
    ensures t.disk.manifest == Manifest(t.back.version, t.back.log, t.front.lastSequence, t.back.nextNumber)
  {
    hide FrontOk, LogsOk, LogNumbersOk, MemoryBounds, TablesOk, OwedOk, ApplyOk, LogsFrom;
    ReopenedContents(s, t, cut, rebuilt);
  }

  lemma CrashKeeps(s: Db, t: Db, cut: map<nat, seq<Record>>, rebuilt: map<nat, set<Entry>>)
    requires Inv(s) && CrashNext(s, t, cut, rebuilt)
    ensures Inv(t)
  {
    CrashOwed(s, t, cut, rebuilt);
    CrashLogs(s, t, cut, rebuilt);
    CrashTables(s, t, cut, rebuilt);
    CrashFront(s.front, t.front);
    hide CrashNext, FrontOk, LogsOk, LogNumbersOk, MemoryBounds, TablesOk, ManifestOk, OwedOk, UsedUpTo;
  }

  lemma CrashFront(f: Front, g: Front)
    requires FrontOk(f) && g == Front(f.writers, [], NoLeader, f.results, g.lastSequence, |f.writers|, [], [])
    ensures FrontOk(g)
  {}

  // ---------- runs ----------

  lemma EnqueueKeeps(s: Db, t: Db, w: Writer)
    requires Inv(s) && Next(s, t, Enqueue(w))
    ensures Inv(t)
  {
    EnqueueFront(s.front, w);
    hide FrontOk, TablesOk, ManifestOk, TablesOf, Replay, Stamp, SyncedLogs;
  }

  lemma BackgroundKeeps(s: Db, t: Db, step: Step)
    requires Inv(s) && (FlushNext(s, t, step) || CompactionNext(s, t, step))
    ensures Inv(t)
  {
    hide Inv;
    match step
    case StartFlush => StartFlushKeeps(s, t);
    case BuildFlush => BuildFlushKeeps(s, t);
    case CommitFlush => CommitFlushKeeps(s, t);
    case InstallFlush => InstallFlushKeeps(s, t);
    case StartCompaction(inputs) => StartCompactionKeeps(s, t, inputs);
    case OpenOutput => OpenOutputKeeps(s, t);
    case BuildOutput(n, content) => BuildOutputKeeps(s, t, n, content);
    case CommitCompaction(smallest) => CommitCompactionKeeps(s, t, smallest);
    case InstallCompaction => InstallCompactionKeeps(s, t);
  }

  lemma StepKeepsInv(s: Db, t: Db, step: Step)
    requires Inv(s) && Next(s, t, step)
    ensures Inv(t)
  {
    hide Inv, FlushNext, CompactionNext, CrashNext, WriterNext;
    match step
    case Enqueue(w) => EnqueueKeeps(s, t, w);
    case WriteManifest => WriteManifestKeeps(s, t);
    case BackgroundFails => FailKeeps(s, t);
    case Pin => PinKeeps(s, t, step);
    case Unpin(_) => PinKeeps(s, t, step);
    case Crash(cut, rebuilt) => CrashKeeps(s, t, cut, rebuilt);
    case _ =>
      if IsWriterStep(step) { WriterKeeps(s, t, step); } else { BackgroundKeeps(s, t, step); }
  }

  /** A new database: an empty version, an empty log. */
  ghost predicate Init(s: Db)
  {
    s == Db(Front([], [], NoLeader, map[], 0, 0, [], []), Memory([], None, 1, 0, None),
            Disk(map[], map[1 := NEW_LOG], Manifest({}, 1, 0, 2)), Back({}, 1, [], {}, 2, None, None, None, false),
            false, {}, {}, {}, 0)
  }

  ghost predicate Run(states: seq<Db>, steps: seq<Step>)
  {
    && |states| == |steps| + 1 && Init(states[0])
    && forall i :: 0 <= i < |steps| ==> Next(states[i], states[i + 1], steps[i])
  }

  lemma {:induction false} RunsKeepInv(states: seq<Db>, steps: seq<Step>, n: nat)
    requires Run(states, steps) && n < |states|
    ensures Inv(states[n])
  {
    if n == 0 {
    } else {
      RunsKeepInv(states, steps, n - 1);
      hide Inv, Next;
      StepKeepsInv(states[n - 1], states[n], steps[n - 1]);
    }
  }

  // ---------- what callers may rely on ----------

  /** In every reachable state every table of a version in use, of the version a running compaction began with and of
      its finished outputs, and the logs behind both memtables, are on disk. */
  lemma FilesAreKept(states: seq<Db>, steps: seq<Step>, n: nat)
    requires Run(states, steps) && n < |states|
    ensures var s := states[n];
      && s.back.version <= s.disk.tables.Keys && (forall h :: h in s.back.held ==> h <= s.disk.tables.Keys)
      && s.disk.manifest.files <= s.disk.tables.Keys
      && (s.back.compaction.Some? ==>
            s.back.compaction.value.base <= s.disk.tables.Keys && s.back.compaction.value.outputs <= s.disk.tables.Keys)
      && (s.back.flush.Some? && s.back.flush.value.built && s.memory.imm.Some? && s.memory.imm.value != [] ==>
            s.back.flush.value.number in s.disk.tables)
      && s.memory.logNumber in s.disk.logs && (s.memory.imm.Some? ==> s.memory.immLog in s.disk.logs)
  {
    RunsKeepInv(states, steps, n);
    hide FrontOk, LogNumbersOk, MemoryBounds;
    assert forall h :: h in states[n].back.held ==> AllIn(h, states[n].disk.tables);
  }

  /** Promises are never taken back: not to sync writers, and to others only by a crash that cuts a log. */
  lemma PromisesGrow(s: Db, t: Db, step: Step)
    requires Next(s, t, step)
    ensures s.safe <= t.safe
    ensures !step.Crash? ==> s.acked <= t.acked
    ensures step.Crash? && Whole(s.disk.logs, step.cut) ==> s.acked <= t.acked
  {
    hide Stamp, Replay, Live, TablesOf, LogsFrom, Cleaned, FrontNext;
    if step.Crash? && Whole(s.disk.logs, step.cut) {
      WholeLogs(s.disk.logs, step.cut, s.disk.manifest.log);
    }
  }

  /** The crash takes no record away. */
  ghost predicate Whole(logs: map<nat, LogFile>, cut: map<nat, seq<Record>>)
  {
    cut.Keys == logs.Keys && forall n :: n in logs ==> logs[n].records <= cut[n]
  }

  lemma WholeLogs(logs: map<nat, LogFile>, cut: map<nat, seq<Record>>, first: nat)
    requires CutOk(logs, cut) && Whole(logs, cut)
    ensures LogsFrom(logs, first) <= LogsFrom(Cut(logs, cut), first)
  {
    forall e | e in LogsFrom(logs, first) ensures e in LogsFrom(Cut(logs, cut), first) {
      var n :| n in logs && n >= first && e in Replay(logs[n].records);
      SyncedWithin(cut[n], |logs[n].records|);
      assert cut[n][..|logs[n].records|] == logs[n].records;
      assert e in Elements(Replay(cut[n]));
      assert e in Replay(Cut(logs, cut)[n].records);
    }
  }

  /** Reopening invents nothing: it finds what readers saw and the group in flight. */
  lemma RecoveredWithinContents(s: Db)
    requires Inv(s)
    ensures Recovered(s.disk) <= Contents(s) + Elements(Extra(s.front.phase, s.memory.orphan))
  {
    hide FrontOk, OwedOk, MemoryBounds;
    ManifestWithin(s);
    ManifestLog(s);
    hide TablesOk, ManifestOk, TablesOf, Stamp, Replay;
    forall e | e in LogsFrom(s.disk.logs, s.disk.manifest.log)
      ensures e in InMemory(s.memory) + Elements(Extra(s.front.phase, s.memory.orphan))
    {
      var n :| n in s.disk.logs && n >= s.disk.manifest.log && e in Replay(s.disk.logs[n].records);
    }
  }

  lemma ManifestWithin(s: Db)
    requires Inv(s)
    ensures TablesOf(s.disk.tables, s.disk.manifest.files) <= Contents(s)
  {
    var b, tables := s.back, s.disk.tables;
    hide FrontOk, OwedOk, LogsOk, LogNumbersOk, MemoryBounds;
    if b.apply.Some? && b.apply.value.written {
      if b.flush.Some? {
        TablesUnion(tables, b.version, {b.flush.value.number});
      } else {
        var c := b.compaction.value;
        TablesUnion(tables, b.version - c.inputs, c.outputs);
      }
    }
  }

  /** A group is given sequence numbers above everything stored. */
  lemma NumbersUnused(s: Db)
    requires Inv(s) && (s.front.phase.Grouped? || s.front.phase.Logged?)
    ensures forall e :: e in Contents(s) ==> e.key.sequence < s.front.phase.record.first
  {}

  // ---------- group commit: applied once, in order ----------

  function AllOps(records: seq<Record>): seq<Op>
  {
    if records == [] then [] else AllOps(records[..|records| - 1]) + records[|records| - 1].ops
  }

  /** The batches of the writers acknowledged OK among openedAt..n, in order of arrival. */
  function AckedOps(f: Front, n: nat): seq<Op>
    decreases n
  {
    if n <= f.openedAt then []
    else AckedOps(f, n - 1) + (if n - 1 in f.results && f.results[n - 1]
        && n <= |f.writers| then BatchOps(f.writers[n - 1]) else [])
  }

  lemma {:induction false} AckedGroup(f: Front, from: nat, n: nat)
    requires f.openedAt <= from <= n <= |f.writers| && forall id :: from <= id < n ==> id in f.results && f.results[id]
    ensures AckedOps(f, n) == AckedOps(f, from) + Ops(f.writers[from..n])
    decreases n
  {
    if n > from {
      AckedGroup(f, from, n - 1);
      var ws := f.writers[from..n];
      assert ws[..n - 1 - from] == f.writers[from..n - 1] && ws[n - 1 - from] == f.writers[n - 1];
      assert AckedOps(f, n) == AckedOps(f, n - 1) + BatchOps(f.writers[n - 1]);
    }
  }

  ghost predicate Below(f: Front, i: nat, n: nat)
  {
    && i <= |f.groups| && (forall j :: 0 <= j < i ==> f.groups[j].to <= n)
    && forall j :: i <= j < |f.groups| ==> n <= f.groups[j].from
  }

  lemma BelowLast(f: Front, i: nat, n: nat)
    requires GroupsOk(f) && Below(f, i, n) && i > 0
    ensures var g := f.groups[i - 1];
            g.to <= n && OneGroupOk(f, g) && Below(f, i - 1, g.from) && (g.to < n ==> Below(f, i, n - 1))
  {}

  lemma BetweenGroups(f: Front, i: nat, n: nat)
    requires ResultsOk(f) && f.openedAt < n <= |f.writers| && Below(f, i, n) && Below(f, i, n - 1)
    ensures AckedOps(f, n) == AckedOps(f, n - 1)
  {}

  /** The groups below writer n apply exactly the acknowledged batches below n. */
  lemma {:induction false} AppliedUpTo(f: Front, i: nat, n: nat)
    requires QueueOk(f) && GroupsOk(f) && ResultsOk(f) && Below(f, i, n) && f.openedAt <= n <= Head(f)
    ensures AllOps(Records(f.groups[..i])) == AckedOps(f, n)
    decreases n
  {
    if i > 0 { BelowLast(f, i, n); }
    if i > 0 && f.groups[i - 1].to == n {
      var g := f.groups[i - 1];
      hide Below, QueueOk, GroupsOk, ResultsOk;
      assert Records(f.groups[..i])[..i - 1] == Records(f.groups[..i - 1]);
      AppliedUpTo(f, i - 1, g.from);
      AckedGroup(f, g.from, n);
    } else if n > f.openedAt {
      assert Below(f, i, n - 1);
      BetweenGroups(f, i, n);
      AppliedUpTo(f, i, n - 1);
    }
  }

  ghost predicate Applying(f: Front)
  {
    f.phase.Done? && f.phase.ok && f.phase.written.Some?
  }

  lemma InsertedOps(f: Front)
    requires InsertedOk(f)
    ensures AllOps(f.inserted) == AllOps(Records(f.groups)) + (if Applying(f) then f.phase.written.value.ops else [])
  {
    assert Records(f.groups) + [] == Records(f.groups);
    if Applying(f) { assert f.inserted[..|f.groups|] == Records(f.groups); }
  }

  lemma InsertedAscending(f: Front, i: nat, j: nat)
    requires PhaseOk(f) && GroupsOk(f) && InsertedOk(f) && i < j < |f.inserted|
    ensures f.inserted[i].first + |f.inserted[i].ops| <= f.inserted[j].first
  {}

  /** Since the database was opened, the memtables were given the batches of the writers acknowledged OK, each
      once, in order of arrival, and nothing else (but a group about to be acknowledged), under ascending
      sequence numbers. */
  lemma AppliedOnceInOrder(states: seq<Db>, steps: seq<Step>, n: nat)
    requires Run(states, steps) && n < |states|
    ensures var f := states[n].front;
      && 0 <= Head(f)
      && AllOps(f.inserted) == AckedOps(f, Head(f)) + (if Applying(f) then f.phase.written.value.ops else [])
      && forall i, j :: 0 <= i < j < |f.inserted| ==> f.inserted[i].first + |f.inserted[i].ops| <= f.inserted[j].first
  {
    RunsKeepInv(states, steps, n);
    var f := states[n].front;
    hide LogsOk, LogNumbersOk, MemoryBounds, TablesOk, ManifestOk, OwedOk;
    forall j | 0 <= j < |f.groups| ensures f.groups[j].to <= Head(f) { assert OneGroupOk(f, f.groups[j]); }
    assert f.groups[..|f.groups|] == f.groups;
    hide PhaseOk, QueueOk, GroupsOk, ResultsOk, InsertedOk;
    assert 0 <= Head(f) && f.openedAt <= Head(f) by { HeadOk(f); }
    AppliedUpTo(f, |f.groups|, Head(f));
    InsertedOps(f);
    forall i, j | 0 <= i < j < |f.inserted| ensures f.inserted[i].first + |f.inserted[i].ops| <= f.inserted[j].first {
      InsertedAscending(f, i, j);
    }
  }

  lemma HeadOk(f: Front)
    requires QueueOk(f)
    ensures f.openedAt <= Head(f)
  {}
}
