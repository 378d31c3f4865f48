/** What the entries of the running database, and of the disk after a crash, say of every key: the newest of the
    writes that survive, although compactions have dropped entries in between (db/db_impl.cc). */
module DurableReads {
  import opened Keys
  import opened GroupCommit
  import opened Durability
  import Files
  import Compaction

  // ---------- layers of entries ----------

  /** No two entries have the same sequence number. */
  ghost predicate SequencesDiffer(E: set<Entry>)
  {
    forall e, d :: e in E && d in E && e.key.sequence == d.key.sequence ==> e == d
  }

  lemma LayersNumbered(A: set<Entry>, B: set<Entry>)
    requires SequencesDiffer(A) && SequencesDiffer(B) && Above(A, B)
    ensures SequencesDiffer(A + B) && Distinct(A + B)
  {}

  /** A newer layer on both sides keeps readings equal. */
  lemma SameUnderLayer(L: set<Entry>, A: set<Entry>, B: set<Entry>, horizon: nat)
    requires ReadsEqual(A, B, horizon) && B <= A && Above(L, A) && SequencesDiffer(L) && SequencesDiffer(A)
    ensures ReadsEqual(A + L, B + L, horizon)
  {
    LayersNumbered(L, A);
    assert Distinct(L + B);
    forall user, q: nat | horizon <= q ensures Read(A + L, user, q) == Read(B + L, user, q) {
      assert A + L == L + A && B + L == L + B;
      assert Read(A, user, q) == Read(B, user, q);
      hide Newest, ReadsEqual;
      LayerDecides(L, A, user, q);
      LayerDecides(L, B, user, q);
    }
  }

  // ---------- the invariant ----------

  /** All that may be found in a log file. */
  ghost function FoundIn(l: LogFile): set<Entry>
  {
    Elements(Replay(l.records)) + Elements(Replay(l.strays))
  }

  ghost function CurrentLog(s: Db): set<Entry>
  {
    if s.memory.logNumber in s.disk.logs then FoundIn(s.disk.logs[s.memory.logNumber]) else {}
  }

  ghost function OlderLog(s: Db): set<Entry>
  {
    if s.memory.imm.Some? && s.memory.immLog in s.disk.logs then FoundIn(s.disk.logs[s.memory.immLog]) else {}
  }

  ghost function Frozen(s: Db): set<Entry>
  {
    if s.memory.imm.Some? then Elements(s.memory.imm.value) else {}
  }

  /** The largest sequence number that the current log may hold. */
  function LogLimit(f: Front): nat
  {
    match f.phase
    case Logged(_, r, _) => f.lastSequence + |r.ops|
    case Done(_, Some(r), _, _) => f.lastSequence + |r.ops|
    case _ => f.lastSequence
  }

  /** The current log is newer than the log of the immutable memtable, which is newer than all that was flushed. */
  ghost predicate LayersOk(s: Db)
  {
    && SequencesDiffer(CurrentLog(s)) && SequencesDiffer(OlderLog(s)) && SequencesDiffer(s.flushed)
       && Frozen(s) <= OlderLog(s)
    && Above(CurrentLog(s), s.flushed) && Above(OlderLog(s), s.flushed) && Above(CurrentLog(s), OlderLog(s))
    && UsedUpTo(CurrentLog(s), LogLimit(s.front)) && UsedUpTo(OlderLog(s), s.front.lastSequence)
  }

  /** The tables of the version read as all that was flushed, from the horizon on. */
  ghost predicate VersionReads(s: Db)
  {
    var T := TablesOf(s.disk.tables, s.back.version);
    T <= s.flushed && ReadsEqual(s.flushed, T, s.horizon)
  }

  ghost predicate ManifestReads(s: Db)
  {
    && UsedUpTo(s.flushed, s.disk.manifest.lastSequence) && s.horizon <= s.disk.manifest.lastSequence
    && (s.back.apply.Some? ==>
          var a := s.back.apply.value;
          && s.horizon <= a.smallest <= a.next.lastSequence && UsedUpTo(s.flushed, a.next.lastSequence)
          && (if s.back.flush.Some? then a.smallest == s.horizon && UsedUpTo(Frozen(s), a.next.lastSequence)
              else ReadsEqual(TablesOf(s.disk.tables, s.back.version), TablesOf(s.disk.tables, a.next.files),
                  a.smallest)))
  }

  ghost predicate ReadOk(s: Db)
  {
    LayersOk(s) && VersionReads(s) && ManifestReads(s)
  }

  // ---------- steps of the writers ----------

  lemma Bounds(s: Db)
    requires Inv(s) && ReadOk(s)
    ensures UsedUpTo(s.flushed, s.front.lastSequence) && UsedUpTo(Frozen(s), s.front.lastSequence)
    ensures s.horizon <= s.disk.manifest.lastSequence <= s.front.lastSequence
    ensures s.memory.logNumber in s.disk.logs
  {
    hide TablesOk, OwedOk, FrontOk, LogNumbersOk, ReadsEqual, TablesOf, LayersOk;
  }

  lemma GroupNumber(s: Db)
    requires Inv(s) && s.front.phase.Grouped?
    ensures s.front.phase.record.first == s.front.lastSequence + 1
  {
    hide LogsOk, LogNumbersOk, MemoryBounds, TablesOk, ManifestOk, OwedOk;
  }

  /** A group that goes to the log, wholly or in part, is newer than everything. */
  lemma LayersAppend(cur: set<Entry>, r: Record, older: set<Entry>, flushed: set<Entry>, last: nat)
    requires SequencesDiffer(cur) && UsedUpTo(cur, last) && r.first == last + 1
    requires Above(cur, flushed) && Above(cur, older) && UsedUpTo(flushed, last) && UsedUpTo(older, last)
    ensures var more := cur + Elements(Stamp(r));
      SequencesDiffer(more) && UsedUpTo(more, last + |r.ops|) && Above(more, flushed) && Above(more, older)
  {
    forall e | e in Stamp(r) ensures last < e.key.sequence <= last + |r.ops| {}
  }

  lemma LogGrows(l: LogFile, r: Record)
    ensures FoundIn(AppendLog(l, r)) == FoundIn(l) + Elements(Stamp(r)) == FoundIn(FailLog(l, r))
  {
    ReplayMore(l.records, r);
    ReplayMore(l.strays, r);
    hide Replay, Stamp;
  }

  lemma AppendLayers(s: Db, t: Db, ok: bool)
    requires Inv(s) && ReadOk(s) && WriterNext(s, t, Append(ok))
    ensures LayersOk(t)
  {
    hide Inv, VersionReads, ManifestReads, Stamp, FoundIn, Above, UsedUpTo, SequencesDiffer;
    Bounds(s);
    GroupNumber(s);
    OlderIsOther(s);
    var r := s.front.phase.record;
    LogGrows(s.disk.logs[s.memory.logNumber], r);
    LayersAppend(CurrentLog(s), r, OlderLog(s), s.flushed, s.front.lastSequence);
  }

  lemma OlderIsOther(s: Db)
    requires Inv(s)
    ensures s.memory.imm.Some? ==> s.memory.immLog != s.memory.logNumber
  {
    hide FrontOk, LogNumbersOk, MemoryBounds, TablesOk, ManifestOk, OwedOk;
  }

  /** Steps that touch neither log nor memtable. */
  lemma SameLayers(s: Db, t: Db)
    requires LayersOk(s) && CurrentLog(t) == CurrentLog(s) && OlderLog(t) == OlderLog(s) && Frozen(t) == Frozen(s)
    requires t.flushed == s.flushed && LogLimit(s.front) <= LogLimit(t.front)
             && s.front.lastSequence <= t.front.lastSequence
    ensures LayersOk(t)
  {}

  lemma SwitchLayers(s: Db, t: Db)
    requires Inv(s) && ReadOk(s) && WriterNext(s, t, SwitchLog)
    ensures LayersOk(t)
  {
    hide TablesOk, OwedOk, ManifestOk, FrontOk, VersionReads, ManifestReads, MemoryBounds;
    assert s.memory.mem + [] == s.memory.mem;
    assert Replay(s.disk.logs[s.memory.logNumber].records) == s.memory.mem;
    FreshLog(s);
    assert Replay([]) == [] && CurrentLog(t) == {} && OlderLog(t) == CurrentLog(s) && OlderLog(s) == {};
    hide Stamp, Replay, LogsOk, Above, SequencesDiffer, UsedUpTo;
    NothingAbove(s.flushed);
  }

  lemma FreshLog(s: Db)
    requires Inv(s)
    ensures s.back.nextNumber !in s.disk.logs && s.memory.logNumber < s.back.nextNumber
  {
    hide FrontOk, MemoryBounds, TablesOk, ManifestOk, OwedOk;
  }

  lemma NothingAbove(E: set<Entry>)
    ensures forall n: nat :: UsedUpTo({}, n)
    ensures SequencesDiffer({}) && Above({}, E) && forall D: set<Entry> :: Above({}, D)
  {}

  lemma SyncFinds(l: LogFile, n: nat)
    ensures FoundIn(l.(synced := n)) == FoundIn(l)
  {}

  lemma WriterLayers(s: Db, t: Db, step: Step)
    requires Inv(s) && ReadOk(s) && IsWriterStep(step) && WriterNext(s, t, step)
    ensures LayersOk(t)
  {
    hide Inv, FoundIn, Stamp, ManifestReads, VersionReads, IsGroup, Ops, LayersOk;
    match step
    case Append(ok) => AppendLayers(s, t, ok);
    case SwitchLog => SwitchLayers(s, t);
    case SyncLog(_) =>
      SyncFinds(s.disk.logs[s.memory.logNumber], |s.disk.logs[s.memory.logNumber].records|);
      SameLayers(s, t);
    case _ => SameLayers(s, t);
  }

  lemma WriterReads(s: Db, t: Db, step: Step)
    requires Inv(s) && ReadOk(s) && IsWriterStep(step) && WriterNext(s, t, step)
    ensures ReadOk(t)
  {
    hide Inv, LayersOk, TablesOf, ReadsEqual, WriterNext, Frozen, UsedUpTo;
    WriterLayers(s, t, step);
    WriterSame(s, t, step);
  }

  /** Writers leave tables, manifest and version alone, and the immutable memtable while it is being flushed. */
  lemma WriterSame(s: Db, t: Db, step: Step)
    requires Inv(s) && IsWriterStep(step) && WriterNext(s, t, step)
    ensures t.disk.tables == s.disk.tables && t.disk.manifest == s.disk.manifest
    ensures t.back == s.back.(nextNumber := t.back.nextNumber) && t.flushed == s.flushed && t.horizon == s.horizon
    ensures s.back.flush.Some? ==> Frozen(t) == Frozen(s)
  {
    hide FrontOk, LogsOk, OwedOk, MemoryBounds, ManifestOk, Stamp, Replay, Ops, IsGroup, Finished;
  }

  // ---------- steps of the background worker ----------

  /** Steps that change neither what the version holds, nor the manifest, nor what is being applied. */
  lemma SameReads(s: Db, t: Db)
    requires ReadOk(s) && t.front == s.front && t.memory == s.memory && t.flushed == s.flushed && t.horizon == s.horizon
    requires t.disk.logs == s.disk.logs && t.disk.manifest == s.disk.manifest && t.back.apply == s.back.apply
    requires t.back.apply.Some? ==> t.disk.tables == s.disk.tables && t.back.flush.Some? == s.back.flush.Some?
    requires t.back.version == s.back.version && TablesOf(t.disk.tables, t.back.version) ==
             TablesOf(s.disk.tables, s.back.version)
    ensures ReadOk(t)
  {
    hide ReadsEqual, TablesOf, Above, UsedUpTo, SequencesDiffer;
  }

  lemma NewTable(s: Db, n: nat, content: set<Entry>)
    requires Inv(s) && n !in s.disk.tables
    ensures TablesOf(s.disk.tables[n := content], s.back.version) == TablesOf(s.disk.tables, s.back.version)
  {
    TablesMore(s.disk.tables, n, content, s.back.version);
    hide TablesOf;
  }

  lemma BuildFlushReads(s: Db, t: Db)
    requires Inv(s) && ReadOk(s) && FlushNext(s, t, BuildFlush)
    ensures ReadOk(t)
  {
    NotBuiltYet(s);
    hide Inv, ReadOk, TablesOf;
    if s.memory.imm.value != [] { NewTable(s, s.back.flush.value.number, Elements(s.memory.imm.value)); }
    SameReads(s, t);
  }

  lemma NotBuiltYet(s: Db)
    requires Inv(s) && s.back.flush.Some? && !s.back.flush.value.built
    ensures s.back.flush.value.number !in s.disk.tables && s.back.apply.None?
  {
    hide FrontOk, LogsOk, LogNumbersOk, MemoryBounds, OwedOk;
  }

  lemma BuildOutputReads(s: Db, t: Db, n: nat, content: set<Entry>)
    requires Inv(s) && ReadOk(s) && CompactionNext(s, t, BuildOutput(n, content))
    ensures ReadOk(t)
  {
    OutputIsNew(s, n);
    hide Inv, ReadOk, TablesOf;
    NewTable(s, n, content);
    SameReads(s, t);
  }

  lemma OutputIsNew(s: Db, n: nat)
    requires Inv(s) && s.back.compaction.Some? && n in s.back.compaction.value.numbers - s.back.compaction.value.outputs
    ensures n !in s.disk.tables
  {
    hide FrontOk, LogsOk, LogNumbersOk, MemoryBounds, OwedOk, ManifestOk;
  }

  lemma CommitFlushReads(s: Db, t: Db)
    requires Inv(s) && ReadOk(s) && FlushNext(s, t, CommitFlush)
    ensures ReadOk(t)
  {
    hide Inv, ReadsEqual, TablesOf, UsedUpTo;
    Bounds(s);
    SameLayers(s, t);
    hide LayersOk;
  }

  lemma CommitCompactionReads(s: Db, t: Db, smallest: nat)
    requires Inv(s) && ReadOk(s) && CompactionNext(s, t, CommitCompaction(smallest))
    ensures ReadOk(t)
  {
    hide Inv, ReadsEqual, TablesOf, UsedUpTo;
    Bounds(s);
    SameLayers(s, t);
    hide LayersOk;
  }

  lemma WriteManifestReads(s: Db, t: Db)
    requires Inv(s) && ReadOk(s) && Next(s, t, WriteManifest)
    ensures ReadOk(t)
  {
    hide Inv, ReadsEqual, TablesOf, UsedUpTo;
    SameLayers(s, t);
    hide LayersOk;
  }

  lemma InstallFlushReads(s: Db, t: Db)
    requires Inv(s) && ReadOk(s) && FlushNext(s, t, InstallFlush)
    ensures ReadOk(t)
  {
    hide Inv, TablesOf, FlushNext, ReadsEqual;
    InstallFlushTables(s, t);
    InstallFlushLog(s, t);
    var frozen, T := Frozen(s), TablesOf(s.disk.tables, s.back.version);
    hide SequencesDiffer;
    SameUnderLayer(frozen, s.flushed, T, s.horizon);
    LayersNumbered(frozen, s.flushed);
    assert frozen + s.flushed == s.flushed + frozen;
    NothingAbove(s.flushed);
  }

  lemma InstallFlushLog(s: Db, t: Db)
    requires Inv(s) && FlushNext(s, t, InstallFlush)
    ensures CurrentLog(t) == CurrentLog(s) && Frozen(t) == OlderLog(t) == {} && t.front == s.front
            && t.horizon == s.horizon
    ensures Frozen(s) == Elements(s.memory.imm.value) && t.flushed == s.flushed + Frozen(s) && t.back.apply.None?
    ensures t.disk.manifest == s.back.apply.value.next == s.disk.manifest && s.back.flush.Some? && s.back.apply.Some?
  {
    hide FrontOk, TablesOk, OwedOk, MemoryBounds, Replay;
  }

  lemma InstallCompactionLog(s: Db, t: Db)
    requires Inv(s) && CompactionNext(s, t, InstallCompaction)
    ensures CurrentLog(t) == CurrentLog(s) && OlderLog(t) == OlderLog(s) && Frozen(t) == Frozen(s)
    ensures t.front == s.front && t.flushed == s.flushed
    ensures s.back.apply.Some? && s.back.flush.None? && t.back.apply.None? && t.horizon == s.back.apply.value.smallest
    ensures t.disk.manifest == s.back.apply.value.next == s.disk.manifest
            && t.back.version == s.back.apply.value.next.files
  {
    hide FrontOk, TablesOk, OwedOk, MemoryBounds, Replay;
  }

  lemma OutputsWithin(s: Db)
    requires Inv(s) && s.back.apply.Some? && s.back.flush.None?
    ensures TablesOf(s.disk.tables, s.back.apply.value.next.files) <= TablesOf(s.disk.tables, s.back.version)
  {
    hide FrontOk, OwedOk, LogsOk, LogNumbersOk, MemoryBounds;
    var c := s.back.compaction.value;
    TablesUnion(s.disk.tables, s.back.version - c.inputs, c.outputs);
    TablesUnion(s.disk.tables, s.back.version, c.inputs);
  }

  lemma InstallCompactionReads(s: Db, t: Db)
    requires Inv(s) && ReadOk(s) && CompactionNext(s, t, InstallCompaction)
    ensures ReadOk(t)
  {
    InstallCompactionTables(s, t);
    InstallCompactionLog(s, t);
    OutputsWithin(s);
    hide Inv, TablesOf, CompactionNext;
    SameLayers(s, t);
    ChangesReads(s.flushed, TablesOf(s.disk.tables, s.back.version), TablesOf(s.disk.tables, t.back.version),
        s.horizon, t.horizon);
    hide LayersOk, ReadsEqual;
  }

  lemma ChangesReads(A: set<Entry>, B: set<Entry>, C: set<Entry>, horizon: nat, later: nat)
    requires ReadsEqual(A, B, horizon) && ReadsEqual(B, C, later) && horizon <= later
    ensures ReadsEqual(A, C, later)
  {
    forall user, q: nat | later <= q ensures Read(A, user, q) == Read(C, user, q) {
      assert Read(A, user, q) == Read(B, user, q) == Read(C, user, q);
    }
  }

  // ---------- crashes ----------

  /** The manifest's tables read as all that reached them. */
  lemma ManifestTables(s: Db)
    requires Inv(s) && ReadOk(s)
    ensures var M := TablesOf(s.disk.tables, s.disk.manifest.files);
      M <= OnDisk(s) && ReadsEqual(OnDisk(s), M, DiskHorizon(s))
    ensures SequencesDiffer(OnDisk(s)) && UsedUpTo(OnDisk(s), s.disk.manifest.lastSequence)
    ensures DiskHorizon(s) <= s.disk.manifest.lastSequence
  {
    ManifestCases(s);
    var T, frozen := TablesOf(s.disk.tables, s.back.version), Frozen(s);
    if ManifestAhead(s) && s.back.flush.None? {
      OutputsWithin(s);
      hide Inv, TablesOf;
      ChangesReads(s.flushed, T, TablesOf(s.disk.tables, s.disk.manifest.files), s.horizon, DiskHorizon(s));
    } else if ManifestAhead(s) {
      hide Inv, TablesOf;
      SameUnderLayer(frozen, s.flushed, T, s.horizon);
      LayersNumbered(frozen, s.flushed);
      assert frozen + s.flushed == s.flushed + frozen;
    }
  }

  lemma ManifestCases(s: Db)
    requires Inv(s)
    ensures var M, T := TablesOf(s.disk.tables, s.disk.manifest.files), TablesOf(s.disk.tables, s.back.version);
      if ManifestAhead(s) then
        && s.disk.manifest == s.back.apply.value.next
        && (s.back.flush.Some? ==> s.memory.imm.Some? && M == T + Frozen(s))
      else M == T
  {
    hide FrontOk, OwedOk, LogsOk, LogNumbersOk, MemoryBounds;
    if ManifestAhead(s) && s.back.flush.Some? {
      TablesUnion(s.disk.tables, s.back.version, {s.back.flush.value.number});
    }
  }

  /** What is replayed after a crash is newer than what the manifest's tables hold. */
  lemma ReplayedLayer(s: Db, cut: map<nat, seq<Record>>)
    requires Inv(s) && ReadOk(s) && CutOk(s.disk.logs, cut)
    ensures var L := LogsFrom(Cut(s.disk.logs, cut), s.disk.manifest.log); Above(L, OnDisk(s)) && SequencesDiffer(L)
  {
    ManifestLog(s);
    ReplayedFrom(s, cut);
    LayersNumbered(CurrentLog(s), OlderLog(s));
    hide Inv, LogsFrom, TablesOf, VersionReads, ManifestReads;
  }

  lemma ReplayedFrom(s: Db, cut: map<nat, seq<Record>>)
    requires Inv(s) && CutOk(s.disk.logs, cut)
    ensures var L := LogsFrom(Cut(s.disk.logs, cut), s.disk.manifest.log);
      L <= CurrentLog(s) + if ManifestAhead(s) && s.back.flush.Some? then {} else OlderLog(s)
  {
    var logs, m := s.disk.logs, s.disk.manifest;
    AheadLog(s);
    hide FrontOk, OwedOk, MemoryBounds, TablesOk, ManifestOk, Replay, Stamp;
    forall e | e in LogsFrom(Cut(logs, cut), m.log)
      ensures e in CurrentLog(s) + if ManifestAhead(s) && s.back.flush.Some? then {} else OlderLog(s)
    {
      var n :| n in Cut(logs, cut) && n >= m.log && e in Replay(Cut(logs, cut)[n].records);
      assert Found(logs[n], cut[n]);
      FoundReplays(logs[n], cut[n]);
      assert e in FoundIn(logs[n]);
    }
  }

  lemma {:induction false} ReplayOf(records: seq<Record>, e: Entry)
    ensures e in Replay(records) <==> exists r :: r in records && e in Stamp(r)
  {
    hide Stamp;
    if records != [] {
      var n := |records| - 1;
      ReplayOf(records[..n], e);
      assert records == records[..n] + [records[n]];
    }
  }

  lemma FoundReplays(l: LogFile, kept: seq<Record>)
    requires Found(l, kept)
    ensures Elements(Replay(kept)) <= FoundIn(l)
  {
    hide Replay, Stamp;
    forall e | e in Replay(kept) ensures e in FoundIn(l) {
      ReplayOf(kept, e);
      ReplayOf(l.records, e);
      ReplayOf(l.strays, e);
    }
  }

  lemma AheadLog(s: Db)
    requires Inv(s)
    ensures s.back.log <= s.disk.manifest.log
    ensures ManifestAhead(s) && s.back.flush.Some? ==> s.disk.manifest.log == s.memory.logNumber
  {
    hide FrontOk, LogsOk, OwedOk, MemoryBounds, TablesOk;
  }

  /** After a crash the disk reads as what had reached its tables and what its logs still hold. */
  lemma CutDiskReads(s: Db, cut: map<nat, seq<Record>>)
    requires Inv(s) && ReadOk(s) && CutOk(s.disk.logs, cut)
    ensures var L := LogsFrom(Cut(s.disk.logs, cut), s.disk.manifest.log);
      var R := Recovered(s.disk.(logs := Cut(s.disk.logs, cut)));
      R <= OnDisk(s) + L && ReadsEqual(OnDisk(s) + L, R, DiskHorizon(s)) && SequencesDiffer(OnDisk(s) + L)
  {
    ManifestTables(s);
    ReplayedLayer(s, cut);
    hide Inv, ReadOk, LogsFrom, TablesOf, SequencesDiffer, ReadsEqual, OnDisk, DiskHorizon, Above;
    var L, M := LogsFrom(Cut(s.disk.logs, cut), s.disk.manifest.log), TablesOf(s.disk.tables, s.disk.manifest.files);
    SameUnderLayer(L, OnDisk(s), M, DiskHorizon(s));
    LayersNumbered(L, OnDisk(s));
    assert L + OnDisk(s) == OnDisk(s) + L;
  }

  lemma CrashReads(s: Db, t: Db, cut: map<nat, seq<Record>>, rebuilt: map<nat, set<Entry>>)
    requires Inv(s) && ReadOk(s) && CrashNext(s, t, cut, rebuilt)
    ensures ReadOk(t)
  {
    hide ReadsEqual, OnDisk, DiskHorizon;
    CutDiskReads(s, cut);
    ManifestTables(s);
    ReopenedContents(s, t, cut, rebuilt);
    assert TablesOf(t.disk.tables, t.back.version) == Contents(t) by { assert InMemory(t.memory) == {}; }
    assert Replay([]) == [] && CurrentLog(t) == {} && OlderLog(t) == {} && Frozen(t) == {};
    NothingAbove(t.flushed);
    hide Inv, ReadOk, Recovered, TablesOf, LogsFrom, Contents;
  }

  // ---------- runs ----------

  lemma BackgroundReads(s: Db, t: Db, step: Step)
    requires Inv(s) && ReadOk(s) && (FlushNext(s, t, step) || CompactionNext(s, t, step))
    ensures ReadOk(t)
  {
    hide Inv, ReadOk, TablesOf, ReadsEqual;
    match step
    case StartFlush => SameReads(s, t);
    case BuildFlush => BuildFlushReads(s, t);
    case CommitFlush => CommitFlushReads(s, t);
    case InstallFlush => InstallFlushReads(s, t);
    case StartCompaction(_) => SameReads(s, t);
    case OpenOutput => SameReads(s, t);
    case BuildOutput(n, content) => BuildOutputReads(s, t, n, content);
    case CommitCompaction(smallest) => CommitCompactionReads(s, t, smallest);
    case InstallCompaction => InstallCompactionReads(s, t);
  }

  lemma EnqueueReads(s: Db, t: Db, w: Writer)
    requires ReadOk(s) && Next(s, t, Enqueue(w))
    ensures ReadOk(t)
  {
    hide ReadsEqual, TablesOf, Above, UsedUpTo, SequencesDiffer, Replay;
  }

  lemma StepKeepsReads(s: Db, t: Db, step: Step)
    requires Inv(s) && ReadOk(s) && Next(s, t, step)
    ensures ReadOk(t)
  {
    hide Inv, ReadOk, FlushNext, CompactionNext, CrashNext, WriterNext, TablesOf;
    match step
    case Enqueue(w) => EnqueueReads(s, t, w);
    case WriteManifest => WriteManifestReads(s, t);
    case BackgroundFails => SameReads(s, t);
    case Pin => SameReads(s, t);
    case Unpin(_) => SameReads(s, t);
    case Crash(cut, rebuilt) => CrashReads(s, t, cut, rebuilt);
    case _ =>
      if IsWriterStep(step) { WriterReads(s, t, step); } else { BackgroundReads(s, t, step); }
  }

  lemma InitReads(s: Db)
    requires Init(s)
    ensures ReadOk(s)
  {
    assert Replay([]) == [] && TablesOf(s.disk.tables, s.back.version) == {};
  }

  lemma {:induction false} RunsKeepReads(states: seq<Db>, steps: seq<Step>, n: nat)
    requires Run(states, steps) && n < |states|
    ensures ReadOk(states[n])
  {
    hide Inv, ReadOk, Next, Init;
    if n == 0 {
      InitReads(states[0]);
    } else {
      RunsKeepReads(states, steps, n - 1);
      RunsKeepInv(states, steps, n - 1);
      StepKeepsReads(states[n - 1], states[n], steps[n - 1]);
    }
  }

  /** The writes that reopening the disk brings back, when the logs are cut. */
  ghost function Survivors(s: Db, cut: map<nat, seq<Record>>): set<Entry>
    requires CutOk(s.disk.logs, cut)
  {
    OnDisk(s) + LogsFrom(Cut(s.disk.logs, cut), s.disk.manifest.log)
  }

  ghost function Strays(s: Db, n: nat): set<Entry>
  {
    if n in s.disk.logs then Elements(Replay(s.disk.logs[n].strays)) else {}
  }

  /** All that was flushed, is in memory, is on its way to memory, or went to a log by an append that failed. */
  ghost function Written(s: Db): set<Entry>
  {
    s.flushed + InMemory(s.memory) + Elements(Extra(s.front.phase, s.memory.orphan))
    + Strays(s, s.memory.logNumber) + Strays(s, s.memory.immLog)
  }

  /** Crashes, in every reachable state and for everything the reader may then find in the logs.  The surviving
      writes include all those of sync writers that were acknowledged before any append to their log failed, and,
      when no record is taken away, all acknowledged ones; nothing survives that was not written; and among the
      entries on the disk the newest of every key is the newest surviving write, at the present and at every snapshot
      that compactions had to keep.  What the lookup finds of them is the subject of Levelled.ReopenedFinds. */
  lemma ReadsSurviveCrash(states: seq<Db>, steps: seq<Step>, n: nat, cut: map<nat, seq<Record>>)
    requires Run(states, steps) && n < |states| && CutOk(states[n].disk.logs, cut)
    ensures var s := states[n];
      && s.safe <= Survivors(s, cut)
      && (Whole(s.disk.logs, cut) ==> s.acked <= Survivors(s, cut))
      && Survivors(s, cut) <= Written(s)
      && ReadsEqual(Survivors(s, cut), Recovered(s.disk.(logs := Cut(s.disk.logs, cut))), DiskHorizon(s))
      && DiskHorizon(s) <= s.disk.manifest.lastSequence
  {
    var s := states[n];
    RunsKeepInv(states, steps, n);
    RunsKeepReads(states, steps, n);
    hide Run;
    SafeSurvivesCrash(s, cut);
    CutDiskReads(s, cut);
    ManifestTables(s);
    SurvivorsWritten(s, cut);
    AckedSurvive(s, cut);
    hide Inv, ReadOk, LogsFrom, TablesOf, ReadsEqual, OnDisk, DiskHorizon, Recovered, InMemory, Extra, Stamp;
  }

  lemma AckedSurvive(s: Db, cut: map<nat, seq<Record>>)
    requires Inv(s) && CutOk(s.disk.logs, cut)
    ensures Whole(s.disk.logs, cut) ==> s.acked <= Survivors(s, cut)
  {
    MemoryOnDisk(s);
    if Whole(s.disk.logs, cut) {
      WholeLogs(s.disk.logs, cut, s.disk.manifest.log);
    }
    hide FrontOk, LogsOk, LogNumbersOk, MemoryBounds, TablesOk, ManifestOk, LogsFrom;
  }

  lemma SurvivorsWritten(s: Db, cut: map<nat, seq<Record>>)
    requires Inv(s) && CutOk(s.disk.logs, cut)
    ensures Survivors(s, cut) <= Written(s)
  {
    ReplayedFrom(s, cut);
    hide FrontOk, LogNumbersOk, MemoryBounds, TablesOk, ManifestOk, OwedOk, LogsFrom, Stamp, Replay;
  }

  /** In every reachable state, among the entries in memory and tables, the newest of every key is the newest of all
      that was applied and not lost.  What the lookup finds of them is the subject of Levelled.RunningFinds. */
  lemma RunningReads(states: seq<Db>, steps: seq<Step>, n: nat)
    requires Run(states, steps) && n < |states|
    ensures var s := states[n];
      && s.acked <= s.flushed + InMemory(s.memory)
      && ReadsEqual(s.flushed + InMemory(s.memory), Contents(s), s.horizon) && s.horizon <= s.front.lastSequence
  {
    var s := states[n];
    RunsKeepInv(states, steps, n);
    RunsKeepReads(states, steps, n);
    hide Run;
    Bounds(s);
    MemoryLayer(s);
    hide Inv, LayersOk, ManifestReads, TablesOf, ReadsEqual, SequencesDiffer, InMemory;
    SameUnderLayer(InMemory(s.memory), s.flushed, TablesOf(s.disk.tables, s.back.version), s.horizon);
  }

  lemma MemoryLayer(s: Db)
    requires Inv(s) && ReadOk(s)
    ensures Above(InMemory(s.memory), s.flushed) && SequencesDiffer(InMemory(s.memory)) && SequencesDiffer(s.flushed)
    ensures s.acked <= s.flushed + InMemory(s.memory)
  {
    hide FrontOk, LogNumbersOk, MemoryBounds, TablesOk, ManifestOk, VersionReads, ManifestReads, Stamp, Replay;
    LayersNumbered(CurrentLog(s), OlderLog(s));
    assert InMemory(s.memory) <= CurrentLog(s) + OlderLog(s);
  }

  // ---------- the drop rule meets the condition ----------

  /** Outputs that hold what the drop rule keeps of their inputs may be committed, exactly when no dropped deletion
      uncovers a value that the next level keeps. */
  lemma DropRuleMayCommit(s: Db, v: Files.Version, level: nat, next: set<Entry>, smallest: nat)
    requires s.back.compaction.Some?
    requires var c := s.back.compaction.value; var tables := s.disk.tables;
      var inputs, rest := TablesOf(tables, c.inputs), TablesOf(tables, s.back.version - c.inputs);
      && c.inputs <= s.back.version && Compaction.Split(v, level, inputs, rest, next)
      && TablesOf(tables, c.outputs) == Compaction.Survivors(v, level, inputs, smallest)
    ensures var c := s.back.compaction.value; var tables := s.disk.tables;
      var inputs, rest := TablesOf(tables, c.inputs), TablesOf(tables, s.back.version - c.inputs);
      ReadsEqual(TablesOf(tables, s.back.version), TablesOf(tables, s.back.version - c.inputs + c.outputs),
          smallest) <==>
        forall user :: !Compaction.Uncovers(v, level, inputs, rest, next, smallest, user)
  {
    var c, tables := s.back.compaction.value, s.disk.tables;
    var inputs, rest := TablesOf(tables, c.inputs), TablesOf(tables, s.back.version - c.inputs);
    TablesUnion(tables, s.back.version - c.inputs, c.inputs);
    TablesUnion(tables, s.back.version - c.inputs, c.outputs);
    assert s.back.version - c.inputs + c.inputs == s.back.version;
    assert rest + inputs == inputs + rest;
    hide TablesOf, Compaction.Split, Compaction.Uncovers, Compaction.Survivors, ReadsEqual;
    Compaction.DropRuleExact(v, level, inputs, rest, next, smallest);
    assert rest + TablesOf(tables, c.outputs) == TablesOf(tables, c.outputs) + rest;
  }
}
