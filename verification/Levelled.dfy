/** The durable database with its files at their levels: what Version::Get finds in every reachable state, crashes
    and flushes inside compactions included (db/db_impl.cc, db/version_set.cc). */
module Levelled {
  import opened Keys
  import opened Lists
  import opened Files
  import opened Selection
  import opened Steps
  import opened Late
  import Compaction
  import GroupCommit
  import Store
  import D = Durability
  import R = DurableReads

  // ---------- state ----------

  /** A compaction at work: files chosen in the version it began with, or one file to be moved. */
  datatype Job = Rewrite(base: Version, level: nat, in0: seq<File>, in1: seq<File>) | Moving

  /** The current version and, while LogAndApply is at work, the one it has built. */
  datatype Levels = Levels(current: Version, next: Option<Version>, job: Option<Job>)

  /** What the code decides in a step about files and levels. */
  datatype Choice =
    | NoChoice
    | Chosen(job: Job)
    | FlushTo(level: nat, file: File)
    | Outputs(input: seq<Entry>, outputs: seq<File>)
    | MoveTo(level: nat, file: File)
    | Rebuilt(files: seq<File>)

  ghost function Numbers(files: seq<File>): set<nat>
  {
    set f | f in files :: f.number
  }

  /** The files carry the contents of the tables with their numbers. */
  ghost predicate OnTables(files: seq<File>, tables: map<nat, set<Entry>>)
  {
    forall f :: f in files ==> f.number in tables && tables[f.number] == Elements(f.table)
  }

  ghost predicate OneEach(files: seq<File>)
  {
    forall i, j :: 0 <= i < j < |files| ==> files[i].number != files[j].number
  }

  // ---------- steps ----------

  ghost predicate FlushChoice(s: D.Db, v: Version, w: Version, c: Choice)
    requires s.back.flush.Some? && s.memory.imm.Some?
  {
    if s.memory.imm.value == [] then w == v
    else
      && c.FlushTo? && c.level < NUM_LEVELS
      && FileOk(c.file) && Elements(c.file.table) == Elements(s.memory.imm.value)
      && c.file.number == s.back.flush.value.number
      && (c.level > 0 ==> forall l: nat, g :: l <= c.level && InLevel(v, l, g) ==>
            !Meets(g, c.file.smallest.user, c.file.largest.user))
      && Edited(v, w, {}, {(c.level, c.file)})
  }

  ghost predicate JobChoice(inputs: set<nat>, v: Version, job: Job)
  {
    match job
    case Rewrite(base, level, in0, in1) =>
      base == v && ValidInputs(v, level, in0, in1) && inputs == Numbers(in0 + in1)
    case Moving => inputs == {}
  }

  ghost predicate CommitChoice(s: D.Db, v: Version, w: Version, job: Job, smallest: nat, c: Choice)
    requires s.back.compaction.Some?
  {
    match job
    case Rewrite(base, level, in0, in1) =>
      && c.Outputs? && Store.Written(base, level, in0, in1, c.input, smallest, c.outputs)
      && Numbers(c.outputs) == s.back.compaction.value.outputs && OneEach(c.outputs)
      && OnTables(c.outputs, s.disk.tables)
      && Edited(v, w, Inputs(level, in0, in1), At(level + 1, c.outputs))
    case Moving =>
      && c.MoveTo? && s.back.compaction.value.outputs == {}
      && ValidInputs(v, c.level, [c.file], [])
      && Edited(v, w, {(c.level, c.file)}, {(c.level + 1, c.file)})
  }

  /** The version that the manifest describes. */
  function Saved(s: D.Db, a: Levels): Version
  {
    if D.ManifestAhead(s) && a.next.Some? then a.next.value else a.current
  }

  /** Recovery writes its tables to level 0, in the order of the log. */
  ghost predicate CrashChoice(v: Version, w: Version, rebuilt: map<nat, set<Entry>>, c: Choice)
  {
    && c.Rebuilt? && Numbers(c.files) == rebuilt.Keys && OneEach(c.files) && OnTables(c.files, rebuilt)
    && FilesOk(c.files) && (forall f, g :: f in c.files && g in c.files && f.number > g.number ==> AllNewer(f, g))
    && Edited(v, w, {}, At(0, c.files))
  }

  ghost predicate Next(s: D.Db, a: Levels, b: Levels, step: D.Step, c: Choice)
  {
    match step
    case StartCompaction(inputs) =>
      c.Chosen? && JobChoice(inputs, a.current, c.job) && b == a.(job := Some(c.job))
    case CommitFlush =>
      && s.back.flush.Some? && s.memory.imm.Some? && b.next.Some?
      && FlushChoice(s, a.current, b.next.value, c) && b == a.(next := b.next)
    case CommitCompaction(smallest) =>
      && s.back.compaction.Some? && a.job.Some? && b.next.Some?
      && CommitChoice(s, a.current, b.next.value, a.job.value, smallest, c) && b == a.(next := b.next)
    case InstallFlush => a.next.Some? && b == Levels(a.next.value, None, a.job)
    case InstallCompaction => a.next.Some? && b == Levels(a.next.value, None, None)
    case Crash(_, rebuilt) => CrashChoice(Saved(s, a), b.current, rebuilt, c) && b == Levels(b.current, None, None)
    case _ => b == a
  }

  /** The outputs are clear of every file that was flushed to their level meanwhile. */
  ghost predicate ClearStep(a: Levels, step: D.Step, c: Choice)
  {
    step.CommitCompaction? && a.job.Some? && a.job.value.Rewrite? && c.Outputs? ==>
      Clear(a.job.value.base, a.current, a.job.value.level, c.outputs)
  }

  // ---------- the invariant ----------

  /** The version is layered, and holds exactly the files with these numbers, as they are on disk. */
  ghost predicate Matches(tables: map<nat, set<Entry>>, files: set<nat>, v: Version)
  {
    && Layered(v)
    && (forall l: nat, f :: InLevel(v, l, f) ==>
          f.number in files && f.number in tables && tables[f.number] == Elements(f.table))
    && (forall n :: n in files ==> Home(v, n))
  }

  ghost predicate Home(v: Version, n: nat)
  {
    exists l: nat, f :: InLevel(v, l, f) && f.number == n
  }

  ghost predicate JobOk(b: D.Back, a: Levels)
  {
    && (a.job.Some? <==> b.compaction.Some?)
    && (a.job.Some? ==>
          && b.compaction.value.numbers !! b.version
          && match a.job.value
             case Rewrite(base, level, in0, in1) =>
               && Layered(base) && ValidInputs(base, level, in0, in1) && Grown(base, a.current)
               && b.compaction.value.inputs == Numbers(in0 + in1)
             case Moving => b.compaction.value.inputs == {})
  }

  ghost predicate NextOk(tables: map<nat, set<Entry>>, b: D.Back, a: Levels)
  {
    && (a.next.Some? <==> b.apply.Some?)
    && (a.next.Some? ==>
          && Matches(tables, b.apply.value.next.files, a.next.value)
          && (b.flush.Some? && b.compaction.Some? ==> b.compaction.value.numbers !! b.apply.value.next.files)
          && (b.flush.Some? && a.job.Some? && a.job.value.Rewrite? ==> Grown(a.job.value.base, a.next.value)))
  }

  ghost predicate LevelsOk(tables: map<nat, set<Entry>>, b: D.Back, a: Levels)
  {
    && Matches(tables, b.version, a.current) && JobOk(b, a) && NextOk(tables, b, a)
    && (b.flush.Some? ==> forall n :: n in b.version ==> n < b.flush.value.number)
  }

  lemma MatchesEntries(tables: map<nat, set<Entry>>, files: set<nat>, v: Version)
    requires Matches(tables, files, v)
    ensures Entries(v) == D.TablesOf(tables, files)
  {
    hide Layered;
    forall e | e in Entries(v) ensures e in D.TablesOf(tables, files) {
      var l, f := HomeOf(v, e);
      assert f.number in files && e in tables[f.number];
    }
    forall e | e in D.TablesOf(tables, files) ensures e in Entries(v) {
      var n :| n in files && n in tables && e in tables[n];
      assert Home(v, n);
      var l: nat, f :| InLevel(v, l, f) && f.number == n;
      EntryOf(v, l, f, e);
    }
  }

  /** A version stays matched when its tables stay. */
  lemma StillMatches(tables: map<nat, set<Entry>>, other: map<nat, set<Entry>>, files: set<nat>, v: Version)
    requires Matches(tables, files, v)
    requires forall n :: n in files && n in tables ==> n in other && other[n] == tables[n]
    ensures Matches(other, files, v)
  {
    hide Layered, Home;
  }

  lemma NothingNew(s: D.Db, t: D.Db, a: Levels)
    requires LevelsOk(s.disk.tables, s.back, a)
    requires t.disk.tables == s.disk.tables && t.back.version == s.back.version
             && t.back.compaction == s.back.compaction
    requires t.back.flush == s.back.flush && (t.back.apply.Some? <==> s.back.apply.Some?)
    requires t.back.apply.Some? ==> t.back.apply.value.next == s.back.apply.value.next
    ensures LevelsOk(t.disk.tables, t.back, a)
  {
    hide Matches, Layered, ValidInputs, Grown;
  }

  // ---------- flushes ----------

  lemma StartFlushKeeps(s: D.Db, t: D.Db, a: Levels)
    requires D.Inv(s) && LevelsOk(s.disk.tables, s.back, a) && D.FlushNext(s, t, D.StartFlush)
    ensures LevelsOk(t.disk.tables, t.back, a)
  {
    hide Matches, Layered, ValidInputs, Grown, D.FrontOk, D.LogsOk, D.OwedOk, D.LogNumbersOk,
        D.MemoryBounds, D.ManifestOk;
  }

  /** A table with a new number is written. */
  lemma TableKeeps(tables: map<nat, set<Entry>>, n: nat, content: set<Entry>, b: D.Back, a: Levels)
    requires LevelsOk(tables, b, a) && n !in tables
    ensures LevelsOk(tables[n := content], b, a)
  {
    hide Layered, ValidInputs, Grown, Home;
    StillMatches(tables, tables[n := content], b.version, a.current);
    if a.next.Some? { StillMatches(tables, tables[n := content], b.apply.value.next.files, a.next.value); }
    hide Matches;
  }

  lemma BuildFlushKeeps(s: D.Db, t: D.Db, a: Levels)
    requires D.Inv(s) && LevelsOk(s.disk.tables, s.back, a) && D.FlushNext(s, t, D.BuildFlush)
    ensures LevelsOk(t.disk.tables, t.back, a)
  {
    R.NotBuiltYet(s);
    hide D.Inv, Matches, Layered, ValidInputs, Grown;
    if s.memory.imm.value != [] {
      TableKeeps(s.disk.tables, s.back.flush.value.number, Elements(s.memory.imm.value), s.back, a);
    }
  }

  /** The immutable memtable is newer than every file. */
  lemma FrozenNewer(s: D.Db, a: Levels, f: File)
    requires R.ReadOk(s) && Matches(s.disk.tables, s.back.version, a.current)
    requires s.memory.imm.Some? && Elements(f.table) == Elements(s.memory.imm.value)
    ensures forall l: nat, g :: InLevel(a.current, l, g) ==> AllNewer(f, g)
  {
    MatchesEntries(s.disk.tables, s.back.version, a.current);
    hide Matches, Layered, Entries, R.ManifestReads, D.TablesOf, ReadsEqual;
    forall l: nat, g, e, d | InLevel(a.current, l, g) && e in f.table && d in g.table
      ensures e.key.sequence > d.key.sequence
    {
      EntryOf(a.current, l, g, d);
      assert e in Elements(f.table);
      assert e in R.OlderLog(s) && d in s.flushed;
    }
  }

  lemma FlushFitsHere(v: Version, level: nat, f: File)
    requires Layered(v) && level < NUM_LEVELS && FileOk(f)
    requires forall l: nat, g :: InLevel(v, l, g) ==> AllNewer(f, g) && g.number < f.number
    requires level > 0 ==> forall l: nat, g :: l <= level && InLevel(v, l, g) ==>
             !Meets(g, f.smallest.user, f.largest.user)
    ensures Fits(v, {}, {(level, f)})
  {
    hide Layered, FileOk, Meets;
    forall l: nat, g | InLevel(v, l, g) ensures Newer(f, g) {
      assert AllNewer(f, g);
    }
    hide AllNewer;
    FlushFits(v, level, f);
  }

  /** One more file in the version and one more number in the set. */
  lemma MatchesAdded(tables: map<nat, set<Entry>>, files: set<nat>, v: Version, w: Version, level: nat, f: File)
    requires Matches(tables, files, v) && Layered(w) && Edited(v, w, {}, {(level, f)}) && level < |v|
    requires f.number in tables && tables[f.number] == Elements(f.table)
    ensures Matches(tables, files + {f.number}, w)
  {
    hide Layered;
    forall n | n in files + {f.number} ensures Home(w, n) {
      if n == f.number {
        assert InLevel(w, level, f);
      } else {
        assert Home(v, n);
        var l: nat, g :| InLevel(v, l, g) && g.number == n;
        assert InLevel(w, l, g);
      }
    }
  }

  lemma CommitFlushKeeps(s: D.Db, t: D.Db, a: Levels, b: Levels, c: Choice)
    requires D.Inv(s) && R.ReadOk(s) && LevelsOk(s.disk.tables, s.back, a)
    requires D.FlushNext(s, t, D.CommitFlush) && Next(s, a, b, D.CommitFlush, c)
    ensures LevelsOk(t.disk.tables, t.back, b)
  {
    hide D.Inv, R.ReadOk, Layered, ValidInputs, Grown, FileOk, Edited, Meets, Home, Matches;
    FlushBuilt(s);
    if s.memory.imm.value != [] {
      FlushedVersion(s, a, b.next.value, c);
    }
  }

  lemma FlushedVersion(s: D.Db, a: Levels, w: Version, c: Choice)
    requires R.ReadOk(s) && LevelsOk(s.disk.tables, s.back, a) && s.back.flush.Some? && s.memory.imm.Some?
    requires s.memory.imm.value != [] && FlushChoice(s, a.current, w, c)
    requires c.file.number in s.disk.tables && s.disk.tables[c.file.number] == Elements(c.file.table)
    ensures Matches(s.disk.tables, s.back.version + {c.file.number}, w)
    ensures a.job.Some? && a.job.value.Rewrite? ==> Grown(a.job.value.base, w)
  {
    var v, f := a.current, c.file;
    FrozenNewer(s, a, f);
    NumbersBelow(s.disk.tables, s.back.version, v, f.number);
    hide R.ReadOk, NextOk, Layered, ValidInputs, Grown, FileOk, AllNewer, Edited, Meets, Home, Fits;
    FlushFitsHere(v, c.level, f);
    FittingEditKeepsLayers(v, w, {}, {(c.level, f)});
    SevenLevels(v);
    hide Matches;
    MatchesAdded(s.disk.tables, s.back.version, v, w, c.level, f);
    if a.job.Some? && a.job.value.Rewrite? {
      FlushGrows(a.job.value.base, v, w, c.level, f);
    }
  }

  lemma NumbersBelow(tables: map<nat, set<Entry>>, files: set<nat>, v: Version, n: nat)
    requires Matches(tables, files, v) && forall k :: k in files ==> k < n
    ensures forall l: nat, g :: InLevel(v, l, g) ==> g.number < n
  {
    hide Layered, Home;
  }

  lemma SevenLevels(v: Version)
    requires Layered(v)
    ensures |v| == NUM_LEVELS
  {}

  lemma FlushBuilt(s: D.Db)
    requires D.Inv(s) && s.back.flush.Some? && s.back.flush.value.built
    ensures s.memory.imm.Some?
    ensures s.memory.imm.value != [] ==>
              var n := s.back.flush.value.number; n in s.disk.tables && s.disk.tables[n] == Elements(s.memory.imm.value)
    ensures s.back.compaction.Some? ==> s.back.flush.value.number !in s.back.compaction.value.numbers
  {
    hide D.FrontOk, D.LogsOk, D.OwedOk, D.LogNumbersOk, D.MemoryBounds, D.ManifestOk;
  }

  /** What the removal of obsolete files spares. */
  lemma CleanedMatches(d: D.Disk, b: D.Back, bgError: bool, files: set<nat>, v: Version)
    requires Matches(d.tables, files, v) && files <= D.Live(b)
    ensures Matches(D.Cleaned(d, b, bgError).tables, files, v)
  {
    hide Layered, Home, Matches;
    StillMatches(d.tables, D.Cleaned(d, b, bgError).tables, files, v);
  }

  lemma InstallFlushKeeps(s: D.Db, t: D.Db, a: Levels, b: Levels, c: Choice)
    requires LevelsOk(s.disk.tables, s.back, a)
    requires D.FlushNext(s, t, D.InstallFlush) && Next(s, a, b, D.InstallFlush, c)
    ensures LevelsOk(t.disk.tables, t.back, b)
  {
    hide Matches, Layered, ValidInputs, Grown, D.Cleaned;
    CleanedMatches(s.disk, t.back, s.bgError, t.back.version, b.current);
  }

  // ---------- compactions ----------

  lemma StartCompactionKeeps(s: D.Db, t: D.Db, a: Levels, b: Levels, inputs: set<nat>, c: Choice)
    requires LevelsOk(s.disk.tables, s.back, a)
    requires D.CompactionNext(s, t, D.StartCompaction(inputs)) && Next(s, a, b, D.StartCompaction(inputs), c)
    ensures LevelsOk(t.disk.tables, t.back, b)
  {
    hide ValidInputs, Layered, Home;
    assert Grown(a.current, a.current) by { SevenLevels(a.current); }
    hide Grown;
  }

  lemma OpenOutputKeeps(s: D.Db, t: D.Db, a: Levels)
    requires D.Inv(s) && LevelsOk(s.disk.tables, s.back, a) && D.CompactionNext(s, t, D.OpenOutput)
    ensures LevelsOk(t.disk.tables, t.back, a)
  {
    hide Matches, Layered, ValidInputs, Grown, D.FrontOk, D.LogsOk, D.OwedOk, D.LogNumbersOk,
        D.MemoryBounds, D.ManifestOk;
  }

  lemma BuildOutputKeeps(s: D.Db, t: D.Db, a: Levels, n: nat, content: set<Entry>)
    requires D.Inv(s) && LevelsOk(s.disk.tables, s.back, a) && D.CompactionNext(s, t, D.BuildOutput(n, content))
    ensures LevelsOk(t.disk.tables, t.back, a)
  {
    R.OutputIsNew(s, n);
    hide D.Inv, Matches, Layered, ValidInputs, Grown;
    TableKeeps(s.disk.tables, n, content, s.back, a);
  }

  /** The entries of the files of a version differ in their sequence numbers. */
  lemma FilesDistinct(s: D.Db, a: Levels)
    requires R.ReadOk(s) && Matches(s.disk.tables, s.back.version, a.current)
    ensures Distinct(Entries(a.current))
  {
    MatchesEntries(s.disk.tables, s.back.version, a.current);
    hide Matches, Entries, R.ManifestReads, D.TablesOf, ReadsEqual;
  }

  lemma OutputsNew(v: Version, tables: map<nat, set<Entry>>, files: set<nat>, outputs: seq<File>)
    requires Matches(tables, files, v) && OneEach(outputs) && Numbers(outputs) !! files
    ensures NewNumbers(v, outputs)
  {
    hide Layered, Home;
    forall l: nat, g, o | InLevel(v, l, g) && o in outputs ensures g.number != o.number {
      assert o.number in Numbers(outputs) && g.number in files;
    }
  }

  /** The rewritten version holds the old files without the inputs, and the outputs. */
  lemma MatchesRewritten(tables: map<nat, set<Entry>>, files: set<nat>, v: Version, w: Version,
                         level: nat, in0: seq<File>, in1: seq<File>, outputs: seq<File>)
    requires Matches(tables, files, v) && Layered(w) && Holds(v, level, in0, in1)
    requires Edited(v, w, Inputs(level, in0, in1), At(level + 1, outputs)) && OnTables(outputs, tables)
    ensures Matches(tables, files - Numbers(in0 + in1) + Numbers(outputs), w)
  {
    var removed, added := Inputs(level, in0, in1), At(level + 1, outputs);
    forall l: nat, f | InLevel(w, l, f)
      ensures f.number in files - Numbers(in0 + in1) + Numbers(outputs)
      ensures f.number in tables && tables[f.number] == Elements(f.table)
    {
      if (l, f) in added {
        assert f in outputs;
      } else {
        StaysOut(v, level, in0, in1, l, f);
      }
    }
    forall n | n in files - Numbers(in0 + in1) + Numbers(outputs) ensures Home(w, n) {
      if n in Numbers(outputs) {
        var o :| o in outputs && o.number == n;
        assert (level + 1, o) in added && InLevel(w, level + 1, o);
      } else {
        assert Home(v, n);
        var l: nat, g :| InLevel(v, l, g) && g.number == n;
        assert (l, g) !in removed by { GoesOut(level, in0, in1, l, g); }
        assert InLevel(w, l, g);
      }
    }
    hide Edited, Home, Inputs, At;
  }

  lemma StaysOut(v: Version, level: nat, in0: seq<File>, in1: seq<File>, l: nat, f: File)
    requires Layered(v) && Holds(v, level, in0, in1) && InLevel(v, l, f) && (l, f) !in Inputs(level, in0, in1)
    ensures f.number !in Numbers(in0 + in1)
  {
    forall g | g in in0 + in1 ensures g.number != f.number {
      var m := if g in in0 then level else level + 1;
      assert InLevel(v, m, g) && (m, g) in Inputs(level, in0, in1);
    }
  }

  lemma GoesOut(level: nat, in0: seq<File>, in1: seq<File>, l: nat, g: File)
    ensures (l, g) in Inputs(level, in0, in1) ==> g.number in Numbers(in0 + in1)
  {
    if (l, g) in Inputs(level, in0, in1) { assert g in in0 + in1; }
  }

  /** Installing the outputs keeps the layering if and only if they are clear. */
  lemma RewriteExact(s: D.Db, a: Levels, w: Version, smallest: nat, c: Choice)
    requires R.ReadOk(s) && LevelsOk(s.disk.tables, s.back, a) && s.back.compaction.Some?
    requires s.back.compaction.value.outputs <= s.back.compaction.value.numbers
    requires a.job.value.Rewrite? && CommitChoice(s, a.current, w, a.job.value, smallest, c)
    ensures Layered(w) <==> Clear(a.job.value.base, a.current, a.job.value.level, c.outputs)
  {
    var j, v := a.job.value, a.current;
    FilesDistinct(s, a);
    GrownEntries(j.base, v);
    Store.OutputsOk(j.base, j.level, j.in0, j.in1, c.input, smallest, c.outputs);
    OutputsNew(v, s.disk.tables, s.back.version, c.outputs);
    hide R.ReadOk, ValidInputs, Grown, Clear, NewNumbers, Edited, Entries, FilesOk, Disjoint, TakenFrom, Store.Written;
    SubDistinct(Entries(j.base), Entries(v));
    hide Layered, Distinct;
    LateLayers(j.base, v, w, j.level, j.in0, j.in1, c.outputs);
  }

  lemma SubDistinct(A: set<Entry>, B: set<Entry>)
    requires A <= B && Distinct(B)
    ensures Distinct(A)
  {}

  lemma RewriteKeeps(s: D.Db, a: Levels, w: Version, smallest: nat, c: Choice)
    requires R.ReadOk(s) && LevelsOk(s.disk.tables, s.back, a) && s.back.compaction.Some?
    requires s.back.compaction.value.outputs <= s.back.compaction.value.numbers
    requires a.job.value.Rewrite? && CommitChoice(s, a.current, w, a.job.value, smallest, c)
    requires Clear(a.job.value.base, a.current, a.job.value.level, c.outputs)
    ensures var k := s.back.compaction.value; Matches(s.disk.tables, s.back.version - k.inputs + k.outputs, w)
  {
    var j := a.job.value;
    RewriteExact(s, a, w, smallest, c);
    HeldInputs(j, a.current);
    hide R.ReadOk, Layered, ValidInputs, Grown, Clear, Edited, Store.Written, Matches;
    MatchesRewritten(s.disk.tables, s.back.version, a.current, w, j.level, j.in0, j.in1, c.outputs);
  }

  lemma HeldInputs(j: Job, v: Version)
    requires j.Rewrite? && Grown(j.base, v) && ValidInputs(j.base, j.level, j.in0, j.in1)
    ensures Holds(v, j.level, j.in0, j.in1)
  {
    forall f | f in j.in0 ensures f in v[j.level] { assert InLevel(j.base, j.level, f); }
    forall f | f in j.in1 ensures f in v[j.level + 1] { assert InLevel(j.base, j.level + 1, f); }
  }

  lemma MoveFitsHere(v: Version, w: Version, level: nat, f: File)
    requires Layered(v) && ValidInputs(v, level, [f], []) && Distinct(Entries(v))
    requires Edited(v, w, {(level, f)}, {(level + 1, f)})
    ensures Layered(w)
  {
    hide Layered, ValidInputs, Distinct, Entries, Edited, Fits;
    MoveFits(v, level, f);
    FittingEditKeepsLayers(v, w, {(level, f)}, {(level + 1, f)});
  }

  lemma MovedFrom(v: Version, level: nat, f: File)
    requires ValidInputs(v, level, [f], [])
    ensures InLevel(v, level, f) && level + 1 < |v|
  {
    assert f in [f];
  }

  lemma MovedKeeps(s: D.Db, a: Levels, w: Version, c: Choice)
    requires R.ReadOk(s) && Matches(s.disk.tables, s.back.version, a.current) && c.MoveTo?
    requires ValidInputs(a.current, c.level, [c.file], [])
    requires Edited(a.current, w, {(c.level, c.file)}, {(c.level + 1, c.file)})
    ensures Matches(s.disk.tables, s.back.version, w)
  {
    var v, f := a.current, c.file;
    FilesDistinct(s, a);
    MovedFrom(v, c.level, f);
    hide R.ReadOk, ValidInputs, Entries, Distinct, Layered, Edited, Matches;
    MatchesLayered(s.disk.tables, s.back.version, v);
    MoveFitsHere(v, w, c.level, f);
    MatchesMoved(s.disk.tables, s.back.version, v, w, c.level, f);
  }

  lemma MatchesMoved(tables: map<nat, set<Entry>>, files: set<nat>, v: Version, w: Version, level: nat, f: File)
    requires Matches(tables, files, v) && Layered(w) && InLevel(v, level, f) && level + 1 < |v|
    requires Edited(v, w, {(level, f)}, {(level + 1, f)})
    ensures Matches(tables, files, w)
  {
    hide Layered, BySmallest;
    forall n | n in files ensures Home(w, n) {
      assert Home(v, n);
      var l: nat, g :| InLevel(v, l, g) && g.number == n;
      assert InLevel(w, if (l, g) == (level, f) then level + 1 else l, g);
    }
  }

  lemma CommitCompactionKeeps(s: D.Db, t: D.Db, a: Levels, b: Levels, smallest: nat, c: Choice)
    requires D.Inv(s) && R.ReadOk(s) && LevelsOk(s.disk.tables, s.back, a)
    requires D.CompactionNext(s, t, D.CommitCompaction(smallest)) && Next(s, a, b, D.CommitCompaction(smallest), c)
    requires ClearStep(a, D.CommitCompaction(smallest), c)
    ensures LevelsOk(t.disk.tables, t.back, b)
  {
    hide D.Inv, R.ReadOk, Layered, ValidInputs, Grown, Clear, Edited, Store.Written, Matches, ReadsEqual, D.TablesOf;
    var k, w := s.back.compaction.value, b.next.value;
    if a.job.value.Rewrite? {
      RewriteKeeps(s, a, w, smallest, c);
    } else {
      MovedKeeps(s, a, w, c);
      assert s.back.version - k.inputs + k.outputs == s.back.version;
    }
  }

  lemma InstallCompactionKeeps(s: D.Db, t: D.Db, a: Levels, b: Levels, c: Choice)
    requires LevelsOk(s.disk.tables, s.back, a)
    requires D.CompactionNext(s, t, D.InstallCompaction) && Next(s, a, b, D.InstallCompaction, c)
    ensures LevelsOk(t.disk.tables, t.back, b)
  {
    hide Matches, Layered, ValidInputs, Grown, D.Cleaned;
    CleanedMatches(s.disk, t.back, s.bgError, t.back.version, b.current);
  }

  // ---------- crashes ----------

  lemma SavedMatches(s: D.Db, a: Levels)
    requires D.Inv(s) && LevelsOk(s.disk.tables, s.back, a)
    ensures Matches(s.disk.tables, s.disk.manifest.files, Saved(s, a))
  {
    hide Matches, JobOk, D.FrontOk, D.LogsOk, D.OwedOk, D.LogNumbersOk, D.MemoryBounds, D.TablesOk;
  }

  /** Tables rebuilt from the logs, in order, fit at level 0 of a version that is older than the logs. */
  lemma RebuiltFits(v: Version, files: seq<File>)
    requires Layered(v) && FilesOk(files) && OneEach(files)
    requires forall f, g :: f in files && g in files && f.number > g.number ==> AllNewer(f, g)
    requires forall f, l: nat, g :: f in files && InLevel(v, l, g) ==> AllNewer(f, g) && g.number < f.number
    ensures Fits(v, {}, At(0, files))
  {
    hide Layered, FileOk;
    var added := At(0, files);
    forall p, q | p in added && q in added ensures Compatible(p, q) && (p.1.number == q.1.number ==> p == q) {
      assert p.1 in files && q.1 in files;
    }
    forall p, l: nat, g | p in added && InLevel(v, l, g) ensures Compatible(p, (l, g)) && g.number != p.1.number {
      assert p.1 in files && AllNewer(p.1, g);
    }
  }

  lemma RebuiltNewer(s: D.Db, a: Levels, cut: map<nat, seq<GroupCommit.Record>>, rebuilt: map<nat, set<Entry>>,
                     files: seq<File>)
    requires D.Inv(s) && R.ReadOk(s) && LevelsOk(s.disk.tables, s.back, a) && D.CutOk(s.disk.logs, cut)
    requires OnTables(files, rebuilt)
    requires D.TablesOf(rebuilt, rebuilt.Keys) == D.LogsFrom(D.Cut(s.disk.logs, cut), s.disk.manifest.log)
    ensures forall f, l: nat, g :: f in files && InLevel(Saved(s, a), l, g) ==> AllNewer(f, g)
  {
    R.ReplayedLayer(s, cut);
    R.ManifestTables(s);
    SavedMatches(s, a);
    MatchesEntries(s.disk.tables, s.disk.manifest.files, Saved(s, a));
    hide D.Inv, R.ReadOk, LevelsOk, Matches, Entries, D.LogsFrom, D.OnDisk, ReadsEqual;
    forall f, l: nat, g, e, d | f in files && InLevel(Saved(s, a), l, g) && e in f.table && d in g.table
      ensures e.key.sequence > d.key.sequence
    {
      EntryOf(Saved(s, a), l, g, d);
      assert e in rebuilt[f.number];
      assert e in D.TablesOf(rebuilt, rebuilt.Keys);
    }
  }

  lemma RebuiltAbove(s: D.Db, a: Levels, rebuilt: map<nat, set<Entry>>, files: seq<File>)
    requires D.Inv(s) && LevelsOk(s.disk.tables, s.back, a) && OnTables(files, rebuilt)
    requires forall n :: n in rebuilt ==> n >= s.disk.manifest.next
    ensures forall f, l: nat, g :: f in files && InLevel(Saved(s, a), l, g) ==> g.number < f.number
  {
    SavedMatches(s, a);
    hide Layered, Home, LevelsOk, D.FrontOk, D.LogsOk, D.OwedOk, D.LogNumbersOk, D.MemoryBounds, D.TablesOk;
  }

  lemma CrashLayers(s: D.Db, t: D.Db, a: Levels, b: Levels, cut: map<nat, seq<GroupCommit.Record>>,
                    rebuilt: map<nat, set<Entry>>, c: Choice)
    requires D.Inv(s) && R.ReadOk(s) && LevelsOk(s.disk.tables, s.back, a)
    requires D.CrashNext(s, t, cut, rebuilt) && CrashChoice(Saved(s, a), b.current, rebuilt, c)
    ensures Layered(b.current)
  {
    RebuiltNewer(s, a, cut, rebuilt, c.files);
    RebuiltAbove(s, a, rebuilt, c.files);
    SavedMatches(s, a);
    hide D.Inv, R.ReadOk, LevelsOk, D.CrashNext, Layered, Home, FilesOk, AllNewer, Edited, Fits;
    RebuiltFits(Saved(s, a), c.files);
    FittingEditKeepsLayers(Saved(s, a), b.current, {}, At(0, c.files));
  }

  /** The reopened version matches the tables of the reopened database. */
  lemma CrashMatches(v: Version, w: Version, tables: map<nat, set<Entry>>, files: set<nat>,
                     rebuilt: map<nat, set<Entry>>, after: map<nat, set<Entry>>, c: Choice)
    requires Matches(tables, files, v) && Layered(w) && CrashChoice(v, w, rebuilt, c) && files !! rebuilt.Keys
    requires after.Keys == files + rebuilt.Keys
    requires forall n :: n in after ==> after[n] == if n in rebuilt then rebuilt[n] else if n in tables then tables[n]
             else {}
    ensures Matches(after, files + rebuilt.Keys, w)
  {
    SevenLevels(v);
    hide Layered, FilesOk, AllNewer;
    forall l: nat, f | InLevel(w, l, f)
      ensures f.number in files + rebuilt.Keys && f.number in after && after[f.number] == Elements(f.table)
    {
      if (l, f) in At(0, c.files) {
        assert f in c.files && f.number in Numbers(c.files);
      } else {
        assert InLevel(v, l, f);
      }
    }
    forall n | n in files + rebuilt.Keys ensures Home(w, n) {
      if n in rebuilt {
        assert n in Numbers(c.files);
        var f :| f in c.files && f.number == n;
        assert (0, f) in At(0, c.files) && InLevel(w, 0, f);
      } else {
        assert Home(v, n);
        var l: nat, g :| InLevel(v, l, g) && g.number == n;
        assert InLevel(w, l, g);
      }
    }
  }

  lemma CrashKeeps(s: D.Db, t: D.Db, a: Levels, b: Levels, cut: map<nat, seq<GroupCommit.Record>>,
                   rebuilt: map<nat, set<Entry>>, c: Choice)
    requires D.Inv(s) && R.ReadOk(s) && LevelsOk(s.disk.tables, s.back, a)
    requires D.CrashNext(s, t, cut, rebuilt) && Next(s, a, b, D.Crash(cut, rebuilt), c)
    ensures LevelsOk(t.disk.tables, t.back, b)
  {
    hide R.ReadOk, LevelsOk, Layered, Matches, CrashChoice, D.TablesOf, D.LogsFrom;
    CrashLayers(s, t, a, b, cut, rebuilt, c);
    SavedMatches(s, a);
    FreshNumbers(s, rebuilt);
    CrashMatches(Saved(s, a), b.current, s.disk.tables, s.disk.manifest.files, rebuilt, t.disk.tables, c);
    hide D.Inv;
    JustOpened(t, b);
  }

  lemma FreshNumbers(s: D.Db, rebuilt: map<nat, set<Entry>>)
    requires D.Inv(s) && forall n :: n in rebuilt ==> n >= s.disk.manifest.next
    ensures s.disk.manifest.files !! rebuilt.Keys
  {
    hide D.FrontOk, D.LogsOk, D.OwedOk, D.LogNumbersOk, D.MemoryBounds, D.TablesOk, D.TablesOf;
  }

  lemma JustOpened(t: D.Db, b: Levels)
    requires Matches(t.disk.tables, t.back.version, b.current) && b == Levels(b.current, None, None)
    requires t.back.flush.None? && t.back.compaction.None? && t.back.apply.None?
    ensures LevelsOk(t.disk.tables, t.back, b)
  {
    hide Matches;
  }

  // ---------- runs ----------

  lemma BackgroundKeeps(s: D.Db, t: D.Db, a: Levels, b: Levels, step: D.Step, c: Choice)
    requires D.Inv(s) && R.ReadOk(s) && LevelsOk(s.disk.tables, s.back, a)
    requires (D.FlushNext(s, t, step) || D.CompactionNext(s, t, step)) && Next(s, a, b, step, c)
             && ClearStep(a, step, c)
    ensures LevelsOk(t.disk.tables, t.back, b)
  {
    hide D.Inv, R.ReadOk, LevelsOk, ClearStep;
    match step
    case StartFlush => StartFlushKeeps(s, t, a);
    case BuildFlush => BuildFlushKeeps(s, t, a);
    case CommitFlush => CommitFlushKeeps(s, t, a, b, c);
    case InstallFlush => InstallFlushKeeps(s, t, a, b, c);
    case StartCompaction(inputs) => StartCompactionKeeps(s, t, a, b, inputs, c);
    case OpenOutput => OpenOutputKeeps(s, t, a);
    case BuildOutput(n, content) => BuildOutputKeeps(s, t, a, n, content);
    case CommitCompaction(smallest) => CommitCompactionKeeps(s, t, a, b, smallest, c);
    case InstallCompaction => InstallCompactionKeeps(s, t, a, b, c);
  }

  lemma StepKeepsLevels(s: D.Db, t: D.Db, a: Levels, b: Levels, step: D.Step, c: Choice)
    requires D.Inv(s) && R.ReadOk(s) && LevelsOk(s.disk.tables, s.back, a)
    requires D.Next(s, t, step) && Next(s, a, b, step, c) && ClearStep(a, step, c)
    ensures LevelsOk(t.disk.tables, t.back, b)
  {
    hide D.Inv, R.ReadOk, LevelsOk, ClearStep, D.FlushNext, D.CompactionNext, D.CrashNext, D.WriterNext;
    match step
    case Crash(cut, rebuilt) => CrashKeeps(s, t, a, b, cut, rebuilt, c);
    case Enqueue(_) => NothingNew(s, t, a);
    case WriteManifest => NothingNew(s, t, a);
    case BackgroundFails => NothingNew(s, t, a);
    case Pin => NothingNew(s, t, a);
    case Unpin(_) => NothingNew(s, t, a);
    case _ =>
      if D.IsWriterStep(step) {
        R.WriterSame(s, t, step);
        NothingNew(s, t, a);
      } else {
        BackgroundKeeps(s, t, a, b, step, c);
      }
  }

  ghost predicate Run(states: seq<D.Db>, levels: seq<Levels>, steps: seq<D.Step>, choices: seq<Choice>)
  {
    && D.Run(states, steps) && |levels| == |states| && |choices| == |steps|
    && levels[0] == Levels([[], [], [], [], [], [], []], None, None)
    && forall i :: 0 <= i < |steps| ==> Next(states[i], levels[i], levels[i + 1], steps[i], choices[i])
  }

  lemma InitLevels(s: D.Db, a: Levels)
    requires D.Init(s) && a == Levels([[], [], [], [], [], [], []], None, None)
    ensures LevelsOk(s.disk.tables, s.back, a)
  {
    var v := a.current;
    forall l: nat, f ensures !InLevel(v, l, f) {}
    assert Layered(v);
    hide Layered;
    JustOpened(s, a);
  }

  lemma {:induction false} RunsKeepLevels(states: seq<D.Db>, levels: seq<Levels>, steps: seq<D.Step>,
                                          choices: seq<Choice>, n: nat)
    requires Run(states, levels, steps, choices) && n < |states|
    requires forall i :: 0 <= i < n ==> ClearStep(levels[i], steps[i], choices[i])
    ensures LevelsOk(states[n].disk.tables, states[n].back, levels[n])
  {
    hide D.Inv, R.ReadOk, LevelsOk, ClearStep, D.Next, Next, D.Init;
    if n == 0 {
      InitLevels(states[0], levels[0]);
    } else {
      RunsKeepLevels(states, levels, steps, choices, n - 1);
      D.RunsKeepInv(states, steps, n - 1);
      R.RunsKeepReads(states, steps, n - 1);
      StepKeepsLevels(states[n - 1], states[n], levels[n - 1], levels[n], steps[n - 1], choices[n - 1]);
    }
  }

  // ---------- what is found ----------

  /** A memtable lists its entries in key order. */
  ghost predicate IsTable(t: seq<Entry>, entries: seq<Entry>)
  {
    SortedTable(t) && Elements(t) == Elements(entries)
  }

  ghost predicate IsImm(t: Option<seq<Entry>>, imm: Option<seq<Entry>>)
  {
    (t.Some? <==> imm.Some?) && (t.Some? ==> IsTable(t.value, imm.value))
  }

  lemma MemoryFound(s: D.Db, a: Levels, mem: seq<Entry>, imm: Option<seq<Entry>>, user: UserKey, q: nat)
    requires D.Inv(s) && R.ReadOk(s) && Matches(s.disk.tables, s.back.version, a.current)
    requires IsTable(mem, s.memory.mem) && IsImm(imm, s.memory.imm)
    ensures Store.Told(Store.Found(mem, imm, a.current, user, q)) == Read(D.Contents(s), user, q)
  {
    MatchesEntries(s.disk.tables, s.back.version, a.current);
    MemoryLayers(s);
    hide D.Inv, R.ReadOk, Matches, Entries, Layered, D.TablesOf, Read, Store.Found, SortedTable;
    assert Layered(a.current) by { MatchesLayered(s.disk.tables, s.back.version, a.current); }
    assert D.Contents(s) == Elements(mem) + (Store.OfImm(imm) + Entries(a.current));
    Store.LayersFound(mem, imm, a.current, user, q);
  }

  lemma MatchesLayered(tables: map<nat, set<Entry>>, files: set<nat>, v: Version)
    requires Matches(tables, files, v)
    ensures Layered(v)
  {}

  lemma MemoryLayers(s: D.Db)
    requires D.Inv(s) && R.ReadOk(s)
    ensures var m, i, T := Elements(s.memory.mem), R.Frozen(s), D.TablesOf(s.disk.tables, s.back.version);
      Above(m, i + T) && Above(i, T) && Distinct(m + (i + T))
  {
    R.MemoryLayer(s);
    hide D.FrontOk, D.LogNumbersOk, D.MemoryBounds, D.TablesOk, D.ManifestOk, R.ManifestReads, GroupCommit.Stamp,
         GroupCommit.Replay, D.TablesOf, ReadsEqual;
    assert Elements(s.memory.mem) <= R.CurrentLog(s);
    R.LayersNumbered(D.InMemory(s.memory), s.flushed);
  }

  /** In every reachable state, after whatever crashes, provided that no compaction was committed over a file flushed
      to its output level meanwhile: the code finds, for every key, the newest of the writes applied and not lost,
      all acknowledged ones among them. */
  lemma RunningFinds(states: seq<D.Db>, levels: seq<Levels>, steps: seq<D.Step>, choices: seq<Choice>, n: nat,
                     mem: seq<Entry>, imm: Option<seq<Entry>>)
    requires Run(states, levels, steps, choices) && n < |states|
    requires forall i :: 0 <= i < n ==> ClearStep(levels[i], steps[i], choices[i])
    requires IsTable(mem, states[n].memory.mem) && IsImm(imm, states[n].memory.imm)
    ensures var s := states[n]; var written := s.flushed + D.InMemory(s.memory);
      && s.acked <= written && s.horizon <= s.front.lastSequence
      && forall user, q: nat :: s.horizon <= q ==>
           Store.Told(Store.Found(mem, imm, levels[n].current, user, q)) == Read(written, user, q)
  {
    var s := states[n];
    D.RunsKeepInv(states, steps, n);
    R.RunsKeepReads(states, steps, n);
    R.RunningReads(states, steps, n);
    RunsKeepLevels(states, levels, steps, choices, n);
    hide Run, D.Inv, R.ReadOk, Matches, JobOk, NextOk, D.Contents, D.InMemory, Store.Found,
        Read, IsTable, IsImm, ClearStep;
    forall user, q: nat | s.horizon <= q
      ensures Store.Told(Store.Found(mem, imm, levels[n].current, user, q)) ==
              Read(s.flushed + D.InMemory(s.memory), user, q)
    {
      MemoryFound(s, levels[n], mem, imm, user, q);
    }
  }

  lemma CrashedFlushed(s: D.Db, t: D.Db, cut: map<nat, seq<GroupCommit.Record>>, rebuilt: map<nat, set<Entry>>)
    requires D.CrashNext(s, t, cut, rebuilt)
    ensures t.flushed + D.InMemory(t.memory) == R.Survivors(s, cut) && t.memory.mem == [] && t.memory.imm.None?
    ensures t.horizon == D.DiskHorizon(s)
  {
    hide D.TablesOf, D.LogsFrom, D.OnDisk;
    assert D.InMemory(t.memory) == {};
  }

  /** After a crash in any reachable state, whatever it takes from the logs, the reopened database finds for every key
      the newest of the surviving writes: all of acknowledged sync writers before a failed append, all acknowledged
      ones if nothing is taken, and nothing that was not written. */
  lemma ReopenedFinds(states: seq<D.Db>, levels: seq<Levels>, steps: seq<D.Step>, choices: seq<Choice>, n: nat)
    requires Run(states, levels, steps, choices) && n < |steps| && steps[n].Crash?
    requires forall i :: 0 <= i <= n ==> ClearStep(levels[i], steps[i], choices[i])
    ensures var s, cut := states[n], steps[n].cut;
      && D.CutOk(s.disk.logs, cut)
      && s.safe <= R.Survivors(s, cut) <= R.Written(s)
      && (D.Whole(s.disk.logs, cut) ==> s.acked <= R.Survivors(s, cut))
      && forall user, q: nat :: D.DiskHorizon(s) <= q ==>
           Store.Told(Store.Found([], None, levels[n + 1].current, user, q)) == Read(R.Survivors(s, cut), user, q)
  {
    var s, t, step := states[n], states[n + 1], steps[n];
    assert D.Next(s, t, step);
    CrashedFlushed(s, t, step.cut, step.rebuilt);
    R.ReadsSurviveCrash(states, steps, n, step.cut);
    hide D.Next, Next, D.Init, R.Survivors, R.Written, Store.Found, Read, ClearStep, D.DiskHorizon, ReadsEqual;
    RunningFinds(states, levels, steps, choices, n + 1, [], None);
  }

  // ---------- what a compaction may commit ----------

  /** In every reachable state, outputs that hold what the drop rule keeps may be committed if and only if no dropped
      deletion uncovers a value that the next level keeps. */
  lemma CommitExact(states: seq<D.Db>, levels: seq<Levels>, steps: seq<D.Step>, choices: seq<Choice>, n: nat,
                    smallest: nat, c: Choice)
    requires Run(states, levels, steps, choices) && n < |states|
    requires forall i :: 0 <= i < n ==> ClearStep(levels[i], steps[i], choices[i])
    requires var s, a := states[n], levels[n];
      && s.back.compaction.Some? && a.job.Some? && a.job.value.Rewrite? && c.Outputs?
      && var j := a.job.value;
         && Store.Written(j.base, j.level, j.in0, j.in1, c.input, smallest, c.outputs)
         && Numbers(c.outputs) == s.back.compaction.value.outputs && OnTables(c.outputs, s.disk.tables)
    ensures var s, j, k := states[n], levels[n].job.value, states[n].back.compaction.value;
      var taken := FileEntries(j.in0) + FileEntries(j.in1);
      && j.level + 1 < |j.base|
      && (ReadsEqual(D.TablesOf(s.disk.tables, s.back.version),
                     D.TablesOf(s.disk.tables, s.back.version - k.inputs + k.outputs), smallest) <==>
          forall user :: !Compaction.Uncovers(j.base, j.level, taken, Entries(levels[n].current) - taken,
                                              Compaction.LeftNext(j.base, j.level, j.in1), smallest, user))
  {
    D.RunsKeepInv(states, steps, n);
    R.RunsKeepReads(states, steps, n);
    RunsKeepLevels(states, levels, steps, choices, n);
    hide Run, ClearStep, D.Inv, R.ReadOk, Store.Written, ReadsEqual, Compaction.Uncovers, Compaction.LeftNext;
    CommitExactHere(states[n], levels[n], smallest, c);
  }

  lemma CommitExactHere(s: D.Db, a: Levels, smallest: nat, c: Choice)
    requires R.ReadOk(s) && LevelsOk(s.disk.tables, s.back, a) && s.back.compaction.Some?
             && a.job.value.Rewrite? && c.Outputs?
    requires var j := a.job.value;
      && Store.Written(j.base, j.level, j.in0, j.in1, c.input, smallest, c.outputs)
      && Numbers(c.outputs) == s.back.compaction.value.outputs && OnTables(c.outputs, s.disk.tables)
    ensures var j, k := a.job.value, s.back.compaction.value;
      var taken := FileEntries(j.in0) + FileEntries(j.in1);
      && j.level + 1 < |j.base|
      && (ReadsEqual(D.TablesOf(s.disk.tables, s.back.version),
                     D.TablesOf(s.disk.tables, s.back.version - k.inputs + k.outputs), smallest) <==>
          forall user :: !Compaction.Uncovers(j.base, j.level, taken, Entries(a.current) - taken,
                                              Compaction.LeftNext(j.base, j.level, j.in1), smallest, user))
  {
    var j, v, k, tables := a.job.value, a.current, s.back.compaction.value, s.disk.tables;
    var taken := FileEntries(j.in0) + FileEntries(j.in1);
    FilesDistinct(s, a);
    GrownEntries(j.base, v);
    MatchesEntries(tables, s.back.version, v);
    HeldInputs(j, v);
    Store.OutputsOk(j.base, j.level, j.in0, j.in1, c.input, smallest, c.outputs);
    hide R.ReadOk, Store.Written, ValidInputs, Grown, Layered, Entries, Distinct, Above, FileEntries, FilesOk, Disjoint,
         TakenFrom, Compaction.Split, Compaction.Uncovers, Compaction.Survivors, Compaction.LeftNext, ReadsEqual;
    SplitsOff(j.base, j.level, j.in0, j.in1, Entries(v));
    RestOnTables(tables, s.back.version, v, j);
    OutputsOnTables(tables, c.outputs);
    InputsOnTables(tables, s.back.version, v, j);
    hide Matches, D.TablesOf;
    R.DropRuleMayCommit(s, j.base, j.level, Compaction.LeftNext(j.base, j.level, j.in1), smallest);
  }

  lemma InputsOnTables(tables: map<nat, set<Entry>>, files: set<nat>, v: Version, j: Job)
    requires Matches(tables, files, v) && j.Rewrite? && Holds(v, j.level, j.in0, j.in1)
    ensures Numbers(j.in0 + j.in1) <= files
    ensures D.TablesOf(tables, Numbers(j.in0 + j.in1)) == FileEntries(j.in0) + FileEntries(j.in1)
  {
    hide Layered, Home;
    forall f | f in j.in0 + j.in1
      ensures f.number in files && f.number in tables && tables[f.number] == Elements(f.table) {
      assert InLevel(v, if f in j.in0 then j.level else j.level + 1, f);
    }
    OutputsOnTables(tables, j.in0 + j.in1);
    hide D.TablesOf;
    assert FileEntries(j.in0 + j.in1) == FileEntries(j.in0) + FileEntries(j.in1);
  }

  lemma OutputsOnTables(tables: map<nat, set<Entry>>, files: seq<File>)
    requires OnTables(files, tables)
    ensures D.TablesOf(tables, Numbers(files)) == FileEntries(files)
  {
    forall e | e in FileEntries(files) ensures e in D.TablesOf(tables, Numbers(files)) {
      var f :| f in files && e in f.table;
      assert f.number in Numbers(files) && e in tables[f.number];
    }
  }

  lemma RestOnTables(tables: map<nat, set<Entry>>, files: set<nat>, v: Version, j: Job)
    requires Matches(tables, files, v) && j.Rewrite? && Holds(v, j.level, j.in0, j.in1)
    ensures D.TablesOf(tables, files - Numbers(j.in0 + j.in1)) == Entries(v) - (FileEntries(j.in0) + FileEntries(j.in1))
  {
    var taken, rest := FileEntries(j.in0) + FileEntries(j.in1), files - Numbers(j.in0 + j.in1);
    forall e | e in D.TablesOf(tables, rest) ensures e in Entries(v) && e !in taken {
      var n :| n in rest && n in tables && e in tables[n];
      assert Home(v, n);
      var l: nat, g :| InLevel(v, l, g) && g.number == n;
      EntryOf(v, l, g, e);
      if e in taken {
        var m, f := InputHome(v, j.level, j.in0, j.in1, e);
        assert f in j.in0 + j.in1;
        OneHome(v, l, g, m, f, e);
      }
    }
    forall e | e in Entries(v) && e !in taken ensures e in D.TablesOf(tables, rest) {
      var l, f := HomeOf(v, e);
      StaysOut(v, j.level, j.in0, j.in1, l, f);
      assert f.number in rest && e in tables[f.number];
    }
  }
}
