/** The store with compactions that take time: between choosing the inputs and installing the outputs, writers go
    on and memtables are flushed (db/db_impl.cc).  What such runs keep, and exactly when. */
module Nested {
  import opened Keys
  import opened Lists
  import opened Files
  import opened Lookup
  import opened Selection
  import opened Compaction
  import opened Steps
  import opened Late
  import Store

  /** A compaction at work: the version its inputs were chosen in, the snapshot it respects, and the numbers of
      the output files opened so far. */
  datatype Running = Running(base: Version, level: nat, in0: seq<File>, in1: seq<File>, smallest: nat,
                             numbers: seq<nat>)

  datatype State = State(store: Store.Store, running: Option<Running>)

  datatype Step =
    | Plain(step: Store.Step)
    | Start(level: nat, in0: seq<File>, in1: seq<File>)
    | OpenOutput
    | Install(input: seq<Entry>, outputs: seq<File>)

  /** One background thread: no move and no second compaction while one is running. */
  ghost predicate Next(s: State, t: State, step: Step)
  {
    match step
    case Plain(p) =>
      && Store.Next(s.store, t.store, p) && t.running == s.running
      && !p.Compact? && (s.running.Some? ==> !p.Move?)
    case Start(level, in0, in1) =>
      && s.running.None? && ValidInputs(s.store.version, level, in0, in1)
      && t == s.(running := Some(Running(s.store.version, level, in0, in1, Store.SmallestSnapshot(s.store), [])))
    case OpenOutput =>
      && s.running.Some?
      && t == State(s.store.(nextNumber := s.store.nextNumber + 1),
                    Some(s.running.value.(numbers := s.running.value.numbers + [s.store.nextNumber])))
    case Install(input, outputs) =>
      && s.running.Some?
      && var r := s.running.value;
         && Store.Written(r.base, r.level, r.in0, r.in1, input, r.smallest, outputs)
         && NumberedBy(outputs, r.numbers)
         && Edited(s.store.version, t.store.version, Inputs(r.level, r.in0, r.in1), At(r.level + 1, outputs))
         && t == State(s.store.(version := t.store.version, horizon := r.smallest), None)
  }

  ghost predicate NumberedBy(outputs: seq<File>, numbers: seq<nat>)
  {
    |outputs| == |numbers| && forall i :: 0 <= i < |outputs| ==> outputs[i].number == numbers[i]
  }

  /** The outputs are clear of every file that reached their level while the compaction was running. */
  ghost predicate ClearStep(s: State, step: Step)
  {
    step.Install? && s.running.Some? ==>
      Clear(s.running.value.base, s.store.version, s.running.value.level, step.outputs)
  }

  ghost function Taken(r: Running): set<Entry>
  {
    FileEntries(r.in0) + FileEntries(r.in1)
  }

  /** No dropped deletion hides a value left at the next level. */
  ghost predicate SafeStep(s: State, step: Step)
  {
    step.Install? && s.running.Some? && s.running.value.level + 1 < |s.running.value.base| ==>
      var r := s.running.value;
      forall user :: !Uncovers(r.base, r.level, Taken(r), Store.Contents(s.store) - Taken(r),
                               LeftNext(r.base, r.level, r.in1), r.smallest, user)
  }

  // ---------- the invariant ----------

  ghost predicate NumbersOk(s: Store.Store, numbers: seq<nat>)
  {
    && (forall i :: 0 <= i < |numbers| ==> numbers[i] < s.nextNumber)
    && (forall i, j :: 0 <= i < j < |numbers| ==> numbers[i] != numbers[j])
    && (forall l: nat, f :: InLevel(s.version, l, f) ==> f.number !in numbers)
  }

  ghost predicate RunningOk(s: Store.Store, r: Running)
  {
    && Layered(r.base) && Grown(r.base, s.version) && ValidInputs(r.base, r.level, r.in0, r.in1)
    && s.horizon <= r.smallest <= s.lastSequence
    && (forall i :: 0 <= i < |s.snapshots| ==> r.smallest <= s.snapshots[i])
    && NumbersOk(s, r.numbers)
  }

  ghost predicate Inv(s: State)
  {
    Store.Inv(s.store) && (s.running.Some? ==> RunningOk(s.store, s.running.value))
  }

  lemma BaseDistinct(s: Store.Store, base: Version)
    requires Store.Inv(s) && Grown(base, s.version)
    ensures Entries(base) <= Store.Contents(s) && Distinct(Entries(base)) && Distinct(Store.Contents(s))
    ensures Above(Store.Contents(s) - Entries(base), Entries(base))
  {
    Store.HistoryDistinct(s);
    GrownEntries(base, s.version);
    hide Layered, Entries, Grown, Store.HistoryOk, Store.SnapshotsOk, SortedTable;
  }

  lemma FlushKeepsRunning(s: Store.Store, t: Store.Store, level: nat, size: nat, r: Running)
    requires Store.Inv(s) && RunningOk(s, r) && Store.Next(s, t, Store.Flush(level, size))
    ensures RunningOk(t, r)
  {
    if s.imm.value != [] {
      var f := Store.FlushedFile(s.nextNumber, size, s.imm.value);
      FlushedNewer(s, f);
      assert FileOk(f);
      hide Layered, ValidInputs, Store.Inv, FileOk, AllNewer, Meets, Grown;
      FlushGrows(r.base, s.version, t.version, level, f);
    }
  }

  lemma FlushedNewer(s: Store.Store, f: File)
    requires Store.Inv(s) && s.imm.Some? && f.table == s.imm.value
    ensures forall l: nat, g :: InLevel(s.version, l, g) ==> AllNewer(f, g)
  {
    hide Layered, Entries, Store.HistoryOk;
    forall l: nat, g | InLevel(s.version, l, g) ensures AllNewer(f, g) {
      forall e, d | e in f.table && d in g.table ensures e.key.sequence > d.key.sequence {
        EntryOf(s.version, l, g, d);
        assert e in Store.Memory(s);
      }
    }
  }

  lemma PlainKeepsRunning(s: Store.Store, t: Store.Store, p: Store.Step, r: Running)
    requires Store.Inv(s) && RunningOk(s, r) && Store.Next(s, t, p) && !p.Compact? && !p.Move?
    ensures RunningOk(t, r)
  {
    hide Layered, ValidInputs, Grown;
    match p
    case Flush(level, size) => FlushKeepsRunning(s, t, level, size, r);
    case _ =>
  }

  lemma StartKeeps(s: State, t: State, step: Step)
    requires Inv(s) && step.Start? && Next(s, t, step)
    ensures Inv(t)
  {
    InputsInside(s.store.version, step.level, step.in0, step.in1);
    hide ValidInputs, Layered;
  }

  lemma OutputNumbers(s: Store.Store, r: Running, outputs: seq<File>)
    requires NumbersOk(s, r.numbers) && NumberedBy(outputs, r.numbers)
    ensures NewNumbers(s.version, outputs)
    ensures forall o :: o in outputs ==> o.number < s.nextNumber
  {
    forall o | o in outputs ensures o.number in r.numbers {
      var i :| 0 <= i < |outputs| && outputs[i] == o;
      assert r.numbers[i] in r.numbers;
    }
  }

  // ---------- installing ----------

  /** Installing keeps the layering if and only if the outputs are clear. */
  lemma InstallExact(s: State, t: State, step: Step)
    requires Inv(s) && step.Install? && Next(s, t, step)
    ensures Layered(t.store.version) <==> ClearStep(s, step)
  {
    var r, outputs := s.running.value, step.outputs;
    BaseDistinct(s.store, r.base);
    Store.OutputsOk(r.base, r.level, r.in0, r.in1, step.input, r.smallest, outputs);
    OutputNumbers(s.store, r, outputs);
    hide Layered, ValidInputs, Grown, Clear, NewNumbers, Edited, Entries, Distinct, FilesOk, Disjoint, TakenFrom;
    LateLayers(r.base, s.store.version, t.store.version, r.level, r.in0, r.in1, outputs);
  }

  lemma InstallContents(s: State, t: State, step: Step)
    requires Inv(s) && step.Install? && Next(s, t, step)
    ensures var r := s.running.value;
      && Taken(r) <= Entries(s.store.version) && Entries(t.store.version) <= Entries(s.store.version)
      && Store.Contents(t.store) ==
           Survivors(r.base, r.level, Taken(r), r.smallest) + (Store.Contents(s.store) - Taken(r))
  {
    var r := s.running.value;
    InstalledEntries(s, t, step);
    SurvivorsWithin(r);
    hide Layered, ValidInputs, Grown, Store.Written, Edited, Entries, FileEntries, Store.HistoryOk, Store.SnapshotsOk,
         SortedTable, Survivors;
  }

  lemma InstalledEntries(s: State, t: State, step: Step)
    requires Inv(s) && step.Install? && Next(s, t, step)
    ensures var r := s.running.value;
      && Taken(r) <= Entries(s.store.version)
      && Entries(t.store.version) ==
           (Entries(s.store.version) - Taken(r)) + Survivors(r.base, r.level, Taken(r), r.smallest)
  {
    var r, v := s.running.value, s.store.version;
    var removed, added := Inputs(r.level, r.in0, r.in1), At(r.level + 1, step.outputs);
    hide Layered, ValidInputs, Grown, Store.Written, Edited, Entries, FilesOk, Disjoint, TakenFrom, FileEntries,
         Store.HistoryOk, Store.SnapshotsOk, Above, SortedTable, Survivors, NumbersOk;
    StillThere(r, v);
    InputsInside(r.base, r.level, r.in0, r.in1);
    Store.OutputsOk(r.base, r.level, r.in0, r.in1, step.input, r.smallest, step.outputs);
    Store.UntouchedIs(v, r.level, r.in0, r.in1);
    assert |v| == NUM_LEVELS by { GrownLevels(r.base, v); }
    Store.EditedEntries(v, t.store.version, removed, added);
    Store.AddedEntries(r.level + 1, step.outputs);
  }

  lemma GrownLevels(base: Version, v: Version)
    requires Grown(base, v)
    ensures |v| == NUM_LEVELS
  {}

  lemma SurvivorsWithin(r: Running)
    ensures Survivors(r.base, r.level, Taken(r), r.smallest) <= Taken(r)
  {}

  lemma StillThere(r: Running, v: Version)
    requires Grown(r.base, v) && ValidInputs(r.base, r.level, r.in0, r.in1)
    ensures Holds(v, r.level, r.in0, r.in1)
  {
    forall f | f in r.in0 ensures f in v[r.level] { assert InLevel(r.base, r.level, f); }
    forall f | f in r.in1 ensures f in v[r.level + 1] { assert InLevel(r.base, r.level + 1, f); }
  }

  lemma InstallKeeps(s: State, t: State, step: Step)
    requires Inv(s) && step.Install? && Next(s, t, step) && ClearStep(s, step)
    ensures Inv(t)
  {
    hide Layered, ValidInputs, Grown, Store.Written, Edited, Entries, Store.HistoryOk, Survivors,
        SortedTable, NumbersOk,
         Clear, FileEntries;
    InstallExact(s, t, step);
    InstallContents(s, t, step);
    InstallNumbers(s, t, step);
  }

  lemma InstallNumbers(s: State, t: State, step: Step)
    requires Inv(s) && step.Install? && Next(s, t, step)
    ensures forall l: nat, f :: InLevel(t.store.version, l, f) ==> f.number < t.store.nextNumber
  {
    OutputNumbers(s.store, s.running.value, step.outputs);
    hide Layered, ValidInputs, Grown, Store.Written, Entries, Store.HistoryOk, Above;
  }

  // ---------- readings ----------

  lemma RunningSplits(s: State)
    requires Inv(s) && s.running.Some?
    ensures var r := s.running.value;
      && r.level + 1 < |r.base| && Taken(r) <= Store.Contents(s.store)
      && Split(r.base, r.level, Taken(r), Store.Contents(s.store) - Taken(r), LeftNext(r.base, r.level, r.in1))
  {
    var r := s.running.value;
    BaseDistinct(s.store, r.base);
    hide Layered, ValidInputs, Grown, Entries, FileEntries, Split, LeftNext, Store.Inv, Distinct;
    SplitsOff(r.base, r.level, r.in0, r.in1, Store.Contents(s.store));
  }

  /** Whatever was flushed meanwhile, the compaction keeps every reading of the entries from its snapshot on if and
      only if it is safe. */
  lemma ReadingsExact(s: State, t: State, step: Step)
    requires Inv(s) && step.Install? && Next(s, t, step)
    ensures ReadsEqual(Store.Contents(s.store), Store.Contents(t.store), s.running.value.smallest) <==>
            SafeStep(s, step)
  {
    var r := s.running.value;
    hide Inv, Next, Split, Uncovers, ReadsEqual, Survivors, Store.Contents;
    RunningSplits(s);
    InstallContents(s, t, step);
    var rest := Store.Contents(s.store) - Taken(r);
    assert Taken(r) + rest == Store.Contents(s.store);
    DropRuleExact(r.base, r.level, Taken(r), rest, LeftNext(r.base, r.level, r.in1), r.smallest);
  }

  // ---------- runs ----------

  ghost predicate Run(states: seq<State>, steps: seq<Step>)
  {
    && |states| == |steps| + 1 && Store.Init(states[0].store) && states[0].running.None?
    && forall i :: 0 <= i < |steps| ==> Next(states[i], states[i + 1], steps[i])
  }

  lemma StepKeepsInv(s: State, t: State, step: Step)
    requires Inv(s) && Next(s, t, step) && ClearStep(s, step)
    ensures Inv(t)
  {
    match step
    case Plain(p) =>
      hide Store.Inv, Store.Next, RunningOk;
      Store.StepKeepsInv(s.store, t.store, p);
      if s.running.Some? { PlainKeepsRunning(s.store, t.store, p, s.running.value); }
    case Start(_, _, _) => StartKeeps(s, t, step);
    case OpenOutput => OpenKeeps(s, t);
    case Install(_, _) => InstallKeeps(s, t, step);
  }

  lemma OpenKeeps(s: State, t: State)
    requires Inv(s) && Next(s, t, OpenOutput)
    ensures Inv(t)
  {
    hide ValidInputs, Layered, Grown, Entries, Store.HistoryOk, Above, SortedTable;
    assert Store.Memory(t.store) == Store.Memory(s.store);
  }

  /** The files stay layered throughout a run if and only if every compaction in it is clear when installed. */
  lemma LayeredExactly(states: seq<State>, steps: seq<Step>, n: nat)
    requires Run(states, steps) && n < |states|
    ensures (forall i :: 0 <= i <= n ==> Layered(states[i].store.version)) <==>
            (forall i :: 0 <= i < n ==> ClearStep(states[i], steps[i]))
  {
    if forall i :: 0 <= i < n ==> ClearStep(states[i], steps[i]) {
      forall i | 0 <= i <= n ensures Layered(states[i].store.version) {
        ClearRunsKeepInv(states, steps, i);
      }
    }
    if forall i :: 0 <= i <= n ==> Layered(states[i].store.version) {
      LayeredRunsAreClear(states, steps, n);
    }
  }

  lemma {:induction false} ClearRunsKeepInv(states: seq<State>, steps: seq<Step>, n: nat)
    requires Run(states, steps) && n < |states| && forall i :: 0 <= i < n ==> ClearStep(states[i], steps[i])
    ensures Inv(states[n])
  {
    hide Next, Store.Init, Store.Inv, ClearStep;
    if n == 0 {
      Store.InitInv(states[0].store);
    } else {
      ClearRunsKeepInv(states, steps, n - 1);
      StepKeepsInv(states[n - 1], states[n], steps[n - 1]);
    }
  }

  lemma {:induction false} LayeredRunsAreClear(states: seq<State>, steps: seq<Step>, n: nat)
    requires Run(states, steps) && n < |states| && forall i :: 0 <= i <= n ==> Layered(states[i].store.version)
    ensures forall i :: 0 <= i < n ==> ClearStep(states[i], steps[i])
  {
    if n > 0 {
      LayeredRunsAreClear(states, steps, n - 1);
      ClearRunsKeepInv(states, steps, n - 1);
      hide Next, Inv, Layered, Clear;
      if steps[n - 1].Install? {
        InstallExact(states[n - 1], states[n], steps[n - 1]);
      }
    }
  }

  lemma StepKeepsFaithful(s: State, t: State, step: Step)
    requires Inv(s) && Store.Faithful(s.store) && Next(s, t, step) && SafeStep(s, step)
    ensures Store.Faithful(t.store)
  {
    match step
    case Plain(p) => Store.StepKeepsFaithful(s.store, t.store, p);
    case Start(_, _, _) =>
    case OpenOutput => assert Store.Contents(t.store) == Store.Contents(s.store);
    case Install(_, _) =>
      ReadingsExact(s, t, step);
      hide Store.Contents, Newest, Store.Inv, Layered, Grown, ValidInputs, SafeStep;
      var H, C, D := Elements(s.store.history), Store.Contents(s.store), Store.Contents(t.store);
      forall user, q: nat | t.store.horizon <= q ensures Read(H, user, q) == Read(D, user, q) {
        assert Read(H, user, q) == Read(C, user, q) && Read(C, user, q) == Read(D, user, q);
      }
  }

  lemma {:induction false} RunsKeepFaithful(states: seq<State>, steps: seq<Step>, n: nat)
    requires Run(states, steps) && n < |states|
    requires forall i :: 0 <= i < n ==> ClearStep(states[i], steps[i]) && SafeStep(states[i], steps[i])
    ensures Store.Faithful(states[n].store)
  {
    hide Next, Store.Init, Store.Inv, ClearStep, SafeStep, Store.Faithful;
    if n == 0 {
      Store.InitInv(states[0].store);
    } else {
      RunsKeepFaithful(states, steps, n - 1);
      ClearRunsKeepInv(states, steps, n - 1);
      StepKeepsFaithful(states[n - 1], states[n], steps[n - 1]);
    }
  }

  /** After every run whose compactions are clear and safe, the code finds, at every live snapshot and at the present,
      the newest write of the key up to that point. */
  lemma RunsFindHistory(states: seq<State>, steps: seq<Step>, n: nat)
    requires Run(states, steps) && n < |states|
    requires forall i :: 0 <= i < n ==> ClearStep(states[i], steps[i]) && SafeStep(states[i], steps[i])
    ensures var s := states[n].store;
      forall user, q :: q in s.snapshots + [s.lastSequence] ==>
        Store.Told(Store.Found(s.mem, s.imm, s.version, user, q)) == Read(Elements(s.history), user, q)
  {
    var s := states[n].store;
    hide Run, Store.Inv, ClearStep, SafeStep, Store.Faithful, Store.Found;
    RunsKeepFaithful(states, steps, n);
    ClearRunsKeepInv(states, steps, n);
    Store.FaithfulReads(s);
    hide Read;
    forall user, q | q in s.snapshots + [s.lastSequence]
      ensures Store.Told(Store.Found(s.mem, s.imm, s.version, user, q)) == Read(Elements(s.history), user, q)
    {
      Store.FoundIsRead(s, user, q);
    }
  }
}
