/** The store as a state machine: writes, memtable switches, flushes, moves, compactions and
    snapshots; what every run keeps, and what every read returns (db/db_impl.cc). */
module Store {
  import opened Keys
  import opened Files
  import opened Lookup
  import opened Selection
  import opened Compaction
  import opened Steps

  /** `history` lists every write ever made; `horizon` is the newest snapshot a compaction was allowed to forget
      below. */
  datatype Store = Store(mem: seq<Entry>, imm: Option<seq<Entry>>, version: Version, lastSequence: nat,
                         snapshots: seq<nat>, nextNumber: nat, history: seq<Entry>, horizon: nat)

  ghost function OfImm(imm: Option<seq<Entry>>): set<Entry>
  {
    if imm.Some? then Elements(imm.value) else {}
  }

  ghost function ImmElements(s: Store): set<Entry>
  {
    OfImm(s.imm)
  }

  ghost function Memory(s: Store): set<Entry>
  {
    Elements(s.mem) + ImmElements(s)
  }

  ghost function Contents(s: Store): set<Entry>
  {
    Memory(s) + Entries(s.version)
  }

  ghost predicate HistoryOk(history: seq<Entry>, last: nat)
  {
    && (forall i, j :: 0 <= i < j < |history| ==> history[i].key.sequence < history[j].key.sequence)
    && (forall i :: 0 <= i < |history| ==> history[i].key.sequence <= last)
  }

  ghost predicate SnapshotsOk(s: Store)
  {
    && s.horizon <= s.lastSequence
    && (forall i :: 0 <= i < |s.snapshots| ==> s.horizon <= s.snapshots[i] <= s.lastSequence)
    && (forall i, j :: 0 <= i < j < |s.snapshots| ==> s.snapshots[i] <= s.snapshots[j])
  }

  /** What every run keeps. */
  ghost predicate Inv(s: Store)
  {
    && Layered(s.version)
    && SortedTable(s.mem) && (s.imm.Some? ==> SortedTable(s.imm.value))
    && Above(Elements(s.mem), ImmElements(s)) && Above(Memory(s), Entries(s.version))
    && (forall l: nat, f :: InLevel(s.version, l, f) ==> f.number < s.nextNumber)
    && s.lastSequence < MAX_SEQUENCE && HistoryOk(s.history, s.lastSequence)
    && Contents(s) <= Elements(s.history)
    && SnapshotsOk(s)
  }

  /** Reads from the horizon on see the whole history. */
  ghost predicate Faithful(s: Store)
  {
    ReadsEqual(Elements(s.history), Contents(s), s.horizon)
  }

  lemma HistoryDistinct(s: Store)
    requires Inv(s)
    ensures Distinct(Elements(s.history)) && Distinct(Contents(s)) && Distinct(Entries(s.version))
            && Distinct(Memory(s))
  {}

  // ---------- steps ----------

  datatype Step =
    | Write(entry: Entry)
    | SwitchMemtable
    | Flush(level: nat, size: nat)
    | Move(level: nat, file: File)
    | Compact(level: nat, in0: seq<File>, in1: seq<File>, input: seq<Entry>, outputs: seq<File>)
    | TakeSnapshot
    | ReleaseSnapshot(index: nat)

  function InsertSorted(t: seq<Entry>, e: Entry): seq<Entry>
  {
    if t == [] || Before(e.key, t[0].key) then [e] + t else [t[0]] + InsertSorted(t[1..], e)
  }

  /** DoCompactionWork's choice of the oldest sequence number that must stay readable. */
  function SmallestSnapshot(s: Store): nat
  {
    if s.snapshots == [] then s.lastSequence else s.snapshots[0]
  }

  /** It is the newest sequence number that no live snapshot precedes. */
  lemma OldestInUse(s: Store, q: nat)
    requires Inv(s)
    ensures q <= SmallestSnapshot(s) <==>
              q <= s.lastSequence && forall i :: 0 <= i < |s.snapshots| ==> q <= s.snapshots[i]
  {}

  function FlushedFile(number: nat, size: nat, t: seq<Entry>): File
    requires t != []
  {
    File(number, size, t[0].key, t[|t| - 1].key, t)
  }

  ghost predicate FlushStep(s: Store, t: Store, level: nat, size: nat)
  {
    && s.imm.Some?
    && (if s.imm.value == []
        then t == s.(imm := None)
        else
          var f := FlushedFile(s.nextNumber, size, s.imm.value);
          && level < NUM_LEVELS
          && (level > 0 ==> forall l: nat, g :: l <= level && InLevel(s.version, l, g) ==>
              !Meets(g, f.smallest.user, f.largest.user))
          && Edited(s.version, t.version, {}, {(level, f)})
          && t == s.(imm := None, version := t.version, nextNumber := s.nextNumber + 1))
  }

  /** What DoCompactionWork writes for inputs chosen in a version. */
  ghost predicate Written(v: Version, level: nat, in0: seq<File>, in1: seq<File>, input: seq<Entry>, smallest: nat,
                          outputs: seq<File>)
  {
    && SortedTable(input) && Elements(input) == FileEntries(in0) + FileEntries(in1)
    && Flat(outputs) == Kept(v, level, input, smallest, |input|)
    && forall f :: f in outputs ==> Sealed(f)
  }

  ghost predicate CompactStep(s: Store, t: Store, step: Step)
    requires step.Compact?
  {
    && ValidInputs(s.version, step.level, step.in0, step.in1)
    && Written(s.version, step.level, step.in0, step.in1, step.input, SmallestSnapshot(s), step.outputs)
    && Numbered(step.outputs, s.nextNumber)
    && Edited(s.version, t.version, Inputs(step.level, step.in0, step.in1), At(step.level + 1, step.outputs))
    && t == s.(version := t.version, nextNumber := s.nextNumber + |step.outputs|, horizon := SmallestSnapshot(s))
  }

  ghost predicate Next(s: Store, t: Store, step: Step)
  {
    match step
    case Write(e) =>
      && e.key.sequence == s.lastSequence + 1 < MAX_SEQUENCE
      && t == s.(mem := InsertSorted(s.mem, e), lastSequence := e.key.sequence, history := s.history + [e])
    case SwitchMemtable => s.imm.None? && t == s.(mem := [], imm := Some(s.mem))
    case Flush(level, size) => FlushStep(s, t, level, size)
    case Move(level, f) =>
      && ValidInputs(s.version, level, [f], [])
      && Edited(s.version, t.version, {(level, f)}, {(level + 1, f)})
      && t == s.(version := t.version)
    case Compact(_, _, _, _, _) => CompactStep(s, t, step)
    case TakeSnapshot => t == s.(snapshots := s.snapshots + [s.lastSequence])
    case ReleaseSnapshot(i) => i < |s.snapshots| && t == s.(snapshots := s.snapshots[..i] + s.snapshots[i + 1..])
  }

  /** The compaction drops no deletion that hides a value left at the next level. */
  ghost predicate SafeStep(s: Store, step: Step)
  {
    step.Compact? && step.level + 1 < |s.version| ==>
      forall user :: !Uncovers(s.version, step.level, InputEntries(step), RestEntries(s, step),
                               LeftNext(s.version, step.level, step.in1), SmallestSnapshot(s), user)
  }

  ghost function InputEntries(step: Step): set<Entry>
    requires step.Compact?
  {
    FileEntries(step.in0) + FileEntries(step.in1)
  }

  ghost function RestEntries(s: Store, step: Step): set<Entry>
    requires step.Compact?
  {
    Contents(s) - InputEntries(step)
  }

  // ---------- memtable steps ----------

  lemma {:induction false} InsertSortedProps(t: seq<Entry>, e: Entry)
    requires SortedTable(t) && forall d :: d in t ==> d.key.sequence < e.key.sequence
    ensures SortedTable(InsertSorted(t, e))
    ensures Elements(InsertSorted(t, e)) == Elements(t) + {e}
  {
    if t == [] || Before(e.key, t[0].key) {
      forall i | 0 <= i < |t| ensures Before(e.key, t[i].key) {
        assert i > 0 ==> Before(t[0].key, t[i].key);
      }
    } else {
      assert t == [t[0]] + t[1..];
      InsertSortedProps(t[1..], e);
      var rest := InsertSorted(t[1..], e);
      assert t[0] in t;
      HeadBefore(t, e, rest);
      hide Before;
    }
  }

  lemma HeadBefore(t: seq<Entry>, e: Entry, rest: seq<Entry>)
    requires t != [] && SortedTable(t) && Elements(rest) == Elements(t[1..]) + {e}
    requires !Before(e.key, t[0].key) && t[0].key.sequence < e.key.sequence
    ensures forall i :: 0 <= i < |rest| ==> Before(t[0].key, rest[i].key)
  {
    forall i | 0 <= i < |rest| ensures Before(t[0].key, rest[i].key) {
      assert rest[i] in Elements(rest);
      if rest[i] in t[1..] {
        var j :| 0 <= j < |t[1..]| && t[1..][j] == rest[i];
        assert Before(t[0].key, t[j + 1].key);
      }
    }
  }

  lemma WriteHistory(s: Store, e: Entry)
    requires Inv(s) && e.key.sequence == s.lastSequence + 1
    ensures HistoryOk(s.history + [e], e.key.sequence)
    ensures Elements(s.history + [e]) == Elements(s.history) + {e}
    ensures forall d :: d in Contents(s) ==> d.key.sequence < e.key.sequence
  {}

  lemma WriteMemory(s: Store, t: Store, e: Entry)
    requires Inv(s) && Next(s, t, Write(e))
    ensures SortedTable(t.mem) && Elements(t.mem) == Elements(s.mem) + {e}
    ensures Memory(t) == Memory(s) + {e} && Contents(t) == Contents(s) + {e}
    ensures Above(Elements(t.mem), ImmElements(t)) && Above(Memory(t), Entries(t.version))
  {
    hide Layered, HistoryOk, SnapshotsOk, Entries;
    WriteHistory(s, e);
    assert forall d :: d in s.mem ==> d in Contents(s);
    InsertSortedProps(s.mem, e);
    hide InsertSorted, SortedTable;
    assert forall d :: d in ImmElements(s) || d in Entries(s.version) ==> d in Contents(s);
  }

  lemma WriteKeeps(s: Store, t: Store, e: Entry)
    requires Inv(s) && Next(s, t, Write(e))
    ensures Inv(t) && Contents(t) == Contents(s) + {e}
  {
    WriteHistory(s, e);
    WriteMemory(s, t, e);
  }

  /** A write is seen by every snapshot that includes it and by no earlier one. */
  lemma WriteFaithful(s: Store, t: Store, e: Entry)
    requires Inv(s) && Faithful(s) && Next(s, t, Write(e))
    ensures Faithful(t)
  {
    WriteKeeps(s, t, e);
    HistoryDistinct(s);
    HistoryDistinct(t);
    var H, C := Elements(s.history), Contents(s);
    assert Elements(t.history) == H + {e};
    forall d | d in H ensures d.key.sequence < e.key.sequence {
      var i :| 0 <= i < |s.history| && s.history[i] == d;
    }
    forall user, q: nat | t.horizon <= q ensures Read(Elements(t.history), user, q) == Read(Contents(t), user, q) {
      assert Read(H, user, q) == Read(C, user, q);
      AddNewest(H, e, user, q);
      AddNewest(C, e, user, q);
    }
  }

  lemma AddNewest(E: set<Entry>, e: Entry, user: UserKey, q: nat)
    requires Distinct(E + {e}) && forall d :: d in E ==> d.key.sequence < e.key.sequence
    ensures Newest(E + {e}, user, q) == if Visible(e, user, q) then Some(e) else Newest(E, user, q)
  {}

  // ---------- version steps ----------

  lemma FlushNewer(s: Store, f: File)
    requires Inv(s) && s.imm.Some? && f.table == s.imm.value
    ensures forall l: nat, g :: InLevel(s.version, l, g) ==> Newer(f, g)
  {
    hide Layered, Entries, HistoryOk;
    forall l: nat, g | InLevel(s.version, l, g) ensures Newer(f, g) {
      forall e, d | e in f.table && d in g.table ensures e.key.sequence > d.key.sequence {
        EntryOf(s.version, l, g, d);
        assert e in Memory(s);
      }
    }
  }

  lemma FlushLayers(s: Store, t: Store, level: nat, size: nat)
    requires Inv(s) && Next(s, t, Flush(level, size)) && s.imm.value != []
    ensures Layered(t.version) && Entries(t.version) == Entries(s.version) + Elements(s.imm.value)
    ensures forall l: nat, f :: InLevel(t.version, l, f) ==> f.number < t.nextNumber
  {
    hide Layered, Entries, HistoryOk, Above;
    var f := FlushedFile(s.nextNumber, size, s.imm.value);
    FlushNewer(s, f);
    FlushFits(s.version, level, f);
    FittingEditKeepsLayers(s.version, t.version, {}, {(level, f)});
    EditedEntries(s.version, t.version, {}, {(level, f)});
    UntouchedSplit(s.version, {});
    assert FilesOf({(level, f)}) == Elements(s.imm.value);
  }

  lemma FlushKeeps(s: Store, t: Store, level: nat, size: nat)
    requires Inv(s) && Next(s, t, Flush(level, size))
    ensures Inv(t) && Contents(t) == Contents(s)
  {
    hide Layered, Entries, HistoryOk;
    if s.imm.value == [] {
    } else {
      FlushLayers(s, t, level, size);
    }
  }

  ghost function FilesOf(files: set<(nat, File)>): set<Entry>
  {
    set p, e | p in files && e in p.1.table :: e
  }

  ghost function Untouched(v: Version, removed: set<(nat, File)>): set<Entry>
  {
    set l: nat, f, e | l < |v| && f in v[l] && (l, f) !in removed && e in f.table :: e
  }

  lemma EditedEntries(v: Version, w: Version, removed: set<(nat, File)>, added: set<(nat, File)>)
    requires Edited(v, w, removed, added) && forall p :: p in added ==> p.0 < |v|
    ensures Entries(w) == Untouched(v, removed) + FilesOf(added)
  {
    forall e ensures e in Entries(w) <==> e in Untouched(v, removed) + FilesOf(added) {
      if e in Entries(w) {
        var l, f := HomeOf(w, e);
        assert (InLevel(v, l, f) && (l, f) !in removed) || (l, f) in added;
      }
      if e in Untouched(v, removed) {
        var l: nat, f :| l < |v| && f in v[l] && (l, f) !in removed && e in f.table;
        assert InLevel(v, l, f) && InLevel(w, l, f);
        EntryOf(w, l, f, e);
      }
      if e in FilesOf(added) {
        var p :| p in added && e in p.1.table;
        assert (p.0, p.1) == p && InLevel(w, p.0, p.1);
        EntryOf(w, p.0, p.1, e);
      }
    }
  }

  lemma UntouchedSplit(v: Version, removed: set<(nat, File)>)
    requires forall p :: p in removed ==> InLevel(v, p.0, p.1)
    ensures Entries(v) == Untouched(v, removed) + FilesOf(removed)
  {}

  lemma MoveKeeps(s: Store, t: Store, level: nat, f: File)
    requires Inv(s) && Next(s, t, Move(level, f))
    ensures Inv(t) && Contents(t) == Contents(s)
  {
    hide Layered, Entries, HistoryOk, Above, SortedTable;
    assert f in [f] && InLevel(s.version, level, f);
    MoveLayers(s, t, level, f);
  }

  lemma MoveLayers(s: Store, t: Store, level: nat, f: File)
    requires Inv(s) && Next(s, t, Move(level, f))
    ensures Layered(t.version) && Entries(t.version) == Entries(s.version)
  {
    hide Layered, Entries, HistoryOk, Above, SortedTable;
    HistoryDistinct(s);
    var removed, added := {(level, f)}, {(level + 1, f)};
    assert f in [f] && InLevel(s.version, level, f);
    MoveFits(s.version, level, f);
    FittingEditKeepsLayers(s.version, t.version, removed, added);
    EditedEntries(s.version, t.version, removed, added);
    UntouchedSplit(s.version, removed);
    assert FilesOf(removed) == FilesOf(added);
  }

  // ---------- compaction steps ----------

  lemma InputsSplit(s: Store, step: Step)
    requires Inv(s) && step.Compact? && Holds(s.version, step.level, step.in0, step.in1)
    ensures InputEntries(step) <= Entries(s.version)
    ensures Contents(s) == InputEntries(step) + RestEntries(s, step)
    ensures RestEntries(s, step) == Memory(s) + Untouched(s.version, Inputs(step.level, step.in0, step.in1))
  {
    UntouchedIs(s.version, step.level, step.in0, step.in1);
    hide Layered, Entries, FileEntries, Untouched, HistoryOk, SnapshotsOk, SortedTable, Holds;
  }

  /** The entries of the files left alone are all but those of the inputs. */
  lemma UntouchedIs(v: Version, level: nat, in0: seq<File>, in1: seq<File>)
    requires Layered(v) && Holds(v, level, in0, in1)
    ensures var inputs := FileEntries(in0) + FileEntries(in1);
      inputs <= Entries(v) && Untouched(v, Inputs(level, in0, in1)) == Entries(v) - inputs
  {
    var inputs, removed := FileEntries(in0) + FileEntries(in1), Inputs(level, in0, in1);
    forall e | e in inputs ensures e in Entries(v) && e !in Untouched(v, removed) {
      var l, f := InputHome(v, level, in0, in1, e);
      EntryOf(v, l, f, e);
      if e in Untouched(v, removed) {
        var m: nat, g :| m < |v| && g in v[m] && (m, g) !in removed && e in g.table;
        OneHome(v, l, f, m, g, e);
      }
    }
    forall e | e in Entries(v) && e !in inputs ensures e in Untouched(v, removed) {
      var l, f := HomeOf(v, e);
    }
    UntouchedWithin(v, removed);
  }

  lemma CompactionSplits(s: Store, step: Step)
    requires Inv(s) && step.Compact? && ValidInputs(s.version, step.level, step.in0, step.in1)
    ensures Split(s.version, step.level, InputEntries(step), RestEntries(s, step),
            LeftNext(s.version, step.level, step.in1))
  {
    HistoryDistinct(s);
    hide Layered, ValidInputs, Entries, HistoryOk, SnapshotsOk, SortedTable, Split, FileEntries;
    assert Contents(s) - Entries(s.version) <= Memory(s);
    SplitsOff(s.version, step.level, step.in0, step.in1, Contents(s));
  }

  lemma OutputsOk(v: Version, level: nat, in0: seq<File>, in1: seq<File>, input: seq<Entry>, smallest: nat,
                  outputs: seq<File>)
    requires Written(v, level, in0, in1, input, smallest, outputs)
    ensures FilesOk(outputs) && Disjoint(outputs)
    ensures FileEntries(outputs) == Survivors(v, level, FileEntries(in0) + FileEntries(in1), smallest)
    ensures forall o :: o in outputs ==> TakenFrom(o, in0, in1)
  {
    KeptSorted(v, level, input, smallest, |input|);
    KeptElements(v, level, input, smallest, |input|);
    FlatDisjoint(outputs);
    FlatElements(outputs);
    assert input[..|input|] == input;
    hide Obsolete, Kept, Flat, Sealed, SortedTable, FilesOk, Disjoint;
    forall o, e | o in outputs && e in o.table ensures exists f :: (f in in0 || f in in1) && e in f.table {
      assert e in FileEntries(outputs);
      assert e in Elements(input);
    }
  }

  /** A compaction leaves, of each user key, one entry at most that every live snapshot can see. */
  lemma OnePerKeyLeft(s: Store, t: Store, step: Step, e: Entry, d: Entry)
    requires Inv(s) && step.Compact? && Next(s, t, step)
    requires e in FileEntries(step.outputs) && d in FileEntries(step.outputs) && e.key.user == d.key.user
    requires forall i :: 0 <= i < |s.snapshots| ==> e.key.sequence <= s.snapshots[i] && d.key.sequence <= s.snapshots[i]
    ensures e == d
  {
    var smallest := SmallestSnapshot(s);
    InputsFromStore(s, step);
    FlatElements(step.outputs);
    KeptExactly(s.version, step.level, step.input, smallest, e);
    KeptExactly(s.version, step.level, step.input, smallest, d);
    hide Kept, Flat, Sealed, SortedTable, ValidInputs, Layered;
    assert e in Elements(step.input) && d in Elements(step.input);
    OneBelowSmallest(s.version, step.level, step.input, smallest, e, d);
  }

  lemma InputsFromStore(s: Store, step: Step)
    requires Inv(s) && step.Compact? && ValidInputs(s.version, step.level, step.in0, step.in1)
    requires Elements(step.input) == InputEntries(step)
    ensures Distinct(Elements(step.input))
    ensures forall e :: e in step.input ==> e.key.sequence <= s.lastSequence
  {
    HistoryDistinct(s);
    hide Layered, Above, SortedTable, HistoryOk, SnapshotsOk, Memory, Entries, Sublist, HullClosed, BoundaryClosed;
    forall e | e in Elements(step.input) ensures e in Entries(s.version) && e.key.sequence <= s.lastSequence {
      if f :| f in step.in0 && e in f.table { EntryOf(s.version, step.level, f, e); }
      else if f :| f in step.in1 && e in f.table { EntryOf(s.version, step.level + 1, f, e); }
      StoredBelow(s, e);
    }
  }

  lemma StoredBelow(s: Store, e: Entry)
    requires Inv(s) && e in Entries(s.version)
    ensures e.key.sequence <= s.lastSequence
  {
    assert e in Contents(s);
  }

  lemma CompactLayers(s: Store, t: Store, step: Step)
    requires Inv(s) && step.Compact? && CompactStep(s, t, step)
    ensures Layered(t.version)
    ensures Entries(t.version) == Untouched(s.version, Inputs(step.level, step.in0, step.in1)) +
            FileEntries(step.outputs)
  {
    HistoryDistinct(s);
    OutputsOk(s.version, step.level, step.in0, step.in1, step.input, SmallestSnapshot(s), step.outputs);
    hide Layered, Entries, HistoryOk, Above, SortedTable, ValidInputs, Written, Edited, FilesOk, Disjoint, TakenFrom,
         Distinct, Numbered;
    VersionAfter(s.version, t.version, step.level, step.in0, step.in1, step.outputs, s.nextNumber);
  }

  lemma VersionAfter(v: Version, w: Version, level: nat, in0: seq<File>, in1: seq<File>, outputs: seq<File>, first: nat)
    requires Layered(v) && ValidInputs(v, level, in0, in1) && Distinct(Entries(v))
    requires FilesOk(outputs) && Disjoint(outputs) && Numbered(outputs, first)
    requires forall l: nat, g :: InLevel(v, l, g) ==> g.number < first
    requires forall o :: o in outputs ==> TakenFrom(o, in0, in1)
    requires Edited(v, w, Inputs(level, in0, in1), Steps.At(level + 1, outputs))
    ensures Layered(w) && Entries(w) == Untouched(v, Inputs(level, in0, in1)) + FileEntries(outputs)
  {
    var removed, added := Inputs(level, in0, in1), Steps.At(level + 1, outputs);
    InputsInside(v, level, in0, in1);
    CompactionFits(v, level, in0, in1, outputs, first);
    hide Layered, Entries, ValidInputs, Edited, FilesOk, Disjoint, TakenFrom, Distinct, Numbered, Fits, Untouched,
         FilesOf;
    FittingEditKeepsLayers(v, w, removed, added);
    EditedEntries(v, w, removed, added);
    AddedEntries(level + 1, outputs);
  }

  lemma CompactNumbers(s: Store, t: Store, step: Step)
    requires Inv(s) && step.Compact? && CompactStep(s, t, step)
    ensures forall l: nat, f :: InLevel(t.version, l, f) ==> f.number < t.nextNumber
  {}

  lemma CompactContents(s: Store, t: Store, step: Step)
    requires Inv(s) && step.Compact? && CompactStep(s, t, step)
    ensures Entries(t.version) <= Entries(s.version)
    ensures Contents(t) == Survivors(s.version, step.level, InputEntries(step), SmallestSnapshot(s)) +
            RestEntries(s, step)
  {
    OutputsOk(s.version, step.level, step.in0, step.in1, step.input, SmallestSnapshot(s), step.outputs);
    CompactLayers(s, t, step);
    InputsSplit(s, step);
    UntouchedWithin(s.version, Inputs(step.level, step.in0, step.in1));
  }

  lemma UntouchedWithin(v: Version, removed: set<(nat, File)>)
    ensures Untouched(v, removed) <= Entries(v)
  {}

  lemma AddedEntries(level: nat, files: seq<File>)
    ensures FilesOf(Steps.At(level, files)) == FileEntries(files)
  {
    forall e | e in FileEntries(files) ensures e in FilesOf(Steps.At(level, files)) {
      var f :| f in files && e in f.table;
      assert (level, f) in Steps.At(level, files);
    }
  }

  lemma CompactKeeps(s: Store, t: Store, step: Step)
    requires Inv(s) && step.Compact? && CompactStep(s, t, step)
    ensures Inv(t)
  {
    hide Layered, Entries, HistoryOk, Flat, Kept, Sealed, Numbered, Edited, ValidInputs, FileEntries;
    CompactLayers(s, t, step);
    CompactNumbers(s, t, step);
    CompactContents(s, t, step);
  }

  /** One compaction keeps every reading from the smallest live snapshot on, if and only if it is safe. */
  lemma CompactionExact(s: Store, t: Store, step: Step)
    requires Inv(s) && step.Compact? && CompactStep(s, t, step)
    ensures ReadsEqual(Contents(s), Contents(t), SmallestSnapshot(s)) <==> SafeStep(s, step)
  {
    CompactContents(s, t, step);
    CompactionSplits(s, step);
    InputsSplit(s, step);
    DropRuleExact(s.version, step.level, InputEntries(step), RestEntries(s, step),
                  LeftNext(s.version, step.level, step.in1), SmallestSnapshot(s));
  }

  /** A condition on file boundaries alone: a compaction whose inputs at the next level leave no file
      there that continues their last user key is safe. */
  lemma BoundaryClosedIsSafe(s: Store, step: Step)
    requires Inv(s) && step.Compact? && ValidInputs(s.version, step.level, step.in0, step.in1)
    requires BoundaryClosed(step.in1, s.version[step.level + 1])
    ensures SafeStep(s, step)
  {
    var v, level, smallest := s.version, step.level, SmallestSnapshot(s);
    var inputs, rest, next := InputEntries(step), RestEntries(s, step), LeftNext(s.version, step.level, step.in1);
    forall user ensures !Uncovers(v, level, inputs, rest, next, smallest, user) {
      if Uncovers(v, level, inputs, rest, next, smallest, user) {
        CompactionSplits(s, step);
        var e, w := Newest(inputs + rest, user, smallest).value, Newest(next, user, smallest).value;
        HistoryDistinct(s);
        NoLeftoverBelow(v, step, e, w);
      }
    }
  }

  lemma NoLeftoverBelow(v: Version, step: Step, e: Entry, w: Entry)
    requires Layered(v) && Distinct(Entries(v)) && step.Compact? && ValidInputs(v, step.level, step.in0, step.in1)
    requires BoundaryClosed(step.in1, v[step.level + 1])
    requires e in InputEntries(step) && w in LeftNext(v, step.level, step.in1)
    ensures e.key.user != w.key.user || e.key.sequence < w.key.sequence
  {
    var level := step.level;
    assert level + 1 < |v| && Sublist(step.in1, v[level + 1]);
    hide Layered, Entries, BoundaryClosed, Distinct, ValidInputs, Sublist;
    var l, f := InputHome(v, step.level, step.in0, step.in1, e);
    var g :| g in v[level + 1] && g !in step.in1 && w in g.table;
    if l == level {
      NotBelow(v, level, step.in0, step.in1, f, g, e, w);
    } else {
      NotBeside(v, level + 1, step.in1, f, g, e, w);
    }
  }

  lemma NotBelow(v: Version, level: nat, in0: seq<File>, in1: seq<File>, f: File, g: File, e: Entry, w: Entry)
    requires Layered(v) && ValidInputs(v, level, in0, in1)
    requires f in in0 && g in v[level + 1] && g !in in1 && e in f.table && w in g.table
    ensures e.key.user != w.key.user
  {
    assert InLevel(v, level, f) && InLevel(v, level + 1, g);
    FileRange(f, e);
    FileRange(g, w);
    assert !InHull(in0, g);
  }

  lemma NotBeside(v: Version, level: nat, in1: seq<File>, f: File, g: File, e: Entry, w: Entry)
    requires Layered(v) && 0 < level < |v| && BoundaryClosed(in1, v[level]) && Distinct(Entries(v))
             && Sublist(in1, v[level])
    requires f in in1 && g in v[level] && g !in in1 && e in f.table && w in g.table
    ensures e.key.user != w.key.user || e.key.sequence < w.key.sequence
  {
    EntryOf(v, level, f, e);
    EntryOf(v, level, g, w);
    if e == w { OneHome(v, level, f, level, g, e); }
    LevelOk(v, level);
    hide Layered, Entries;
    DisjointPair(v[level], f, g);
    NeighbourOlder(f, g, e, w);
  }

  /** In disjoint files, an entry of the same user key that sorts later is older. */
  lemma NeighbourOlder(f: File, g: File, e: Entry, w: Entry)
    requires FileOk(f) && FileOk(g) && e in f.table && w in g.table && e != w && Distinct({e, w})
    requires f.largest.user < g.smallest.user || Before(g.largest, f.smallest)
    ensures e.key.user != w.key.user || e.key.sequence < w.key.sequence
  {}

  // ---------- runs ----------

  ghost predicate Init(s: Store)
  {
    && s.mem == [] && s.imm.None? && s.history == [] && s.snapshots == []
    && s.lastSequence == s.horizon == 0
    && |s.version| == NUM_LEVELS && forall l :: 0 <= l < NUM_LEVELS ==> s.version[l] == []
  }

  lemma StepKeepsInv(s: Store, t: Store, step: Step)
    requires Inv(s) && Next(s, t, step)
    ensures Inv(t)
  {
    match step
    case Write(e) => WriteKeeps(s, t, e);
    case Flush(level, size) => FlushKeeps(s, t, level, size);
    case Move(level, f) => MoveKeeps(s, t, level, f);
    case Compact(_, _, _, _, _) => CompactKeeps(s, t, step);
    case _ => assert Memory(t) == Memory(s);
  }

  lemma StepKeepsFaithful(s: Store, t: Store, step: Step)
    requires Inv(s) && Faithful(s) && Next(s, t, step) && SafeStep(s, step)
    ensures Faithful(t)
  {
    match step
    case Write(e) => WriteFaithful(s, t, e);
    case Flush(level, size) => FlushKeeps(s, t, level, size);
    case Move(level, f) => MoveKeeps(s, t, level, f);
    case Compact(_, _, _, _, _) =>
      CompactionExact(s, t, step);
      forall user, q: nat | t.horizon <= q ensures Read(Elements(t.history), user, q) == Read(Contents(t), user, q) {
        assert Read(Contents(s), user, q) == Read(Contents(t), user, q);
      }
    case _ => assert Memory(t) == Memory(s);
  }

  ghost predicate Run(states: seq<Store>, steps: seq<Step>)
  {
    && |states| == |steps| + 1 && Init(states[0])
    && forall i :: 0 <= i < |steps| ==> Next(states[i], states[i + 1], steps[i])
  }

  /** Every run keeps the layering and the other invariants, whatever the compactions drop. */
  lemma {:induction false} RunsKeepInv(states: seq<Store>, steps: seq<Step>, n: nat)
    requires Run(states, steps) && n < |states|
    ensures Inv(states[n])
  {
    if n == 0 {
      InitInv(states[0]);
    } else {
      RunsKeepInv(states, steps, n - 1);
      StepKeepsInv(states[n - 1], states[n], steps[n - 1]);
    }
  }

  lemma InitInv(s: Store)
    requires Init(s)
    ensures Inv(s) && Faithful(s)
  {}

  /** After every run whose compactions are all safe, a read at a live snapshot, or at the present, sees the
      newest write of its key up to that point. */
  lemma {:induction false} RunsReadHistory(states: seq<Store>, steps: seq<Step>, n: nat)
    requires Run(states, steps) && n < |states|
    requires forall i :: 0 <= i < n ==> SafeStep(states[i], steps[i])
    ensures Faithful(states[n])
    ensures forall user, q :: q in states[n].snapshots + [states[n].lastSequence] ==>
              Read(Contents(states[n]), user, q) == Read(Elements(states[n].history), user, q)
  {
    hide Inv, Init, Next, SafeStep, Faithful;
    RunsKeepInv(states, steps, n);
    if n == 0 {
      InitInv(states[0]);
    } else {
      RunsKeepInv(states, steps, n - 1);
      RunsReadHistory(states, steps, n - 1);
      StepKeepsFaithful(states[n - 1], states[n], steps[n - 1]);
    }
    FaithfulReads(states[n]);
  }

  lemma FaithfulReads(s: Store)
    requires Inv(s) && Faithful(s)
    ensures forall user, q :: q in s.snapshots + [s.lastSequence] ==>
              Read(Contents(s), user, q) == Read(Elements(s.history), user, q)
  {
    hide Layered, HistoryOk, Entries, Above, Newest;
    forall user, q | q in s.snapshots + [s.lastSequence]
      ensures Read(Contents(s), user, q) == Read(Elements(s.history), user, q)
    {
      assert s.horizon <= q;
    }
  }

  // ---------- reading ----------

  /** What the code finds: memtable, immutable memtable, then the version, each believed if it answers. */
  function Found(mem: seq<Entry>, imm: Option<seq<Entry>>, v: Version, user: UserKey, snapshot: nat): Answer
  {
    var a := TableAnswer(mem, user, snapshot);
    if a != Missing then a
    else
      var b := if imm.Some? then TableAnswer(imm.value, user, snapshot) else Missing;
      if b != Missing then b else Answered(v, 0, user, snapshot)
  }

  function Told(a: Answer): Option<string>
  {
    if a.Found? then Some(a.value) else None
  }

  /** DBImpl::Get.  It reads the newest write in every state that keeps the invariant. */
  method Get(s: Store, user: UserKey, snapshot: nat) returns (r: Option<string>)
    requires |s.version| == NUM_LEVELS
    ensures r == Told(Found(s.mem, s.imm, s.version, user, snapshot))
    ensures Inv(s) ==> r == Read(Contents(s), user, snapshot)
  {
    hide Inv, Contents, Read, TableAnswer, Answered;
    var a := SeekTable(s.mem, user, snapshot);
    if a == Missing && s.imm.Some? {
      a := SeekTable(s.imm.value, user, snapshot);
    }
    if a == Missing {
      a := VersionGet(s.version, user, snapshot);
    }
    r := Told(a);
    if Inv(s) {
      FoundIsRead(s, user, snapshot);
    }
  }

  lemma FoundIsRead(s: Store, user: UserKey, snapshot: nat)
    requires Inv(s)
    ensures Told(Found(s.mem, s.imm, s.version, user, snapshot)) == Read(Contents(s), user, snapshot)
  {
    HistoryDistinct(s);
    hide Layered, HistoryOk, SnapshotsOk, Read, Found, Entries, SortedTable;
    assert Contents(s) == Elements(s.mem) + (OfImm(s.imm) + Entries(s.version));
    LayersFound(s.mem, s.imm, s.version, user, snapshot);
  }

  /** Newer layers over a layered version: what the code finds is the newest visible entry. */
  lemma LayersFound(mem: seq<Entry>, imm: Option<seq<Entry>>, v: Version, user: UserKey, q: nat)
    requires Layered(v) && SortedTable(mem) && (imm.Some? ==> SortedTable(imm.value))
    requires Above(Elements(mem), OfImm(imm) + Entries(v)) && Above(OfImm(imm), Entries(v))
    requires Distinct(Elements(mem) + (OfImm(imm) + Entries(v)))
    ensures Told(Found(mem, imm, v, user, q)) == Read(Elements(mem) + (OfImm(imm) + Entries(v)), user, q)
  {
    hide *;
    var lower := OfImm(imm) + Entries(v);
    PartsDistinct(Elements(mem), OfImm(imm), Entries(v));
    TableAnswerIs(mem, user, q);
    ImmAnswers(imm, user, q);
    LayersDecide(v, user, q);
    LayerDecides(Elements(mem), lower, user, q);
    LayerDecides(OfImm(imm), Entries(v), user, q);
    FirstLayer(mem, imm, v, user, q, Newest(Elements(mem), user, q), Newest(OfImm(imm), user, q),
               Newest(Entries(v), user, q), Newest(lower, user, q));
    ReadIs(Elements(mem) + lower, user, q);
  }

  lemma ReadIs(E: set<Entry>, user: UserKey, q: nat)
    ensures Read(E, user, q) == Reading(Newest(E, user, q))
  {}

  lemma PartsDistinct(A: set<Entry>, B: set<Entry>, C: set<Entry>)
    requires Distinct(A + (B + C))
    ensures Distinct(A) && Distinct(B) && Distinct(C) && Distinct(B + C)
  {}

  ghost function ImmAnswer(imm: Option<seq<Entry>>, user: UserKey, q: nat): Answer
  {
    if imm.Some? then TableAnswer(imm.value, user, q) else Missing
  }

  lemma ImmAnswers(imm: Option<seq<Entry>>, user: UserKey, q: nat)
    requires imm.Some? ==> SortedTable(imm.value)
    requires Distinct(OfImm(imm))
    ensures ImmAnswer(imm, user, q) == AnswerOf(Newest(OfImm(imm), user, q))
  {
    if imm.Some? { TableAnswerIs(imm.value, user, q); }
  }

  lemma FirstLayer(mem: seq<Entry>, imm: Option<seq<Entry>>, v: Version, user: UserKey, q: nat,
                   a: Option<Entry>, b: Option<Entry>, c: Option<Entry>, lower: Option<Entry>)
    requires TableAnswer(mem, user, q) == AnswerOf(a) && ImmAnswer(imm, user, q) == AnswerOf(b)
    requires Answered(v, 0, user, q) == AnswerOf(c) && lower == if b.Some? then b else c
    ensures Told(Found(mem, imm, v, user, q)) == Reading(if a.Some? then a else lower)
  {
    hide TableAnswer, Answered;
  }
}
