/** Table files and versions (db/version_edit.h, db/version_set.h), and what the levels of a
    version promise each other. */
module Files {
  import opened Keys
  import opened Lists

  const NUM_LEVELS := 7

  datatype File = File(number: nat, size: nat, smallest: InternalKey, largest: InternalKey, table: seq<Entry>)

  ghost predicate FileOk(f: File)
  {
    && |f.table| > 0 && SortedTable(f.table)
    && f.smallest == f.table[0].key && f.largest == f.table[|f.table| - 1].key
  }

  lemma FileRange(f: File, e: Entry)
    requires FileOk(f) && e in f.table
    ensures e.key == f.smallest || Before(f.smallest, e.key)
    ensures e.key == f.largest || Before(e.key, f.largest)
    ensures f.smallest.user <= e.key.user <= f.largest.user
  {}

  type Version = seq<seq<File>>

  /** User-key range of a file, endpoints included. */
  predicate HasUser(f: File, user: UserKey)
  {
    f.smallest.user <= user <= f.largest.user
  }

  predicate Meets(f: File, lo: UserKey, hi: UserKey)
  {
    f.smallest.user <= hi && lo <= f.largest.user
  }

  /** Every entry of `f` supersedes every entry of `g` for the same user key. */
  ghost predicate Newer(f: File, g: File)
  {
    forall e, d :: e in f.table && d in g.table && e.key.user == d.key.user ==> e.key.sequence > d.key.sequence
  }

  ghost predicate FilesOk(files: seq<File>)
  {
    forall f :: f in files ==> FileOk(f)
  }

  /** Strictly ascending, non-overlapping files in internal-key order: levels 1 and deeper. */
  ghost predicate Disjoint(files: seq<File>)
  {
    forall i, j :: 0 <= i < j < |files| ==> Before(files[i].largest, files[j].smallest)
  }

  ghost predicate ByNumber(files: seq<File>)
  {
    forall f, g :: f in files && g in files && f.number > g.number ==> Newer(f, g)
  }

  predicate InLevel(v: Version, l: nat, f: File)
  {
    l < |v| && f in v[l]
  }

  /** A file is identified by its number, in the whole version. */
  ghost predicate NumbersIdentify(v: Version)
  {
    forall l, m, f, g :: InLevel(v, l, f) && InLevel(v, m, g) && f.number == g.number ==> l == m && f == g
  }

  /** The layering invariant. */
  ghost predicate Layered(v: Version)
  {
    && |v| == NUM_LEVELS
    && NumbersIdentify(v)
    && (forall l, f :: InLevel(v, l, f) ==> FileOk(f))
    && ByNumber(v[0]) && NoDups(v[0])
    && (forall l :: 1 <= l < |v| ==> Disjoint(v[l]))
    && (forall l, m, f, g :: l < m && InLevel(v, l, f) && InLevel(v, m, g) ==> Newer(f, g))
  }

  lemma DisjointNoDups(files: seq<File>)
    requires FilesOk(files) && Disjoint(files)
    ensures NoDups(files)
  {
    forall i, j | 0 <= i < j < |files| ensures files[i] != files[j] {
      assert files[i] in files;
      FileRange(files[i], files[i].table[0]);
    }
  }

  lemma LevelOk(v: Version, l: nat)
    requires Layered(v) && l < |v|
    ensures FilesOk(v[l]) && NoDups(v[l])
    ensures forall f, g :: f in v[l] && g in v[l] && f.number == g.number ==> f == g
  {
    forall f | f in v[l] ensures FileOk(f) { assert InLevel(v, l, f); }
    forall f, g | f in v[l] && g in v[l] && f.number == g.number ensures f == g {
      assert InLevel(v, l, f) && InLevel(v, l, g);
    }
    if l > 0 { DisjointNoDups(v[l]); }
  }

  ghost function FileEntries(files: seq<File>): set<Entry>
  {
    set f, e | f in files && e in f.table :: e
  }

  ghost function Entries(v: Version): set<Entry>
  {
    set l: nat, f, e | l < |v| && f in v[l] && e in f.table :: e
  }

  lemma EntryOf(v: Version, l: nat, f: File, e: Entry)
    requires InLevel(v, l, f) && e in f.table
    ensures e in Entries(v) && e in FileEntries(v[l])
  {}

  lemma HomeOf(v: Version, e: Entry) returns (l: nat, f: File)
    requires e in Entries(v)
    ensures InLevel(v, l, f) && e in f.table && e in FileEntries(v[l])
  {
    l, f :| l < |v| && f in v[l] && e in f.table;
  }
}
