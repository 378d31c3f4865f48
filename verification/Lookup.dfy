/** Point lookups: the binary search over a level, the seek inside one table, and the
    early-stopping walk through the levels (db/version_set.cc, db/memtable.cc, db/db_impl.cc). */
module Lookup {
  import opened Keys
  import opened Files

  /** The answer of one lookup stage, as SaveValue and MemTable::Get report it. */
  datatype Answer = Missing | Deleted | Found(value: string)

  function AnswerOf(newest: Option<Entry>): Answer
  {
    match newest
    case None => Missing
    case Some(e) => if e.key.kind.Deletion? then Deleted else Found(e.value)
  }

  /** Where the binary search between two bounds ends, in files of any order. */
  function FoundFile(files: seq<File>, key: InternalKey, left: nat, right: nat): (index: nat)
    requires left <= right <= |files|
    ensures left <= index <= right
    decreases right - left
  {
    if left == right then right
    else
      var mid := (left + right) / 2;
      if Before(files[mid].largest, key) then FoundFile(files, key, mid + 1, right)
      else FoundFile(files, key, left, mid)
  }

  /** FindFile: in ascending files, the first one that ends at or after `key`. */
  method FindFile(files: seq<File>, key: InternalKey) returns (index: nat)
    ensures index == FoundFile(files, key, 0, |files|)
    ensures FilesOk(files) && Disjoint(files) ==>
              && (forall i :: 0 <= i < index ==> Before(files[i].largest, key))
              && (forall i :: index <= i < |files| ==> !Before(files[i].largest, key))
  {
    var left, right := 0, |files|;
    while left < right
      invariant 0 <= left <= right <= |files|
      invariant FoundFile(files, key, left, right) == FoundFile(files, key, 0, |files|)
    {
      var mid := (left + right) / 2;
      if Before(files[mid].largest, key) {
        left := mid + 1;
      } else {
        right := mid;
      }
    }
    index := right;
    if FilesOk(files) && Disjoint(files) {
      FoundIsFirst(files, key, 0, |files|);
    }
  }

  lemma {:induction false} FoundIsFirst(files: seq<File>, key: InternalKey, left: nat, right: nat)
    requires FilesOk(files) && Disjoint(files) && left <= right <= |files|
    requires forall i :: 0 <= i < left ==> Before(files[i].largest, key)
    requires forall i :: right <= i < |files| ==> !Before(files[i].largest, key)
    ensures var index := FoundFile(files, key, left, right);
      && (forall i :: 0 <= i < index ==> Before(files[i].largest, key))
      && (forall i :: index <= i < |files| ==> !Before(files[i].largest, key))
    decreases right - left
  {
    if left < right {
      var mid := (left + right) / 2;
      forall i | 0 <= i < |files|
        ensures i < mid && Before(files[mid].largest, key) ==> Before(files[i].largest, key)
        ensures mid < i && !Before(files[mid].largest, key) ==> !Before(files[i].largest, key)
      {
        if i < mid { AscendingEnds(files, i, mid); }
        if mid < i { AscendingEnds(files, mid, i); }
      }
      if Before(files[mid].largest, key) {
        FoundIsFirst(files, key, mid + 1, right);
      } else {
        FoundIsFirst(files, key, left, mid);
      }
    }
  }

  lemma AscendingEnds(files: seq<File>, i: nat, j: nat)
    requires FilesOk(files) && Disjoint(files) && i < j < |files|
    ensures Before(files[i].largest, files[j].largest)
    ensures Before(files[i].smallest, files[j].smallest)
  {
    assert files[i] in files && files[j] in files;
    FileRange(files[i], files[i].table[0]);
    FileRange(files[j], files[j].table[0]);
  }

  /** The index of the first entry at or after a key. */
  function SeekIndex(t: seq<Entry>, target: InternalKey): (i: nat)
    ensures i <= |t| && (forall j :: 0 <= j < i ==> Before(t[j].key, target))
    ensures i < |t| ==> !Before(t[i].key, target)
  {
    if t == [] || !Before(t[0].key, target) then 0 else 1 + SeekIndex(t[1..], target)
  }

  /** What one table answers, as SaveValue reports it. */
  function TableAnswer(t: seq<Entry>, user: UserKey, snapshot: nat): Answer
  {
    var i := SeekIndex(t, LookupKey(user, snapshot));
    if i == |t| || t[i].key.user != user then Missing
    else if t[i].key.kind.Deletion? then Deleted
    else Found(t[i].value)
  }

  lemma TableAnswerIs(t: seq<Entry>, user: UserKey, snapshot: nat)
    requires SortedTable(t) && Distinct(Elements(t))
    ensures TableAnswer(t, user, snapshot) == AnswerOf(Newest(Elements(t), user, snapshot))
  {
    SeekFindsNewest(t, user, snapshot, SeekIndex(t, LookupKey(user, snapshot)));
  }

  /** The first entry at or after the lookup key decides the lookup in one sorted table. */
  method SeekTable(t: seq<Entry>, user: UserKey, snapshot: nat) returns (a: Answer)
    ensures a == TableAnswer(t, user, snapshot)
    ensures SortedTable(t) && Distinct(Elements(t)) ==> a == AnswerOf(Newest(Elements(t), user, snapshot))
  {
    var target := LookupKey(user, snapshot);
    var i := 0;
    assert t[0..] == t;
    while i < |t| && Before(t[i].key, target)
      invariant 0 <= i <= |t| && SeekIndex(t, target) == i + SeekIndex(t[i..], target)
    {
      assert t[i..][1..] == t[i + 1..];
      i := i + 1;
    }
    if i == |t| || t[i].key.user != user {
      a := Missing;
    } else if t[i].key.kind.Deletion? {
      a := Deleted;
    } else {
      a := Found(t[i].value);
    }
    if SortedTable(t) && Distinct(Elements(t)) {
      TableAnswerIs(t, user, snapshot);
    }
  }

  /** A seek to the lookup key lands on the newest visible entry, or off the user key when there is none. */
  lemma SeekFindsNewest(t: seq<Entry>, user: UserKey, snapshot: nat, i: nat)
    requires SortedTable(t) && Distinct(Elements(t))
    requires i <= |t|
    requires forall j :: 0 <= j < i ==> Before(t[j].key, LookupKey(user, snapshot))
    requires i < |t| ==> !Before(t[i].key, LookupKey(user, snapshot))
    ensures Newest(Elements(t), user, snapshot) ==
            if i < |t| && t[i].key.user == user then Some(t[i]) else None
  {
    var E := Elements(t);
    var r := Newest(E, user, snapshot);
    forall e | e in E && Visible(e, user, snapshot)
      ensures i < |t| && t[i].key.user == user && e.key.sequence <= t[i].key.sequence
    {
      var j :| 0 <= j < |t| && t[j] == e;
      assert i <= j;
      assert i == j || Before(t[i].key, t[j].key);
    }
    if i < |t| && t[i].key.user == user {
      assert t[i] in E && Visible(t[i], user, snapshot);
      NewestIs(E, user, snapshot, t[i]);
    }
  }

  // ---------- one level ----------

  /** A file joins a list ordered by descending number. */
  function AddByNumber(tmp: seq<File>, f: File): (r: seq<File>)
    ensures forall g :: g in r <==> g in tmp || g == f
  {
    if tmp == [] || tmp[0].number < f.number then [f] + tmp
    else
      assert tmp == [tmp[0]] + tmp[1..];
      [tmp[0]] + AddByNumber(tmp[1..], f)
  }

  function NewestFirst(files: seq<File>, user: UserKey): (r: seq<File>)
    ensures forall f :: f in r <==> f in files && HasUser(f, user)
  {
    if files == [] then []
    else
      var rest, last := NewestFirst(files[..|files| - 1], user), files[|files| - 1];
      assert files == files[..|files| - 1] + [last];
      if HasUser(last, user) then AddByNumber(rest, last) else rest
  }

  ghost predicate Descending(tmp: seq<File>)
  {
    forall i, j :: 0 <= i < j < |tmp| ==> tmp[i].number >= tmp[j].number
  }

  lemma {:induction false} AddDescends(tmp: seq<File>, f: File)
    requires Descending(tmp)
    ensures Descending(AddByNumber(tmp, f))
  {
    if tmp != [] && tmp[0].number >= f.number {
      AddDescends(tmp[1..], f);
      var rest := AddByNumber(tmp[1..], f);
      forall j | 0 <= j < |rest| ensures tmp[0].number >= rest[j].number {
        assert rest[j] in rest;
      }
    }
  }

  /** Where the insertion loop stops is where the file belongs. */
  lemma {:induction false} InsertedAt(tmp: seq<File>, f: File, j: nat)
    requires j <= |tmp| && (forall a :: 0 <= a < j ==> tmp[a].number >= f.number)
    requires j < |tmp| ==> tmp[j].number < f.number
    ensures AddByNumber(tmp, f) == tmp[..j] + [f] + tmp[j..]
  {
    if j > 0 {
      InsertedAt(tmp[1..], f, j - 1);
      assert tmp[1..][..j - 1] == tmp[1..j] && tmp[1..][j - 1..] == tmp[j..] && tmp[..j] == [tmp[0]] + tmp[1..j];
    }
  }

  /** Level-0 files that may hold the user key, newest file first. */
  method OverlappingNewestFirst(files: seq<File>, user: UserKey) returns (tmp: seq<File>)
    ensures tmp == NewestFirst(files, user) && Descending(tmp)
    ensures forall f :: f in tmp <==> f in files && HasUser(f, user)
  {
    tmp := [];
    for i := 0 to |files|
      invariant tmp == NewestFirst(files[..i], user) && Descending(tmp)
    {
      var f := files[i];
      assert files[..i + 1][..i] == files[..i];
      if HasUser(f, user) {
        var j := 0;
        while j < |tmp| && tmp[j].number >= f.number
          invariant 0 <= j <= |tmp|
          invariant forall a :: 0 <= a < j ==> tmp[a].number >= f.number
        {
          j := j + 1;
        }
        InsertedAt(tmp, f, j);
        AddDescends(tmp, f);
        tmp := tmp[..j] + [f] + tmp[j..];
      }
    }
    assert files[..|files|] == files;
  }

  lemma FirstAnswer(files: seq<File>, tmp: seq<File>, i: nat, user: UserKey, snapshot: nat)
    requires FilesOk(files) && ByNumber(files) && Distinct(FileEntries(files))
    requires OnePerNumber(files) && Descending(tmp)
    requires forall f :: f in tmp <==> f in files && HasUser(f, user)
    requires i < |tmp| && forall j, e :: 0 <= j < i && e in tmp[j].table ==> !Visible(e, user, snapshot)
    requires Newest(Elements(tmp[i].table), user, snapshot).Some?
    ensures Newest(FileEntries(files), user, snapshot) == Newest(Elements(tmp[i].table), user, snapshot)
  {
    hide Newest, FileOk, Distinct, FileEntries;
    var f := tmp[i];
    var m := Newest(Elements(f.table), user, snapshot).value;
    forall g, d | g in files && d in g.table && Visible(d, user, snapshot)
      ensures d.key.sequence <= m.key.sequence
    {
      FileRange(g, d);
      var j :| 0 <= j < |tmp| && tmp[j] == g;
      assert j < i || g == f || Newer(f, g);
    }
    NewestInFile(files, f, user, snapshot);
  }

  lemma NoneIn(f: File, user: UserKey, snapshot: nat)
    requires Newest(Elements(f.table), user, snapshot).None?
    ensures forall e :: e in f.table ==> !Visible(e, user, snapshot)
  {}

  lemma NoneAnywhere(files: seq<File>, tmp: seq<File>, user: UserKey, snapshot: nat)
    requires FilesOk(files) && forall f :: f in files && HasUser(f, user) ==> f in tmp
    requires forall j, e :: 0 <= j < |tmp| && e in tmp[j].table ==> !Visible(e, user, snapshot)
    ensures Newest(FileEntries(files), user, snapshot).None?
  {}

  function FirstToAnswer(tmp: seq<File>, user: UserKey, snapshot: nat): Answer
  {
    if tmp == [] then Missing
    else
      var a := TableAnswer(tmp[0].table, user, snapshot);
      if a != Missing then a else FirstToAnswer(tmp[1..], user, snapshot)
  }

  /** Overlapping files, searched newest file first; the first file that answers is believed. */
  method SearchLevel0(files: seq<File>, user: UserKey, snapshot: nat) returns (a: Answer)
    ensures a == FirstToAnswer(NewestFirst(files, user), user, snapshot)
    ensures FilesOk(files) && ByNumber(files) && Distinct(FileEntries(files)) && OnePerNumber(files) ==>
              a == AnswerOf(Newest(FileEntries(files), user, snapshot))
  {
    var tmp := OverlappingNewestFirst(files, user);
    hide *;
    var i := 0;
    a := Missing;
    StartOf(tmp);
    while i < |tmp| && a == Missing
      invariant 0 <= i <= |tmp|
      invariant FirstToAnswer(tmp, user, snapshot) ==
                  if a != Missing then a else FirstToAnswer(tmp[i..], user, snapshot)
    {
      AnswerStep(tmp, user, snapshot, i);
      a := SeekTable(tmp[i].table, user, snapshot);
      i := i + 1;
    }
    EndOf(tmp, user, snapshot);
    if FilesOk(files) && ByNumber(files) && Distinct(FileEntries(files)) && OnePerNumber(files) {
      Level0Decides(files, tmp, user, snapshot);
    }
  }

  lemma StartOf(tmp: seq<File>)
    ensures tmp[0..] == tmp
  {}

  lemma EndOf(tmp: seq<File>, user: UserKey, snapshot: nat)
    ensures FirstToAnswer(tmp[|tmp|..], user, snapshot) == Missing
  {}

  lemma AnswerStep(tmp: seq<File>, user: UserKey, snapshot: nat, i: nat)
    requires i < |tmp|
    ensures FirstToAnswer(tmp[i..], user, snapshot) ==
              var a := TableAnswer(tmp[i].table, user, snapshot);
              if a != Missing then a else FirstToAnswer(tmp[i + 1..], user, snapshot)
  {
    assert tmp[i..][1..] == tmp[i + 1..];
  }

  ghost predicate OnePerNumber(files: seq<File>)
  {
    forall f, g :: f in files && g in files && f.number == g.number ==> f == g
  }

  lemma Level0Decides(files: seq<File>, tmp: seq<File>, user: UserKey, snapshot: nat)
    requires FilesOk(files) && ByNumber(files) && Distinct(FileEntries(files)) && OnePerNumber(files)
    requires Descending(tmp) && forall f :: f in tmp <==> f in files && HasUser(f, user)
    ensures FirstToAnswer(tmp, user, snapshot) == AnswerOf(Newest(FileEntries(files), user, snapshot))
  {
    assert tmp[0..] == tmp;
    DecidesFrom(files, tmp, user, snapshot, 0);
  }

  lemma {:induction false} DecidesFrom(files: seq<File>, tmp: seq<File>, user: UserKey, snapshot: nat, i: nat)
    requires FilesOk(files) && ByNumber(files) && Distinct(FileEntries(files)) && OnePerNumber(files)
    requires Descending(tmp) && (forall f :: f in tmp <==> f in files && HasUser(f, user)) && i <= |tmp|
    requires forall j, e :: 0 <= j < i && e in tmp[j].table ==> !Visible(e, user, snapshot)
    ensures FirstToAnswer(tmp[i..], user, snapshot) == AnswerOf(Newest(FileEntries(files), user, snapshot))
    decreases |tmp| - i
  {
    hide Newest, ByNumber, Distinct, FileEntries, Visible, FirstToAnswer, TableAnswer, HasUser;
    if i == |tmp| {
      EndOf(tmp, user, snapshot);
      NoneAnywhere(files, tmp, user, snapshot);
    } else {
      var f := tmp[i];
      assert f in tmp;
      SubsetDistinct(files, f);
      TableAnswerIs(f.table, user, snapshot);
      AnswerStep(tmp, user, snapshot, i);
      if Newest(Elements(f.table), user, snapshot).Some? {
        FirstAnswer(files, tmp, i, user, snapshot);
      } else {
        NoneIn(f, user, snapshot);
        DecidesFrom(files, tmp, user, snapshot, i + 1);
      }
    }
  }

  /** What a level below 0 answers: only the file found by binary search is asked. */
  function LevelAnswer(files: seq<File>, user: UserKey, snapshot: nat): Answer
  {
    var index := FoundFile(files, LookupKey(user, snapshot), 0, |files|);
    if index < |files| && user >= files[index].smallest.user then TableAnswer(files[index].table, user, snapshot)
    else Missing
  }

  /** In disjoint files only the file found by binary search can hold the newest visible entry. */
  method SearchLevel(files: seq<File>, user: UserKey, snapshot: nat) returns (a: Answer)
    ensures a == LevelAnswer(files, user, snapshot)
    ensures FilesOk(files) && Disjoint(files) && Distinct(FileEntries(files)) ==>
              a == AnswerOf(Newest(FileEntries(files), user, snapshot))
  {
    var index := FindFile(files, LookupKey(user, snapshot));
    a := Missing;
    if index < |files| && user >= files[index].smallest.user {
      a := SeekTable(files[index].table, user, snapshot);
    }
    if FilesOk(files) && Disjoint(files) && Distinct(FileEntries(files)) {
      LevelDecides(files, user, snapshot);
    }
  }

  lemma LevelDecides(files: seq<File>, user: UserKey, snapshot: nat)
    requires FilesOk(files) && Disjoint(files) && Distinct(FileEntries(files))
    ensures LevelAnswer(files, user, snapshot) == AnswerOf(Newest(FileEntries(files), user, snapshot))
  {
    hide Newest, TableAnswer, FoundFile, Distinct, FileEntries;
    var index := FoundFile(files, LookupKey(user, snapshot), 0, |files|);
    FoundIsFirst(files, LookupKey(user, snapshot), 0, |files|);
    OneFileDecides(files, user, snapshot, index);
    if index < |files| {
      assert files[index] in files;
      SubsetDistinct(files, files[index]);
      TableAnswerIs(files[index].table, user, snapshot);
    }
  }

  lemma SubsetDistinct(files: seq<File>, f: File)
    requires Distinct(FileEntries(files)) && f in files
    ensures Distinct(Elements(f.table))
  {}

  lemma NewestInFile(files: seq<File>, f: File, user: UserKey, snapshot: nat)
    requires f in files && Distinct(FileEntries(files))
    requires Newest(Elements(f.table), user, snapshot).Some?
    requires forall g, d :: g in files && d in g.table && Visible(d, user, snapshot) ==>
               d.key.sequence <= Newest(Elements(f.table), user, snapshot).value.key.sequence
    ensures Newest(FileEntries(files), user, snapshot) == Newest(Elements(f.table), user, snapshot)
  {}

  /** Any visible entry of the level is matched by one at least as new in the file found. */
  lemma FoundFileCovers(files: seq<File>, user: UserKey, snapshot: nat, index: nat, j: nat, d: Entry) returns (e: Entry)
    requires FilesOk(files) && Disjoint(files)
    requires index <= |files| && j < |files|
    requires forall i :: 0 <= i < index ==> Before(files[i].largest, LookupKey(user, snapshot))
    requires index < |files| ==> !Before(files[index].largest, LookupKey(user, snapshot))
    requires d in files[j].table && Visible(d, user, snapshot)
    ensures index <= j && files[index].smallest.user <= user
    ensures e in files[index].table && Visible(e, user, snapshot) && d.key.sequence <= e.key.sequence
  {
    assert files[j] in files;
    FileRange(files[j], d);
    assert index <= j;
    e := d;
    if index < j {
      var f := files[index];
      assert f in files;
      e := f.table[|f.table| - 1];
      FileRange(f, e);
      assert Before(f.largest, files[j].smallest);
    }
  }

  lemma OneFileDecides(files: seq<File>, user: UserKey, snapshot: nat, index: nat)
    requires FilesOk(files) && Disjoint(files) && Distinct(FileEntries(files))
    requires index <= |files|
    requires forall i :: 0 <= i < index ==> Before(files[i].largest, LookupKey(user, snapshot))
    requires index < |files| ==> !Before(files[index].largest, LookupKey(user, snapshot))
    ensures Newest(FileEntries(files), user, snapshot) ==
            if index < |files| && user >= files[index].smallest.user
            then Newest(Elements(files[index].table), user, snapshot)
            else None
  {
    var r := Newest(FileEntries(files), user, snapshot);
    if r.Some? {
      var g :| g in files && r.value in g.table;
      var j :| 0 <= j < |files| && files[j] == g;
      var e := FoundFileCovers(files, user, snapshot, index, j, r.value);
      assert files[index] in files && e in FileEntries(files);
      assert e == r.value;
      SubsetDistinct(files, files[index]);
      assert forall x :: x in Elements(files[index].table) ==> x in FileEntries(files);
      NewestIs(Elements(files[index].table), user, snapshot, e);
    } else if index < |files| {
      assert files[index] in files;
      assert forall x :: x in Elements(files[index].table) ==> x in FileEntries(files);
    }
  }

  // ---------- all levels ----------

  function AnswerAt(v: Version, level: nat, user: UserKey, snapshot: nat): Answer
    requires level < |v|
  {
    if level == 0 then FirstToAnswer(NewestFirst(v[0], user), user, snapshot)
    else LevelAnswer(v[level], user, snapshot)
  }

  /** What the code answers for a version, also for one whose levels overlap. */
  function Answered(v: Version, level: nat, user: UserKey, snapshot: nat): Answer
    requires level <= |v|
    decreases |v| - level
  {
    if level == |v| then Missing
    else
      var a := AnswerAt(v, level, user, snapshot);
      if a != Missing then a else Answered(v, level + 1, user, snapshot)
  }

  /** Version::Get: the first level that answers is believed. */
  method VersionGet(v: Version, user: UserKey, snapshot: nat) returns (a: Answer)
    requires |v| == NUM_LEVELS
    ensures a == Answered(v, 0, user, snapshot)
    ensures Layered(v) && Distinct(Entries(v)) ==> a == AnswerOf(Newest(Entries(v), user, snapshot))
  {
    hide FirstToAnswer, NewestFirst, LevelAnswer, Layered, Distinct, Entries, Newest;
    a := Missing;
    var level := 0;
    while level < NUM_LEVELS && a == Missing
      invariant 0 <= level <= NUM_LEVELS
      invariant Answered(v, 0, user, snapshot) == if a != Missing then a else Answered(v, level, user, snapshot)
    {
      if level == 0 {
        a := SearchLevel0(v[level], user, snapshot);
      } else {
        a := SearchLevel(v[level], user, snapshot);
      }
      level := level + 1;
    }
    if Layered(v) && Distinct(Entries(v)) {
      LayersDecide(v, user, snapshot);
    }
  }

  /** In a layered version the code's answer is the newest visible entry. */
  lemma LayersDecide(v: Version, user: UserKey, snapshot: nat)
    requires Layered(v) && Distinct(Entries(v))
    ensures Answered(v, 0, user, snapshot) == AnswerOf(Newest(Entries(v), user, snapshot))
  {
    LevelsDecide(v, 0, user, snapshot);
  }

  lemma {:induction false} LevelsDecide(v: Version, level: nat, user: UserKey, snapshot: nat)
    requires Layered(v) && Distinct(Entries(v)) && level <= |v|
    requires forall l :: 0 <= l < level ==> Newest(FileEntries(v[l]), user, snapshot).None?
    ensures Answered(v, level, user, snapshot) == AnswerOf(Newest(Entries(v), user, snapshot))
    decreases |v| - level
  {
    hide Layered, Distinct, Entries, Newest, AnswerAt, FileEntries;
    if level == |v| {
      NothingInAnyLevel(v, user, snapshot);
    } else {
      LevelDistinct(v, level);
      OneLevel(v, level, user, snapshot);
      if Newest(FileEntries(v[level]), user, snapshot).Some? {
        NewestInLevel(v, level, user, snapshot);
      } else {
        LevelsDecide(v, level + 1, user, snapshot);
      }
    }
  }

  lemma OneLevel(v: Version, level: nat, user: UserKey, snapshot: nat)
    requires Layered(v) && level < |v| && Distinct(FileEntries(v[level]))
    ensures AnswerAt(v, level, user, snapshot) == AnswerOf(Newest(FileEntries(v[level]), user, snapshot))
  {
    LevelOk(v, level);
    LevelShape(v, level);
    hide Layered, Newest, FirstToAnswer, LevelAnswer, FilesOk, Disjoint, Distinct;
    if level == 0 {
      NewestSorted(v[0], user);
      Level0Decides(v[0], NewestFirst(v[0], user), user, snapshot);
    } else {
      LevelDecides(v[level], user, snapshot);
    }
  }

  lemma {:induction false} NewestSorted(files: seq<File>, user: UserKey)
    ensures Descending(NewestFirst(files, user))
  {
    if files != [] {
      NewestSorted(files[..|files| - 1], user);
      AddDescends(NewestFirst(files[..|files| - 1], user), files[|files| - 1]);
    }
  }

  lemma LevelShape(v: Version, level: nat)
    requires Layered(v) && level < |v|
    ensures if level == 0 then ByNumber(v[0]) else Disjoint(v[level])
  {}

  lemma NothingInAnyLevel(v: Version, user: UserKey, snapshot: nat)
    requires forall l :: 0 <= l < |v| ==> Newest(FileEntries(v[l]), user, snapshot).None?
    ensures Newest(Entries(v), user, snapshot).None?
  {}

  lemma LevelDistinct(v: Version, level: nat)
    requires level < |v| && Distinct(Entries(v))
    ensures Distinct(FileEntries(v[level]))
  {}

  lemma NewestInLevel(v: Version, level: nat, user: UserKey, snapshot: nat)
    requires Layered(v) && Distinct(Entries(v)) && level < |v|
    requires forall l :: 0 <= l < level ==> Newest(FileEntries(v[l]), user, snapshot).None?
    requires Newest(FileEntries(v[level]), user, snapshot).Some?
    ensures Newest(Entries(v), user, snapshot) == Newest(FileEntries(v[level]), user, snapshot)
  {
    var m := Newest(FileEntries(v[level]), user, snapshot).value;
    var f :| f in v[level] && m in f.table;
    forall d | d in Entries(v) && Visible(d, user, snapshot)
      ensures d.key.sequence <= m.key.sequence
    {
      var l, g := HomeOf(v, d);
      if l != level {
        assert l > level && InLevel(v, level, f) && Newer(f, g);
      }
    }
    EntryOf(v, level, f, m);
    NewestIs(Entries(v), user, snapshot, m);
  }
}
