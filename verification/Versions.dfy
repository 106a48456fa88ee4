/** Tables, levels and the level-by-level search of one version (Version::Get). */
module Versions {
  import opened InternalKeys

  // A table is its entries in internal-key order; its bounds are its first and last key.
  datatype Table = Table(number: nat, size: nat, entries: seq<Entry>)
  {
    ghost predicate Ok() { |entries| > 0 && Sorted(entries) }
  }

  ghost const SOME_ENTRY := Entry(InternalKey(0.0, 0, Put), "")

  type File = f: Table | f.Ok() ghost witness Table(0, 0, [SOME_ENTRY])

  function Smallest(f: File): InternalKey { f.entries[0].ikey }
  function Largest(f: File): InternalKey { f.entries[|f.entries| - 1].ikey }
  function Lo(f: File): UserKey { Smallest(f).user }
  function Hi(f: File): UserKey { Largest(f).user }

  // The files of a version as vectors (what the code walks) and as sets (what it means).
  type Version = v: seq<seq<File>> | |v| == NUM_LEVELS witness [[], [], [], [], [], [], []]
  type Tree = t: seq<set<File>> | |t| == NUM_LEVELS witness [{}, {}, {}, {}, {}, {}, {}]

  ghost function TreeOf(v: Version): Tree {
    seq(NUM_LEVELS, l requires 0 <= l < NUM_LEVELS => Elems(v[l]))
  }

  lemma EntryWithinBounds(f: File, e: Entry)
    requires e in f.entries
    ensures NotAfter(Smallest(f), e.ikey) && NotAfter(e.ikey, Largest(f))
    ensures Lo(f) <= e.Key() <= Hi(f)
  {
    var i :| 0 <= i < |f.entries| && f.entries[i] == e;
    assert i == 0 || Before(f.entries[0].ikey, f.entries[i].ikey);
    assert i == |f.entries| - 1 || Before(f.entries[i].ikey, f.entries[|f.entries| - 1].ikey);
  }

  // ---- Relations between files

  ghost predicate Newer(f: File, g: File) {
    forall e, x :: e in f.entries && x in g.entries && e.Key() == x.Key() ==> e.Seq() > x.Seq()
  }

  ghost predicate FileBefore(f: File, g: File) {
    Before(Largest(f), Smallest(g))
  }

  predicate Meets(f: File, lo: UserKey, hi: UserKey) {
    Lo(f) <= hi && lo <= Hi(f)
  }

  lemma ApartFilesAreNewer(f: File, g: File)
    requires !Meets(f, Lo(g), Hi(g))
    ensures Newer(f, g) && Newer(g, f)
  {
    forall e, x | e in f.entries && x in g.entries ensures e.Key() != x.Key() {
      EntryWithinBounds(f, e);
      EntryWithinBounds(g, x);
    }
  }

  // ---- The invariant of a version

  ghost predicate LevelZeroInv(s: set<File>) {
    && (forall f, g :: f in s && g in s && f.number == g.number ==> f == g)
    && (forall f, g :: f in s && g in s && f.number > g.number ==> Newer(f, g))
  }

  ghost predicate Disjoint(s: set<File>) {
    forall f, g :: f in s && g in s && f != g ==> FileBefore(f, g) || FileBefore(g, f)
  }

  ghost predicate Recency(t: Tree) {
    forall l, m, f, g :: 0 <= l < m < NUM_LEVELS && f in t[l] && g in t[m] ==> Newer(f, g)
  }

  ghost predicate TreeInv(t: Tree) {
    && LevelZeroInv(t[0])
    && (forall l :: 1 <= l < NUM_LEVELS ==> Disjoint(t[l]))
    && Recency(t)
  }

  ghost function FilesEntries(s: set<File>): (r: set<Entry>) {
    set f, e | f in s && e in f.entries :: e
  }

  ghost function TreeEntries(t: Tree): (r: set<Entry>) {
    set l, f, e | 0 <= l < NUM_LEVELS && f in t[l] && e in f.entries :: e
  }

  // The vectors of levels >= 1 are kept in key order.
  ghost predicate InOrder(files: seq<File>) {
    forall i, j :: 0 <= i < j < |files| ==> FileBefore(files[i], files[j])
  }

  ghost predicate VersionInv(v: Version) {
    && TreeInv(TreeOf(v)) && NoneTwice(v[0])
    && forall l :: 1 <= l < NUM_LEVELS ==> InOrder(v[l])
  }

  ghost predicate NoneTwice(files: seq<File>) {
    forall i, j :: 0 <= i < j < |files| ==> files[i] != files[j]
  }

  // ---- Searching

  // A file seeks to the first entry not before the key.
  function SeekIndex(s: seq<Entry>, k: InternalKey): (r: nat)
    ensures r <= |s|
    ensures forall i :: 0 <= i < r ==> Before(s[i].ikey, k)
    ensures r < |s| ==> !Before(s[r].ikey, k)
  {
    if s == [] || !Before(s[0].ikey, k) then 0 else 1 + SeekIndex(s[1..], k)
  }

  // TableCache::Get with the SaveValue callback: the sought entry if it has the user key.
  function TableGet(f: File, key: UserKey, snapshot: SeqNo): (r: Option<Entry>)
    ensures r.Some? ==> IsNewest(Elems(f.entries), key, snapshot, r.value)
    ensures r.None? ==> forall x :: !Candidate(Elems(f.entries), key, snapshot, x)
  {
    var i := SeekIndex(f.entries, SeekKey(key, snapshot));
    if i < |f.entries| && f.entries[i].Key() == key then
      SeekKeySeparates(f.entries[i].ikey, key, snapshot);
      Some(f.entries[i])
    else
      None
  }

  // Binary search for the first file whose largest key is not before the key.
  method FindFile(files: seq<File>, key: InternalKey) returns (right: nat)
    requires InOrder(files)
    ensures right <= |files|
    ensures forall i :: 0 <= i < right ==> Before(Largest(files[i]), key)
    ensures forall i :: right <= i < |files| ==> !Before(Largest(files[i]), key)
  {
    var left := 0;
    right := |files|;
    while left < right
      invariant left <= right <= |files|
      invariant forall i :: 0 <= i < left ==> Before(Largest(files[i]), key)
      invariant forall i :: right <= i < |files| ==> !Before(Largest(files[i]), key)
    {
      var mid := (left + right) / 2;
      forall i | 0 <= i < mid ensures Before(Largest(files[i]), Largest(files[mid])) {
        LargestIncreases(files, i, mid);
      }
      forall i | mid < i < |files| ensures Before(Largest(files[mid]), Largest(files[i])) {
        LargestIncreases(files, mid, i);
      }
      if Before(Largest(files[mid]), key) {
        left := mid + 1;
      } else {
        right := mid;
      }
    }
  }

  lemma LargestIncreases(files: seq<File>, i: nat, j: nat)
    requires InOrder(files) && i < j < |files|
    ensures Before(Largest(files[i]), Largest(files[j]))
  {
    assert FileBefore(files[i], files[j]);
    EntryWithinBounds(files[j], files[j].entries[0]);
  }

  // ---- One level >= 1: at most one file can hold the answer

  lemma SearchOneFile(files: seq<File>, index: nat, key: UserKey, snapshot: SeqNo)
    requires InOrder(files) && index <= |files|
    requires forall i :: 0 <= i < index ==> Before(Largest(files[i]), SeekKey(key, snapshot))
    requires index < |files| ==> !Before(Largest(files[index]), SeekKey(key, snapshot))
    ensures index == |files| || key < Lo(files[index]) ==>
              forall x :: !Candidate(FilesEntries(Elems(files)), key, snapshot, x)
    ensures index < |files| && key >= Lo(files[index]) ==>
              var r := TableGet(files[index], key, snapshot);
              (r.Some? ==> IsNewest(FilesEntries(Elems(files)), key, snapshot, r.value))
              && (r.None? ==> forall x :: !Candidate(FilesEntries(Elems(files)), key, snapshot, x))
  {
    forall x | Candidate(FilesEntries(Elems(files)), key, snapshot, x)
      ensures index < |files| && key >= Lo(files[index])
      ensures var r := TableGet(files[index], key, snapshot); r.Some? && x.Seq() <= r.value.Seq()
    {
      var j :| 0 <= j < |files| && x in files[j].entries;
      EntryWithinBounds(files[j], x);
      assert !Before(x.ikey, SeekKey(key, snapshot));
      assert j >= index;
      CandidateLiesAtIndex(files, index, j, x, key, snapshot);
    }
  }

  lemma CandidateLiesAtIndex(files: seq<File>, index: nat, j: nat, x: Entry, key: UserKey, snapshot: SeqNo)
    requires InOrder(files) && index <= j < |files| && x in files[j].entries
    requires x.Key() == key && x.Seq() <= snapshot
    requires !Before(Largest(files[index]), SeekKey(key, snapshot))
    ensures key >= Lo(files[index])
    ensures var r := TableGet(files[index], key, snapshot); r.Some? && x.Seq() <= r.value.Seq()
  {
    var f := files[index];
    var r := TableGet(f, key, snapshot);
    EntryWithinBounds(f, f.entries[0]);
    if j == index {
      EntryWithinBounds(f, x);
      assert Candidate(Elems(f.entries), key, snapshot, x);
    } else {
      assert FileBefore(f, files[j]);
      EntryWithinBounds(files[j], x);
      var last := f.entries[|f.entries| - 1];
      assert Candidate(Elems(f.entries), key, snapshot, last);
    }
    if r.Some? && j != index {
      EntryWithinBounds(f, r.value);
    }
  }

  // ---- Level 0: newest file first

  function InsertByNumber(f: File, s: seq<File>): seq<File> {
    if s == [] || f.number > s[0].number then [f] + s else [s[0]] + InsertByNumber(f, s[1..])
  }

  function NewestFirst(s: seq<File>): seq<File> {
    if s == [] then [] else InsertByNumber(s[0], NewestFirst(s[1..]))
  }

  ghost predicate ByNumberDown(s: seq<File>) {
    forall i, j :: 0 <= i < j < |s| ==> s[i].number >= s[j].number
  }

  lemma {:induction false} InsertByNumberSorts(f: File, s: seq<File>)
    requires ByNumberDown(s)
    ensures ByNumberDown(InsertByNumber(f, s))
    ensures forall g :: g in InsertByNumber(f, s) <==> g == f || g in s
  {
    if s != [] && f.number <= s[0].number {
      InsertByNumberSorts(f, s[1..]);
      var tail := InsertByNumber(f, s[1..]);
      forall g | g in tail ensures g.number <= s[0].number {
        assert g == f || g in s[1..];
      }
      assert s == [s[0]] + s[1..];
    }
  }

  lemma {:induction false} InsertKeepsApart(f: File, s: seq<File>)
    requires NoneTwice(s) && f !in s
    ensures NoneTwice(InsertByNumber(f, s))
    ensures forall g :: g in InsertByNumber(f, s) <==> g == f || g in s
  {
    if s != [] {
      assert s[0] !in s[1..];
      InsertKeepsApart(f, s[1..]);
      assert s == [s[0]] + s[1..];
    }
  }

  lemma {:induction false} NewestFirstSorts(s: seq<File>)
    ensures ByNumberDown(NewestFirst(s))
    ensures forall g :: g in NewestFirst(s) <==> g in s
    ensures NoneTwice(s) ==> NoneTwice(NewestFirst(s))
  {
    if s != [] {
      NewestFirstSorts(s[1..]);
      if NoneTwice(s) {
        InsertKeepsApart(s[0], NewestFirst(s[1..]));
      }
      InsertByNumberSorts(s[0], NewestFirst(s[1..]));
      assert s == [s[0]] + s[1..];
    }
  }

  // The newest file with a candidate answers for the whole of level 0.
  lemma FirstHitAnswersLevelZero(s: set<File>, f: File, key: UserKey, snapshot: SeqNo, e: Entry)
    requires LevelZeroInv(s) && f in s && IsNewest(Elems(f.entries), key, snapshot, e)
    requires forall g, x :: g in s && g.number > f.number ==> !Candidate(Elems(g.entries), key, snapshot, x)
    ensures IsNewest(FilesEntries(s), key, snapshot, e)
  {
    assert Candidate(FilesEntries(s), key, snapshot, e);
    forall x | Candidate(FilesEntries(s), key, snapshot, x) ensures x.Seq() <= e.Seq() {
      var g :| g in s && x in g.entries;
      assert Candidate(Elems(g.entries), key, snapshot, x);
      assert g.number <= f.number;
      assert g != f ==> Newer(f, g);
    }
  }

  // ---- The whole version

  ghost predicate NothingAbove(t: Tree, level: nat, key: UserKey, snapshot: SeqNo) {
    forall l, x :: 0 <= l < level && l < NUM_LEVELS ==> !Candidate(FilesEntries(t[l]), key, snapshot, x)
  }

  // Entries never hop over a shallower entry of the same key, so the first level with a
  // candidate settles the search.
  lemma FirstLevelAnswers(t: Tree, level: nat, key: UserKey, snapshot: SeqNo, e: Entry)
    requires Recency(t) && level < NUM_LEVELS && NothingAbove(t, level, key, snapshot)
    requires IsNewest(FilesEntries(t[level]), key, snapshot, e)
    ensures IsNewest(TreeEntries(t), key, snapshot, e)
  {
    var f :| f in t[level] && e in f.entries;
    assert Candidate(TreeEntries(t), key, snapshot, e);
    forall x | Candidate(TreeEntries(t), key, snapshot, x) ensures x.Seq() <= e.Seq() {
      var l, g :| 0 <= l < NUM_LEVELS && g in t[l] && x in g.entries;
      assert Candidate(FilesEntries(t[l]), key, snapshot, x);
      if level < l {
        assert Newer(f, g);
      }
    }
  }

  lemma NoLevelAnswers(t: Tree, key: UserKey, snapshot: SeqNo)
    requires NothingAbove(t, NUM_LEVELS, key, snapshot)
    ensures forall x :: !Candidate(TreeEntries(t), key, snapshot, x)
  {
    forall l, g, x | 0 <= l < NUM_LEVELS && g in t[l] && x in g.entries
      ensures !Candidate(TreeEntries(t), key, snapshot, x)
    {
      assert x in FilesEntries(t[l]);
      assert !Candidate(FilesEntries(t[l]), key, snapshot, x);
    }
  }

  datatype Seek = Seek(file: File, level: nat)

  // A table a search for the key may have to read: on level 0 each whose range holds the key,
  // deeper the first that does not end before the key sought.
  ghost predicate Probe(v: Version, key: UserKey, snapshot: SeqNo, p: Seek) {
    && p.level < NUM_LEVELS && p.file in v[p.level] && Lo(p.file) <= key
    && if p.level == 0 then key <= Hi(p.file)
       else && !Before(Largest(p.file), SeekKey(key, snapshot))
            && forall g :: g in v[p.level] && FileBefore(g, p.file) ==> Before(Largest(g), SeekKey(key, snapshot))
  }

  // Shallower levels come first, and on level 0 newer tables.
  ghost predicate ReadBefore(p: Seek, q: Seek) {
    p.level < q.level || (p.level == 0 && q.level == 0 && p.file.number > q.file.number)
  }

  // A search charges the first table it reads, if that does not answer and another is read.
  ghost predicate Charged(v: Version, key: UserKey, snapshot: SeqNo, p: Seek) {
    && Probe(v, key, snapshot, p)
    && (forall q :: Probe(v, key, snapshot, q) && q != p ==> ReadBefore(p, q))
    && (forall x :: !Candidate(Elems(p.file.entries), key, snapshot, x))
    && exists q :: Probe(v, key, snapshot, q) && q != p
  }

  // The tables read so far are the probes of the levels before and of the files done.
  ghost predicate ReadSoFar(v: Version, key: UserKey, snapshot: SeqNo, read: seq<Seek>, level: nat, done: seq<File>) {
    && (forall p :: p in read <==> Probe(v, key, snapshot, p) && (p.level < level || (p.level == level && p.file in done)))
    && forall i, j :: 0 <= i < j < |read| ==> ReadBefore(read[i], read[j])
  }

  // The probes of one level, in the order they are read
  ghost predicate ProbesOf(v: Version, key: UserKey, snapshot: SeqNo, level: nat, files: seq<File>) {
    && (forall f :: f in files <==> Probe(v, key, snapshot, Seek(f, level)))
    && (level > 0 ==> |files| <= 1)
    && (level == 0 ==> forall i, j :: 0 <= i < j < |files| ==> files[i].number > files[j].number)
  }

  lemma ReadNext(v: Version, key: UserKey, snapshot: SeqNo, read: seq<Seek>, level: nat, files: seq<File>, i: nat)
    requires ProbesOf(v, key, snapshot, level, files) && i < |files|
    requires ReadSoFar(v, key, snapshot, read, level, files[..i])
    ensures ReadSoFar(v, key, snapshot, read + [Seek(files[i], level)], level, files[..i + 1])
  {
    var p := Seek(files[i], level);
    assert files[..i + 1] == files[..i] + [files[i]] && files[i] in files;
    forall q | q in read ensures ReadBefore(q, p) {
      if q.level == level {
        var j :| 0 <= j < i && files[j] == q.file;
      }
    }
  }

  lemma LevelRead(v: Version, key: UserKey, snapshot: SeqNo, read: seq<Seek>, level: nat, files: seq<File>)
    requires ProbesOf(v, key, snapshot, level, files) && ReadSoFar(v, key, snapshot, read, level, files)
    ensures ReadSoFar(v, key, snapshot, read, level + 1, [])
  {
    forall p | Probe(v, key, snapshot, p) && p.level == level ensures p.file in files {
      assert p == Seek(p.file, level);
    }
  }

  // What the tables read say about the charge
  lemma ChargedIff(v: Version, key: UserKey, snapshot: SeqNo, read: seq<Seek>, level: nat, files: seq<File>, i: nat,
                  hit: Option<Entry>)
    requires i <= |files| && ReadSoFar(v, key, snapshot, read, level, files[..i])
    requires ProbesOf(v, key, snapshot, level, files)
    requires forall j, x :: 0 <= j < |read| - 1 ==> !Candidate(Elems(read[j].file.entries), key, snapshot, x)
    requires if hit.Some? then read != [] && Candidate(Elems(read[|read| - 1].file.entries), key, snapshot, hit.value)
             else level == NUM_LEVELS
    ensures forall p :: Charged(v, key, snapshot, p) <==> |read| >= 2 && p == read[0]
  {
    forall p | Probe(v, key, snapshot, p) && p !in read && read != [] ensures ReadBefore(read[0], p) {
      assert read[0] in read;
      if p.level == level {
        assert p == Seek(p.file, level);
        if read[0].level == level {
          var a :| 0 <= a < |files[..i]| && files[..i][a] == read[0].file;
          var b :| 0 <= b < |files| && files[b] == p.file;
          assert files[b] in files[..i] || i <= b;
        }
      }
    }
    if |read| >= 2 {
      assert read[0] in read && read[1] in read;
      forall q | Probe(v, key, snapshot, q) && q != read[0] ensures ReadBefore(read[0], q) {
      }
      assert Charged(v, key, snapshot, read[0]);
    }
    forall p | Charged(v, key, snapshot, p) ensures |read| >= 2 && p == read[0] {
      var q :| Probe(v, key, snapshot, q) && q != p;
      var hints := (p in read, q in read);
      if read != [] {
        var hint := read[0] in read;
      }
    }
  }

  // Version::Get. The search reads tables until one answers; a second read charges the
  // first table read as a compaction candidate.
  method Get(v: Version, key: UserKey, snapshot: SeqNo) returns (entry: Option<Entry>, seek: Option<Seek>)
    requires VersionInv(v)
    ensures entry.Some? ==> IsNewest(TreeEntries(TreeOf(v)), key, snapshot, entry.value)
    ensures entry.None? ==> forall x :: !Candidate(TreeEntries(TreeOf(v)), key, snapshot, x)
    ensures forall p :: seek == Some(p) <==> Charged(v, key, snapshot, p)
    // A charged file can always be compacted: it lies above the last level.
    ensures seek.Some? ==> seek.value.level + 1 < NUM_LEVELS && seek.value.file in v[seek.value.level]
  {
    NothingRead(v, key, snapshot);
    hide *;
    ghost var t := TreeOf(v);
    ghost var read: seq<Seek> := [];
    seek := None;
    var lastRead: Option<Seek> := None;
    var level := 0;
    while level < NUM_LEVELS
      invariant 0 <= level <= NUM_LEVELS
      invariant NothingAbove(t, level, key, snapshot)
      invariant ReadSoFar(v, key, snapshot, read, level, []) && NoneAnswers(read, |read|, key, snapshot)
      invariant lastRead == if read == [] then None else Some(read[|read| - 1])
      invariant seek == if |read| < 2 then None else Some(read[0])
    {
      var files := FilesToRead(v, level, key, snapshot);
      var i := 0;
      while i < |files|
        invariant 0 <= i <= |files|
        invariant NoneIn(files, i, key, snapshot)
        invariant ReadSoFar(v, key, snapshot, read, level, files[..i]) && NoneAnswers(read, |read|, key, snapshot)
        invariant lastRead == if read == [] then None else Some(read[|read| - 1])
        invariant seek == if |read| < 2 then None else Some(read[0])
      {
        if lastRead.Some? && seek.None? {
          seek := lastRead;
        }
        lastRead := Some(Seek(files[i], level));
        ReadNext(v, key, snapshot, read, level, files, i);
        read := read + [Seek(files[i], level)];
        entry := TableGet(files[i], key, snapshot);
        assert read[..|read| - 1] + [read[|read| - 1]] == read;
        NoneAnswered(read, key, snapshot);
        if entry.Some? {
          HitAnswers(v, level, files, i, key, snapshot, entry.value);
          SeekFollows(v, key, snapshot, read, level, files, i + 1, true, seek);
          return;
        }
        NotIn(files, i, key, snapshot);
        i := i + 1;
      }
      MissSettles(v, level, files, key, snapshot);
      assert files[..i] == files;
      LevelRead(v, key, snapshot, read, level, files);
      level := level + 1;
    }
    NoLevelAnswers(t, key, snapshot);
    SeekFollows(v, key, snapshot, read, level, [], 0, false, seek);
    entry := None;
  }

  // No table read before the n-th holds a candidate.
  ghost predicate NoneAnswers(read: seq<Seek>, n: nat, key: UserKey, snapshot: SeqNo)
    requires n <= |read|
  {
    forall j, x :: 0 <= j < n ==> !Candidate(Elems(read[j].file.entries), key, snapshot, x)
  }

  // On a deeper level the file to read settles the search, and without one nothing is there.
  ghost predicate Settles(v: Version, level: nat, files: seq<File>, key: UserKey, snapshot: SeqNo)
    requires 0 < level < NUM_LEVELS
  {
    if files == [] then forall x :: !Candidate(FilesEntries(Elems(v[level])), key, snapshot, x)
    else
      var r := TableGet(files[0], key, snapshot);
      && (r.Some? ==> IsNewest(FilesEntries(Elems(v[level])), key, snapshot, r.value))
      && (r.None? ==> forall x :: !Candidate(FilesEntries(Elems(v[level])), key, snapshot, x))
  }

  // The files of a level to read, in order
  method FilesToRead(v: Version, level: nat, key: UserKey, snapshot: SeqNo) returns (files: seq<File>)
    requires VersionInv(v) && level < NUM_LEVELS
    ensures ProbesOf(v, key, snapshot, level, files)
    ensures level > 0 ==> Settles(v, level, files, key, snapshot)
  {
    hide ProbesOf, Settles;
    if level == 0 {
      files := CollectLevelZero(v[0], key);
      LevelZeroProbes(v, key, snapshot, files);
    } else {
      var index := FindFile(v[level], SeekKey(key, snapshot));
      if index >= |v[level]| || key < Lo(v[level][index]) {
        files := [];
      } else {
        files := [v[level][index]];
      }
      DeeperProbes(v, level, key, snapshot, index, files);
    }
  }

  lemma LevelZeroProbes(v: Version, key: UserKey, snapshot: SeqNo, files: seq<File>)
    requires VersionInv(v) && ByNumberDown(files) && NoneTwice(files)
    requires forall f :: f in files <==> f in v[0] && Meets(f, key, key)
    ensures ProbesOf(v, key, snapshot, 0, files)
  {
    forall i, j | 0 <= i < j < |files| ensures files[i].number > files[j].number {
      assert files[i] in files && files[j] in files;
      assert files[i] in TreeOf(v)[0] && files[j] in TreeOf(v)[0];
    }
  }

  lemma DeeperProbes(v: Version, level: nat, key: UserKey, snapshot: SeqNo, index: nat, files: seq<File>)
    requires VersionInv(v) && 0 < level < NUM_LEVELS && index <= |v[level]|
    requires forall i :: 0 <= i < index ==> Before(Largest(v[level][i]), SeekKey(key, snapshot))
    requires index < |v[level]| ==> !Before(Largest(v[level][index]), SeekKey(key, snapshot))
    requires files == if index == |v[level]| || key < Lo(v[level][index]) then [] else [v[level][index]]
    ensures ProbesOf(v, key, snapshot, level, files) && Settles(v, level, files, key, snapshot)
  {
    SearchOneFile(v[level], index, key, snapshot);
    forall f ensures f in files <==> Probe(v, key, snapshot, Seek(f, level)) {
      if f in v[level] {
        var j :| 0 <= j < |v[level]| && v[level][j] == f;
        if j == index && key >= Lo(f) {
          forall g | g in v[level] && FileBefore(g, f) ensures Before(Largest(g), SeekKey(key, snapshot)) {
            var k :| 0 <= k < |v[level]| && v[level][k] == g;
            EntryWithinBounds(f, f.entries[0]);
            EntryWithinBounds(g, g.entries[0]);
            assert index < k ==> FileBefore(f, g);
          }
        } else if index < j {
          assert FileBefore(v[level][index], f);
          LaterStartsHigher(v[level], index, j);
        }
      }
    }
  }

  lemma LaterStartsHigher(files: seq<File>, i: nat, j: nat)
    requires InOrder(files) && i < j < |files|
    ensures files[i] != files[j]
  {
    assert FileBefore(files[i], files[j]);
    EntryWithinBounds(files[i], files[i].entries[0]);
  }

  ghost predicate NoneIn(files: seq<File>, n: nat, key: UserKey, snapshot: SeqNo)
    requires n <= |files|
  {
    forall j, x :: 0 <= j < n ==> !Candidate(Elems(files[j].entries), key, snapshot, x)
  }

  lemma NotIn(files: seq<File>, i: nat, key: UserKey, snapshot: SeqNo)
    requires i < |files| && NoneIn(files, i, key, snapshot) && TableGet(files[i], key, snapshot).None?
    ensures NoneIn(files, i + 1, key, snapshot)
  {
  }

  lemma NothingRead(v: Version, key: UserKey, snapshot: SeqNo)
    ensures NothingAbove(TreeOf(v), 0, key, snapshot) && ReadSoFar(v, key, snapshot, [], 0, [])
    ensures NoneAnswers([], 0, key, snapshot) && ProbesOf(v, key, snapshot, NUM_LEVELS, [])
    ensures forall files: seq<File> :: NoneIn(files, 0, key, snapshot)
  {
  }

  lemma NoneAnswered(read: seq<Seek>, key: UserKey, snapshot: SeqNo)
    requires read != [] && NoneAnswers(read[..|read| - 1], |read| - 1, key, snapshot)
    ensures NoneAnswers(read, |read| - 1, key, snapshot)
    ensures TableGet(read[|read| - 1].file, key, snapshot).None? ==> NoneAnswers(read, |read|, key, snapshot)
  {
  }

  lemma HitAnswers(v: Version, level: nat, files: seq<File>, i: nat, key: UserKey, snapshot: SeqNo, e: Entry)
    requires VersionInv(v) && level < NUM_LEVELS && NothingAbove(TreeOf(v), level, key, snapshot)
    requires ProbesOf(v, key, snapshot, level, files) && (level > 0 ==> Settles(v, level, files, key, snapshot))
    requires i < |files| && TableGet(files[i], key, snapshot) == Some(e)
    requires NoneIn(files, i, key, snapshot)
    ensures IsNewest(TreeEntries(TreeOf(v)), key, snapshot, e)
  {
    if level == 0 {
      LevelZeroFiles(v, key, snapshot, files);
      HitInLevelZero(v[0], files, i, key, snapshot, e);
    }
    assert IsNewest(FilesEntries(TreeOf(v)[level]), key, snapshot, e);
    FirstLevelAnswers(TreeOf(v), level, key, snapshot, e);
  }

  lemma LevelZeroFiles(v: Version, key: UserKey, snapshot: SeqNo, files: seq<File>)
    requires ProbesOf(v, key, snapshot, 0, files)
    ensures ByNumberDown(files) && forall f :: f in files <==> f in v[0] && Meets(f, key, key)
  {
    forall f ensures f in files <==> f in v[0] && Meets(f, key, key) {
      assert f in files <==> Probe(v, key, snapshot, Seek(f, 0));
    }
  }

  lemma MissSettles(v: Version, level: nat, files: seq<File>, key: UserKey, snapshot: SeqNo)
    requires VersionInv(v) && level < NUM_LEVELS && NothingAbove(TreeOf(v), level, key, snapshot)
    requires ProbesOf(v, key, snapshot, level, files) && (level > 0 ==> Settles(v, level, files, key, snapshot))
    requires NoneIn(files, |files|, key, snapshot)
    ensures NothingAbove(TreeOf(v), level + 1, key, snapshot)
  {
    if level == 0 {
      LevelZeroFiles(v, key, snapshot, files);
      MissInLevelZero(v[0], files, key, snapshot);
    } else if files != [] {
      assert TableGet(files[0], key, snapshot).None?;
    }
    assert forall x :: !Candidate(FilesEntries(TreeOf(v)[level]), key, snapshot, x);
  }

  // The seek kept during the search is the charge.
  lemma SeekFollows(v: Version, key: UserKey, snapshot: SeqNo, read: seq<Seek>, level: nat, files: seq<File>, i: nat,
                    hit: bool, seek: Option<Seek>)
    requires i <= |files| && ReadSoFar(v, key, snapshot, read, level, files[..i])
    requires if hit then read != [] && NoneAnswers(read, |read| - 1, key, snapshot)
                         && ProbesOf(v, key, snapshot, level, files)
                         && TableGet(read[|read| - 1].file, key, snapshot).Some?
             else level == NUM_LEVELS && files == [] && NoneAnswers(read, |read|, key, snapshot)
    requires seek == if |read| < 2 then None else Some(read[0])
    ensures forall p :: seek == Some(p) <==> Charged(v, key, snapshot, p)
    ensures seek.Some? ==> seek.value.level + 1 < NUM_LEVELS && seek.value.file in v[seek.value.level]
  {
    ChargedIff(v, key, snapshot, read, level, files, i,
               if hit then TableGet(read[|read| - 1].file, key, snapshot) else None);
    if |read| >= 2 {
      assert ReadBefore(read[0], read[1]) && read[0] in read && read[1] in read;
    }
  }

  method CollectLevelZero(files: seq<File>, key: UserKey) returns (tmp: seq<File>)
    ensures ByNumberDown(tmp)
    ensures forall f :: f in tmp <==> f in files && Meets(f, key, key)
    ensures NoneTwice(files) ==> NoneTwice(tmp)
  {
    tmp := [];
    var i := 0;
    while i < |files|
      invariant 0 <= i <= |files|
      invariant forall f :: f in tmp <==> f in files[..i] && Meets(f, key, key)
      invariant NoneTwice(files) ==> NoneTwice(tmp)
    {
      assert files[..i + 1] == files[..i] + [files[i]];
      if key >= Lo(files[i]) && key <= Hi(files[i]) {
        assert NoneTwice(files) ==> files[i] !in files[..i];
        tmp := tmp + [files[i]];
      }
      i := i + 1;
    }
    assert files[..i] == files;
    NewestFirstSorts(tmp);
    tmp := NewestFirst(tmp);
  }

  lemma HitInLevelZero(all: seq<File>, files: seq<File>, i: nat, key: UserKey, snapshot: SeqNo, e: Entry)
    requires LevelZeroInv(Elems(all)) && ByNumberDown(files) && i < |files|
    requires forall f :: f in files <==> f in all && Meets(f, key, key)
    requires forall j, x :: 0 <= j < i ==> !Candidate(Elems(files[j].entries), key, snapshot, x)
    requires IsNewest(Elems(files[i].entries), key, snapshot, e)
    ensures IsNewest(FilesEntries(Elems(all)), key, snapshot, e)
  {
    forall g, x | g in Elems(all) && Candidate(Elems(g.entries), key, snapshot, x)
      ensures g.number <= files[i].number
    {
      EntryWithinBounds(g, x);
      var j :| 0 <= j < |files| && files[j] == g;
      assert i <= j;
    }
    FirstHitAnswersLevelZero(Elems(all), files[i], key, snapshot, e);
  }

  lemma MissInLevelZero(all: seq<File>, files: seq<File>, key: UserKey, snapshot: SeqNo)
    requires forall f :: f in files <==> f in all && Meets(f, key, key)
    requires forall j, x :: 0 <= j < |files| ==> !Candidate(Elems(files[j].entries), key, snapshot, x)
    ensures forall x :: !Candidate(FilesEntries(Elems(all)), key, snapshot, x)
  {
    forall g, x | g in Elems(all) && Candidate(Elems(g.entries), key, snapshot, x) ensures g in files {
      EntryWithinBounds(g, x);
    }
    forall g, x | g in Elems(all) ensures !Candidate(Elems(g.entries), key, snapshot, x) {
      assert g in files ==> exists j :: 0 <= j < |files| && files[j] == g;
    }
    forall x | x in FilesEntries(Elems(all)) ensures !Candidate(FilesEntries(Elems(all)), key, snapshot, x) {
      var g :| g in Elems(all) && x in g.entries;
      assert !Candidate(Elems(g.entries), key, snapshot, x);
    }
  }
}
