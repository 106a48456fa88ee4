/** VersionSet::Builder: applying version edits to a version, one builder per edit as the
    running database does, or one builder for a whole manifest as recovery does. */
module Manifest {
  import opened InternalKeys
  import opened Versions
  import opened Picking

  datatype NewFile = NewFile(level: nat, file: File)
  datatype DeletedFile = DeletedFile(level: nat, number: nat)

  // The file changes of an edit.
  datatype VersionEdit = VersionEdit(deleted: set<DeletedFile>, added: seq<NewFile>)

  predicate EditOk(e: VersionEdit) {
    (forall d :: d in e.deleted ==> d.level < NUM_LEVELS) && (forall a :: a in e.added ==> a.level < NUM_LEVELS)
  }

  // ---- The order of the level vectors

  predicate BySmallestKey(f: File, g: File) {
    Before(Smallest(f), Smallest(g)) || (Smallest(f) == Smallest(g) && f.number < g.number)
  }

  ghost predicate StrictlySorted(files: seq<File>) {
    forall i, j :: 0 <= i < j < |files| ==> BySmallestKey(files[i], files[j])
  }

  lemma ByKeyIsTotal(f: File, g: File)
    ensures BySmallestKey(f, g) || BySmallestKey(g, f) || (Smallest(f) == Smallest(g) && f.number == g.number)
    ensures !(BySmallestKey(f, g) && BySmallestKey(g, f))
  {
    BeforeIsTotal(Smallest(f), Smallest(g));
  }

  lemma EmptyOrHasFile(s: seq<File>)
    ensures s == [] || exists f :: f in s
  {
    if s != [] {
      assert s[0] in s;
    }
  }

  // A strictly sorted vector is determined by its files.
  lemma {:induction false} SortedVectorIsUnique(a: seq<File>, b: seq<File>)
    requires StrictlySorted(a) && StrictlySorted(b) && Elems(a) == Elems(b)
    ensures a == b
  {
    if a == [] {
      EmptyOrHasFile(b);
      assert forall f :: f in b ==> f in Elems(a);
    } else {
      assert a[0] in Elems(b);
      assert b != [] && b[0] in Elems(b);
      var i :| 0 <= i < |b| && b[i] == a[0];
      assert b[0] in Elems(a);
      var j :| 0 <= j < |a| && a[j] == b[0];
      ByKeyIsTotal(a[0], b[0]);
      assert a[0] == b[0];
      forall f ensures f in a[1..] <==> f in b[1..] {
        RestOfSorted(a, f);
        RestOfSorted(b, f);
        assert f in Elems(a) <==> f in Elems(b);
      }
      SortedVectorIsUnique(a[1..], b[1..]);
      assert a == [a[0]] + a[1..] && b == [b[0]] + b[1..];
    }
  }

  lemma RestOfSorted(s: seq<File>, f: File)
    requires StrictlySorted(s) && s != []
    ensures f in s[1..] <==> f in s && f != s[0]
  {
    ByKeyIsTotal(s[0], s[0]);
    assert s == [s[0]] + s[1..];
    if f in s[1..] {
      var i :| 0 <= i < |s[1..]| && s[1..][i] == f;
      assert BySmallestKey(s[0], s[i + 1]);
    }
  }

  // ---- Edits on sets of files

  ghost function FilesAt(added: seq<NewFile>, level: nat): set<File> {
    set a | a in added && a.level == level :: a.file
  }

  ghost function Added(e: VersionEdit, level: nat): set<File> { FilesAt(e.added, level) }

  lemma LastAddition(added: seq<NewFile>, level: nat)
    requires added != []
    ensures var last := added[|added| - 1];
            FilesAt(added, level) == FilesAt(added[..|added| - 1], level) + if last.level == level then {last.file} else {}
  {
    var last := added[|added| - 1];
    assert added == added[..|added| - 1] + [last] && last in added;
  }

  ghost function Deleted(e: VersionEdit, level: nat): set<nat> {
    set d | d in e.deleted && d.level == level :: d.number
  }

  ghost function FileNumbers(files: set<File>): set<nat> {
    set f | f in files :: f.number
  }

  // What a builder has collected for a level.
  datatype Pending = Pending(deleted: set<nat>, added: set<File>)

  ghost function Collect(p: Pending, e: VersionEdit, level: nat): Pending {
    Pending(p.deleted + Deleted(e, level) - FileNumbers(Added(e, level)), p.added + Added(e, level))
  }

  ghost function CollectAll(edits: seq<VersionEdit>, level: nat): Pending {
    if edits == [] then Pending({}, {}) else
    Collect(CollectAll(edits[..|edits| - 1], level), edits[|edits| - 1], level)
  }

  ghost function Save(base: set<File>, p: Pending): set<File> {
    set f | f in base + p.added && f.number !in p.deleted
  }

  // One builder per edit.
  ghost function ApplyEach(base: set<File>, edits: seq<VersionEdit>, level: nat): set<File> {
    if edits == [] then base else
    Save(ApplyEach(base, edits[..|edits| - 1], level), Collect(Pending({}, {}), edits[|edits| - 1], level))
  }

  // An edit adds a number to a level where an older file of that number was deleted before.
  ghost predicate Revives(base: set<File>, edits: seq<VersionEdit>, level: nat, i: nat, f: File, g: File)
    requires i < |edits|
  {
    var p := CollectAll(edits[..i], level);
    f in Added(edits[i], level) && g in base + p.added && g !in Added(edits[i], level)
    && g.number == f.number && g.number in p.deleted
  }

  ghost predicate RevivesNothing(base: set<File>, edits: seq<VersionEdit>, level: nat, i: nat)
    requires i < |edits|
  {
    forall f, g :: !Revives(base, edits, level, i, f, g)
  }

  ghost predicate NoRevival(base: set<File>, edits: seq<VersionEdit>, level: nat) {
    forall i :: 0 <= i < |edits| ==> RevivesNothing(base, edits, level, i)
  }

  // A builder that forgets a deletion when its number is added again resurrects the old file.
  lemma LastEdit(base: set<File>, edits: seq<VersionEdit>, level: nat)
    requires edits != []
    requires var n := |edits| - 1; Save(base, CollectAll(edits[..n], level)) == ApplyEach(base, edits[..n], level)
    ensures Save(base, CollectAll(edits, level)) == ApplyEach(base, edits, level)
       <==> RevivesNothing(base, edits, level, |edits| - 1)
  {
    var n := |edits| - 1;
    var p, e := CollectAll(edits[..n], level), edits[n];
    var A, D := Added(e, level), Deleted(e, level);
    var q, q1 := Collect(p, e, level), Collect(Pending({}, {}), e, level);
    var one, each := Save(base, q), Save(Save(base, p), q1);
    forall f | f in A ensures f in one && f in each {
      assert f.number in FileNumbers(A);
    }
    forall g | g in base + p.added && g !in A
      ensures (g in one) != (g in each) <==> exists f :: Revives(base, edits, level, n, f, g)
    {
      if g.number in FileNumbers(A) {
        var f :| f in A && f.number == g.number;
        assert g.number in p.deleted ==> Revives(base, edits, level, n, f, g);
      }
    }
    if one == each {
      forall f, g | Revives(base, edits, level, n, f, g) ensures (g in one) != (g in each) {
      }
    } else if g :| (g in one) != (g in each) {
      assert g in base + p.added && g !in A;
    }
  }

  ghost predicate OneBuilderSuffices(base: set<File>, edits: seq<VersionEdit>, level: nat) {
    Save(base, CollectAll(edits, level)) == ApplyEach(base, edits, level)
  }

  ghost predicate PrefixesAgree(base: set<File>, edits: seq<VersionEdit>, level: nat) {
    forall k :: 0 <= k <= |edits| ==> OneBuilderSuffices(base, edits[..k], level)
  }

  lemma PrefixStep(base: set<File>, edits: seq<VersionEdit>, level: nat)
    requires edits != []
    ensures var front := edits[..|edits| - 1];
            && (PrefixesAgree(base, edits, level) <==>
                  PrefixesAgree(base, front, level) && OneBuilderSuffices(base, edits, level))
            && (NoRevival(base, edits, level) <==>
                  NoRevival(base, front, level) && RevivesNothing(base, edits, level, |edits| - 1))
            && OneBuilderSuffices(base, front[..|front|], level) == OneBuilderSuffices(base, front, level)
  {
    hide OneBuilderSuffices;
    var n := |edits| - 1;
    var front := edits[..n];
    assert forall k :: 0 <= k <= n ==> front[..k] == edits[..k];
    assert edits[..n + 1] == edits;
    forall i | 0 <= i < n
      ensures RevivesNothing(base, edits, level, i) <==> RevivesNothing(base, front, level, i)
    {
      assert front[..i] == edits[..i];
      assert forall f, g :: Revives(base, edits, level, i, f, g) == Revives(base, front, level, i, f, g);
    }
  }

  // One builder over the whole manifest agrees with one builder per edit at every point of
  // the manifest exactly when no edit revives a deleted file.
  lemma {:induction false} OneBuilderIff(base: set<File>, edits: seq<VersionEdit>, level: nat)
    ensures PrefixesAgree(base, edits, level) <==> NoRevival(base, edits, level)
  {
    if edits == [] {
      assert Save(base, Pending({}, {})) == base;
    } else {
      hide RevivesNothing;
      OneBuilderIff(base, edits[..|edits| - 1], level);
      PrefixStep(base, edits, level);
      if PrefixesAgree(base, edits[..|edits| - 1], level) {
        LastEdit(base, edits, level);
      }
    }
  }

  // ---- The builder

  // std::set<FileMetaData*, BySmallestKey>::insert: an equivalent element stays.
  function InsertFile(f: File, s: seq<File>): seq<File> {
    if s == [] || BySmallestKey(f, s[0]) then [f] + s
    else if BySmallestKey(s[0], f) then [s[0]] + InsertFile(f, s[1..])
    else s
  }

  predicate SameSlot(f: File, g: File) {
    Smallest(f) == Smallest(g) && f.number == g.number
  }

  lemma {:induction false} InsertFileSorts(f: File, s: seq<File>)
    requires StrictlySorted(s)
    ensures StrictlySorted(InsertFile(f, s))
    ensures forall g :: g in InsertFile(f, s) ==> g == f || g in s
    ensures forall g :: g in s ==> g in InsertFile(f, s)
    ensures (forall g :: g in s && SameSlot(f, g) ==> g == f) ==> f in InsertFile(f, s)
  {
    if s != [] {
      ByKeyIsTotal(f, s[0]);
      assert s == [s[0]] + s[1..];
      if BySmallestKey(f, s[0]) {
        forall i | 1 <= i < |s| ensures BySmallestKey(f, s[i]) {
          assert BySmallestKey(s[0], s[i]);
        }
      } else if BySmallestKey(s[0], f) {
        InsertFileSorts(f, s[1..]);
        var tail := InsertFile(f, s[1..]);
        forall i | 0 <= i < |tail| ensures BySmallestKey(s[0], tail[i]) {
          assert tail[i] == f || tail[i] in s[1..];
        }
      } else {
        assert s[0] in s && SameSlot(f, s[0]);
      }
    }
  }

  // The files of a level merged in BySmallestKey order, base files before equivalent ones.
  function MergeSorted(base: seq<File>, added: seq<File>): seq<File>
    decreases |base| + |added|
  {
    if base == [] then added
    else if added == [] then base
    else if BySmallestKey(added[0], base[0]) then [added[0]] + MergeSorted(base, added[1..])
    else [base[0]] + MergeSorted(base[1..], added)
  }

  // No file waits at a slot another file of the level already has.
  ghost predicate SlotsApart(base: seq<File>, added: seq<File>) {
    forall f, g :: f in base && g in added ==> !SameSlot(f, g)
  }

  lemma {:induction false} MergeSortedSorts(base: seq<File>, added: seq<File>)
    requires StrictlySorted(base) && StrictlySorted(added) && SlotsApart(base, added)
    ensures StrictlySorted(MergeSorted(base, added))
    ensures forall f :: f in MergeSorted(base, added) <==> f in base || f in added
    decreases |base| + |added|
  {
    if base != [] && added != [] {
      assert base == [base[0]] + base[1..] && added == [added[0]] + added[1..];
      ByKeyIsTotal(base[0], added[0]);
      assert base[0] in base && added[0] in added;
      var addFirst := BySmallestKey(added[0], base[0]);
      var head := if addFirst then added[0] else base[0];
      var tail := if addFirst then MergeSorted(base, added[1..]) else MergeSorted(base[1..], added);
      hide BySmallestKey, SameSlot;
      if addFirst {
        MergeSortedSorts(base, added[1..]);
      } else {
        MergeSortedSorts(base[1..], added);
      }
      forall i | 0 <= i < |tail| ensures BySmallestKey(head, tail[i]) {
        assert tail[i] in tail;
        HeadIsFirst(base, added, head, tail[i]);
      }
    }
  }

  lemma HeadIsFirst(base: seq<File>, added: seq<File>, head: File, f: File)
    requires StrictlySorted(base) && StrictlySorted(added) && base != [] && added != []
    requires head == (if BySmallestKey(added[0], base[0]) then added[0] else base[0])
    requires !SameSlot(base[0], added[0])
    requires if BySmallestKey(added[0], base[0]) then f in base || f in added[1..] else f in base[1..] || f in added
    ensures BySmallestKey(head, f)
  {
    ByKeyIsTotal(base[0], added[0]);
    if f in base {
      var i :| 0 <= i < |base| && base[i] == f;
      assert i > 0 ==> BySmallestKey(base[0], base[i]);
    }
    if f in added {
      var i :| 0 <= i < |added| && added[i] == f;
      assert i > 0 ==> BySmallestKey(added[0], added[i]);
    }
    if f in base[1..] {
      var i :| 0 <= i < |base[1..]| && base[1..][i] == f;
      assert BySmallestKey(base[0], base[i + 1]);
    }
    if f in added[1..] {
      var i :| 0 <= i < |added[1..]| && added[1..][i] == f;
      assert BySmallestKey(added[0], added[i + 1]);
    }
  }

  // The files whose numbers are not deleted, in order.
  function Survivors(files: seq<File>, deleted: set<nat>): seq<File> {
    if files == [] then []
    else (if files[0].number in deleted then [] else [files[0]]) + Survivors(files[1..], deleted)
  }

  lemma {:induction false} SurvivorsSorted(files: seq<File>, deleted: set<nat>)
    requires StrictlySorted(files)
    ensures StrictlySorted(Survivors(files, deleted))
    ensures forall f :: f in Survivors(files, deleted) <==> f in files && f.number !in deleted
  {
    if files != [] {
      assert files == [files[0]] + files[1..];
      SurvivorsSorted(files[1..], deleted);
      var tail := Survivors(files[1..], deleted);
      forall i | 0 <= i < |tail| ensures BySmallestKey(files[0], tail[i]) {
        assert tail[i] in files[1..];
      }
    }
  }

  // The added files of a level as the builder's ordered set holds them.
  ghost function InsertAll(files: seq<File>, added: seq<NewFile>, level: nat): seq<File> {
    if added == [] then files else
    var rest := InsertAll(files, added[..|added| - 1], level);
    var last := added[|added| - 1];
    if last.level == level then InsertFile(last.file, rest) else rest
  }

  ghost function Gathered(edits: seq<VersionEdit>, level: nat): seq<File> {
    if edits == [] then [] else
    InsertAll(Gathered(edits[..|edits| - 1], level), edits[|edits| - 1].added, level)
  }

  // The vector one builder makes of a level.
  ghost function ReplayLevel(base: seq<File>, edits: seq<VersionEdit>, level: nat): seq<File> {
    Survivors(MergeSorted(base, Gathered(edits, level)), CollectAll(edits, level).deleted)
  }

  ghost function Replay(base: Version, edits: seq<VersionEdit>): Version {
    seq(NUM_LEVELS, l requires 0 <= l < NUM_LEVELS => ReplayLevel(base[l], edits, l))
  }

  ghost predicate SortedLevels(v: Version) {
    forall l :: 0 <= l < NUM_LEVELS ==> StrictlySorted(v[l])
  }

  class Builder {
    const base: Version
    var deletedFiles: seq<set<nat>>
    var addedFiles: seq<seq<File>>
    ghost var applied: seq<VersionEdit>

    constructor (base: Version)
      ensures Valid() && this.base == base && applied == []
    {
      this.base := base;
      deletedFiles := [{}, {}, {}, {}, {}, {}, {}];
      addedFiles := [[], [], [], [], [], [], []];
      applied := [];
    }

    // The sets hold what the edits applied so far collect.
    ghost predicate Valid()
      reads this
    {
      && |deletedFiles| == NUM_LEVELS && |addedFiles| == NUM_LEVELS
      && forall l :: 0 <= l < NUM_LEVELS ==>
           deletedFiles[l] == CollectAll(applied, l).deleted && addedFiles[l] == Gathered(applied, l)
    }

    // Builder::Apply
    method Apply(e: VersionEdit)
      requires Valid() && EditOk(e)
      modifies this
      ensures Valid() && applied == old(applied) + [e]
    {
      DeleteAll(e);
      ghost var before := deletedFiles;
      var i := 0;
      while i < |e.added|
        invariant 0 <= i <= |e.added| && applied == old(applied)
        invariant |deletedFiles| == |addedFiles| == NUM_LEVELS
        invariant forall l :: 0 <= l < NUM_LEVELS ==>
                    && addedFiles[l] == InsertAll(old(addedFiles[l]), e.added[..i], l)
                    && deletedFiles[l] == before[l] - FileNumbers(FilesAt(e.added[..i], l))
      {
        var level, f := e.added[i].level, e.added[i].file;
        assert e.added[i] in e.added;
        assert e.added[..i + 1] == e.added[..i] + [e.added[i]] && e.added[..i + 1][..i] == e.added[..i];
        NextAddition(e, i);
        deletedFiles := deletedFiles[level := deletedFiles[level] - {f.number}];
        addedFiles := addedFiles[level := InsertFile(f, addedFiles[level])];
        i := i + 1;
      }
      applied := applied + [e];
      assert applied[..|applied| - 1] == old(applied) && e.added[..i] == e.added;
    }

    method DeleteAll(e: VersionEdit)
      requires EditOk(e) && |deletedFiles| == NUM_LEVELS
      modifies this`deletedFiles
      ensures |deletedFiles| == NUM_LEVELS
      ensures forall l :: 0 <= l < NUM_LEVELS ==> deletedFiles[l] == old(deletedFiles[l]) + Deleted(e, l)
    {
      var todo := e.deleted;
      while todo != {}
        invariant |deletedFiles| == NUM_LEVELS && todo <= e.deleted
        invariant forall l :: 0 <= l < NUM_LEVELS ==>
                    deletedFiles[l] == old(deletedFiles[l]) + (set d | d in e.deleted - todo && d.level == l :: d.number)
        decreases todo
      {
        var d :| d in todo;
        deletedFiles := deletedFiles[d.level := deletedFiles[d.level] + {d.number}];
        todo := todo - {d};
      }
      assert e.deleted - todo == e.deleted;
    }

    // Builder::SaveTo. Each added file goes after the base files it is not smaller than;
    // MaybeAddFile skips deleted numbers.
    method SaveTo() returns (v: Version)
      requires Valid()
      ensures v == Replay(base, applied)
    {
      var out: seq<seq<File>> := [];
      while |out| < NUM_LEVELS
        invariant |out| <= NUM_LEVELS
        invariant forall l :: 0 <= l < |out| ==> out[l] == ReplayLevel(base[l], applied, l)
      {
        var files := SaveLevel(base[|out|], addedFiles[|out|], deletedFiles[|out|]);
        out := out + [files];
      }
      v := out;
    }
  }

  // What is still to be written of a level.
  function Rest(base: seq<File>, b: nat, added: seq<File>, a: nat, deleted: set<nat>): seq<File>
    requires b <= |base| && a <= |added|
  {
    Survivors(MergeSorted(base[b..], added[a..]), deleted)
  }

  function Unless(f: File, deleted: set<nat>): seq<File> {
    if f.number in deleted then [] else [f]
  }

  lemma TakeBase(base: seq<File>, b: nat, added: seq<File>, a: nat, deleted: set<nat>, files: seq<File>)
    requires b < |base| && a <= |added| && (a < |added| ==> !BySmallestKey(added[a], base[b]))
    ensures files + Rest(base, b, added, a, deleted)
         == files + Unless(base[b], deleted) + Rest(base, b + 1, added, a, deleted)
  {
    var merged := MergeSorted(base[b..], added[a..]);
    assert base[b..][0] == base[b] && base[b..][1..] == base[b + 1..];
    if a < |added| {
      assert added[a..][0] == added[a];
    } else {
      assert added[a..] == [];
    }
    assert merged[0] == base[b] && merged[1..] == MergeSorted(base[b + 1..], added[a..]);
    Regroup(files, Unless(base[b], deleted), Rest(base, b + 1, added, a, deleted));
  }

  lemma TakeAdded(base: seq<File>, b: nat, added: seq<File>, a: nat, deleted: set<nat>, files: seq<File>)
    requires b <= |base| && a < |added| && (b < |base| ==> BySmallestKey(added[a], base[b]))
    ensures files + Rest(base, b, added, a, deleted)
         == files + Unless(added[a], deleted) + Rest(base, b, added, a + 1, deleted)
  {
    var merged := MergeSorted(base[b..], added[a..]);
    assert added[a..][0] == added[a] && added[a..][1..] == added[a + 1..];
    if b < |base| {
      assert base[b..][0] == base[b];
    } else {
      assert base[b..] == [];
    }
    assert merged[0] == added[a] && merged[1..] == MergeSorted(base[b..], added[a + 1..]);
    Regroup(files, Unless(added[a], deleted), Rest(base, b, added, a + 1, deleted));
  }

  method SaveLevel(base: seq<File>, added: seq<File>, deleted: set<nat>) returns (files: seq<File>)
    ensures files == Survivors(MergeSorted(base, added), deleted)
  {
    hide *;
    files := [];
    ghost var all := Survivors(MergeSorted(base, added), deleted);
    var b, a := 0, 0;
    NothingSaved(base, added, deleted);
    while a < |added|
      invariant 0 <= a <= |added| && 0 <= b <= |base|
      invariant files + Rest(base, b, added, a, deleted) == all
    {
      while b < |base| && !BySmallestKey(added[a], base[b])
        invariant 0 <= b <= |base|
        invariant files + Rest(base, b, added, a, deleted) == all
        decreases |base| - b
      {
        TakeBase(base, b, added, a, deleted, files);
        files := files + Unless(base[b], deleted);
        b := b + 1;
      }
      TakeAdded(base, b, added, a, deleted, files);
      files := files + Unless(added[a], deleted);
      a := a + 1;
    }
    while b < |base|
      invariant 0 <= b <= |base|
      invariant files + Rest(base, b, added, a, deleted) == all
    {
      TakeBase(base, b, added, a, deleted, files);
      files := files + Unless(base[b], deleted);
      b := b + 1;
    }
    NothingLeft(base, added, deleted);
    assert files + [] == files;
  }

  lemma NothingSaved(base: seq<File>, added: seq<File>, deleted: set<nat>)
    ensures [] + Rest(base, 0, added, 0, deleted) == Survivors(MergeSorted(base, added), deleted)
  {
    assert base[0..] == base && added[0..] == added;
  }

  lemma NothingLeft(base: seq<File>, added: seq<File>, deleted: set<nat>)
    ensures Rest(base, |base|, added, |added|, deleted) == []
  {
  }

  lemma NextAddition(e: VersionEdit, i: nat)
    requires i < |e.added|
    ensures forall l :: FileNumbers(FilesAt(e.added[..i + 1], l))
                     == FileNumbers(FilesAt(e.added[..i], l)) + if e.added[i].level == l then {e.added[i].file.number} else {}
  {
    assert e.added[..i + 1][..i] == e.added[..i];
    forall l ensures FileNumbers(FilesAt(e.added[..i + 1], l))
                  == FileNumbers(FilesAt(e.added[..i], l)) + if e.added[i].level == l then {e.added[i].file.number} else {}
    {
      LastAddition(e.added[..i + 1], l);
      NumbersOfUnion(FilesAt(e.added[..i], l), e.added[i].file);
    }
  }

  lemma NumbersOfUnion(files: set<File>, f: File)
    ensures FileNumbers(files + {f}) == FileNumbers(files) + {f.number}
  {
    assert f in files + {f};
    forall n | n in FileNumbers(files) ensures n in FileNumbers(files + {f}) {
      var g :| g in files && g.number == n;
      assert g in files + {f};
    }
  }

  // ---- Recovery replays the manifest through one builder

  // Edit i adds the file at the level.
  ghost predicate AddsAt(edits: seq<VersionEdit>, i: nat, level: nat, f: File) {
    i < |edits| && f in Added(edits[i], level)
  }

  // A (level, number) pair is never added twice, nor added where the base already has it.
  ghost predicate NeverReadded(base: Version, edits: seq<VersionEdit>) {
    && (forall level, i, f, g | 0 <= level < NUM_LEVELS && AddsAt(edits, i, level, f) && g in base[level] ::
          f.number != g.number)
    && (forall level, i, j, f, g | 0 <= level < NUM_LEVELS && AddsAt(edits, i, level, f) && AddsAt(edits, j, level, g)
          && f.number == g.number :: i == j && f == g)
  }

  lemma {:induction false} CollectedFrom(edits: seq<VersionEdit>, n: nat, level: nat, f: File) returns (j: nat)
    requires n <= |edits| && f in CollectAll(edits[..n], level).added
    ensures j < n && AddsAt(edits, j, level, f)
  {
    assert edits[..n][..n - 1] == edits[..n - 1];
    j := n - 1;
    if f !in Added(edits[n - 1], level) {
      j := CollectedFrom(edits, n - 1, level, f);
    }
  }

  lemma NeverReaddedMeansNoRevival(base: Version, edits: seq<VersionEdit>, level: nat)
    requires level < NUM_LEVELS && NeverReadded(base, edits)
    ensures NoRevival(Elems(base[level]), edits, level)
  {
    forall i, f, g | 0 <= i < |edits| ensures !Revives(Elems(base[level]), edits, level, i, f, g) {
      var hint := AddsAt(edits, i, level, f);
      if g in CollectAll(edits[..i], level).added {
        var j := CollectedFrom(edits, i, level, g);
      }
    }
    forall i | 0 <= i < |edits| ensures RevivesNothing(Elems(base[level]), edits, level, i) {
    }
  }

  // ---- The vectors hold what the edits say

  lemma {:induction false} InsertAllElems(files: seq<File>, added: seq<NewFile>, level: nat)
    requires StrictlySorted(files)
    ensures StrictlySorted(InsertAll(files, added, level))
    ensures forall f :: f in InsertAll(files, added, level) ==>
              f in files || exists a :: a in added && a.level == level && a.file == f
  {
    if added != [] {
      var n := |added| - 1;
      InsertAllElems(files, added[..n], level);
      InsertFileSorts(added[n].file, InsertAll(files, added[..n], level));
      assert added == added[..n] + [added[n]];
    }
  }

  // Files that claim a slot of the level's ordered set are the same file.
  ghost predicate OnePerSlot(files: set<File>) {
    forall f, g :: f in files && g in files && SameSlot(f, g) ==> f == g
  }

  lemma {:induction false} InsertAllKeeps(files: seq<File>, added: seq<NewFile>, level: nat)
    requires StrictlySorted(files)
    requires OnePerSlot(Elems(files) + FilesAt(added, level))
    ensures Elems(InsertAll(files, added, level)) == Elems(files) + FilesAt(added, level)
  {
    if added != [] {
      var n := |added| - 1;
      var front := InsertAll(files, added[..n], level);
      LastAddition(added, level);
      InsertAllElems(files, added[..n], level);
      InsertAllKeeps(files, added[..n], level);
      if added[n].level == level {
        forall g | g in front && SameSlot(added[n].file, g) ensures g == added[n].file {
          assert g in Elems(front);
        }
        InsertFileSorts(added[n].file, front);
      }
    }
  }

  lemma {:induction false} GatheredElems(edits: seq<VersionEdit>, level: nat)
    requires OnePerSlot(CollectAll(edits, level).added)
    ensures StrictlySorted(Gathered(edits, level)) && Elems(Gathered(edits, level)) == CollectAll(edits, level).added
  {
    if edits != [] {
      var n := |edits| - 1;
      GatheredElems(edits[..n], level);
      InsertAllElems(Gathered(edits[..n], level), edits[n].added, level);
      InsertAllKeeps(Gathered(edits[..n], level), edits[n].added, level);
    }
  }

  lemma SlotsStayApart(base: Version, edits: seq<VersionEdit>, level: nat)
    requires level < NUM_LEVELS && NeverReadded(base, edits)
    ensures OnePerSlot(CollectAll(edits, level).added)
    ensures forall f, g :: f in base[level] && g in CollectAll(edits, level).added ==> !SameSlot(f, g)
  {
    assert edits[..|edits|] == edits;
    forall g, h | g in CollectAll(edits, level).added && h in CollectAll(edits, level).added && SameSlot(g, h)
      ensures g == h
    {
      var j := CollectedFrom(edits, |edits|, level, g);
      var k := CollectedFrom(edits, |edits|, level, h);
    }
    forall f, g | f in base[level] && g in CollectAll(edits, level).added ensures !SameSlot(f, g) {
      var j := CollectedFrom(edits, |edits|, level, g);
    }
  }

  // One builder's vectors are sorted and hold what applying the edits one at a time leaves.
  lemma ReplayMeaning(base: Version, edits: seq<VersionEdit>, level: nat)
    requires level < NUM_LEVELS && StrictlySorted(base[level]) && NeverReadded(base, edits)
    ensures StrictlySorted(Replay(base, edits)[level])
    ensures Elems(Replay(base, edits)[level]) == ApplyEach(Elems(base[level]), edits, level)
  {
    SlotsStayApart(base, edits, level);
    GatheredElems(edits, level);
    var added := Gathered(edits, level);
    assert SlotsApart(base[level], added) by {
      forall f, g | f in base[level] && g in added ensures !SameSlot(f, g) {
        assert g in Elems(added);
      }
    }
    MergeSortedSorts(base[level], added);
    SurvivorsSorted(MergeSorted(base[level], added), CollectAll(edits, level).deleted);
    NeverReaddedMeansNoRevival(base, edits, level);
    OneBuilderIff(Elems(base[level]), edits, level);
    assert edits[..|edits|] == edits && OneBuilderSuffices(Elems(base[level]), edits[..|edits|], level);
    forall f ensures f in Replay(base, edits)[level] <==> f in Save(Elems(base[level]), CollectAll(edits, level)) {
      assert f in added <==> f in Elems(added);
    }
  }

  // ---- One builder per edit

  // VersionSet::LogAndApply's new version: a fresh builder for the one edit.
  method ApplyEdit(current: Version, e: VersionEdit) returns (v: Version)
    requires EditOk(e)
    ensures v == Replay(current, [e])
    ensures SortedLevels(current) && NeverReadded(current, [e]) ==>
              SortedLevels(v) && forall l :: 0 <= l < NUM_LEVELS ==>
                Elems(v[l]) == Save(Elems(current[l]), Collect(Pending({}, {}), e, l))
  {
    var builder := new Builder(current);
    builder.Apply(e);
    assert builder.applied == [e];
    v := builder.SaveTo();
    if SortedLevels(current) && NeverReadded(current, [e]) {
      forall l | 0 <= l < NUM_LEVELS
        ensures StrictlySorted(v[l]) && Elems(v[l]) == Save(Elems(current[l]), Collect(Pending({}, {}), e, l))
      {
        ReplayMeaning(current, [e], l);
        assert [e][..0] == [] && ApplyEach(Elems(current[l]), [], l) == Elems(current[l]);
      }
    }
  }

  // The versions of the running database: one LogAndApply after another.
  ghost function Chain(base: Version, edits: seq<VersionEdit>): Version {
    if edits == [] then base else Replay(Chain(base, edits[..|edits| - 1]), [edits[|edits| - 1]])
  }

  lemma NeverReaddedFront(base: Version, edits: seq<VersionEdit>, n: nat)
    requires NeverReadded(base, edits) && n <= |edits|
    ensures NeverReadded(base, edits[..n])
  {
    forall level, i, f | AddsAt(edits[..n], i, level, f) ensures AddsAt(edits, i, level, f) {
    }
  }

  lemma {:induction false} AppliedFrom(base: set<File>, edits: seq<VersionEdit>, n: nat, level: nat, f: File)
    requires n <= |edits| && f in ApplyEach(base, edits[..n], level)
    ensures f in base || exists j :: 0 <= j < n && AddsAt(edits, j, level, f)
  {
    if n > 0 {
      assert edits[..n][..n - 1] == edits[..n - 1];
      if f in ApplyEach(base, edits[..n - 1], level) {
        AppliedFrom(base, edits, n - 1, level, f);
      } else {
        assert AddsAt(edits, n - 1, level, f);
      }
    }
  }

  lemma NextNeverReadds(base: Version, edits: seq<VersionEdit>, v: Version)
    requires edits != [] && NeverReadded(base, edits)
    requires forall l :: 0 <= l < NUM_LEVELS ==> Elems(v[l]) == ApplyEach(Elems(base[l]), edits[..|edits| - 1], l)
    ensures NeverReadded(v, edits[|edits| - 1..])
  {
    var n := |edits| - 1;
    var last := edits[n..];
    forall level, i, f | AddsAt(last, i, level, f) ensures i == 0 && AddsAt(edits, n, level, f) {
    }
    forall level, i, f, g | 0 <= level < NUM_LEVELS && AddsAt(last, i, level, f) && g in v[level]
      ensures f.number != g.number
    {
      assert g in Elems(v[level]);
      AppliedFrom(Elems(base[level]), edits, n, level, g);
      assert AddsAt(edits, n, level, f);
    }
  }

  lemma {:induction false} ChainMeaning(base: Version, edits: seq<VersionEdit>)
    requires SortedLevels(base) && NeverReadded(base, edits)
    ensures SortedLevels(Chain(base, edits))
    ensures forall l :: 0 <= l < NUM_LEVELS ==> Elems(Chain(base, edits)[l]) == ApplyEach(Elems(base[l]), edits, l)
  {
    if edits != [] {
      var n := |edits| - 1;
      NeverReaddedFront(base, edits, n);
      ChainMeaning(base, edits[..n]);
      var v := Chain(base, edits[..n]);
      NextNeverReadds(base, edits, v);
      assert edits[n..] == [edits[n]];
      forall l | 0 <= l < NUM_LEVELS
        ensures StrictlySorted(Chain(base, edits)[l])
        ensures Elems(Chain(base, edits)[l]) == ApplyEach(Elems(base[l]), edits, l)
      {
        ReplayMeaning(v, [edits[n]], l);
        assert [edits[n]][..0] == [] && ApplyEach(Elems(v[l]), [], l) == Elems(v[l]);
      }
    }
  }

  // One builder over all edits makes the same vectors as one builder per edit.
  lemma ReplayIsChain(base: Version, edits: seq<VersionEdit>)
    requires SortedLevels(base) && NeverReadded(base, edits)
    ensures Replay(base, edits) == Chain(base, edits)
  {
    ChainMeaning(base, edits);
    forall l | 0 <= l < NUM_LEVELS ensures Replay(base, edits)[l] == Chain(base, edits)[l] {
      ReplayMeaning(base, edits, l);
      SortedVectorIsUnique(Replay(base, edits)[l], Chain(base, edits)[l]);
    }
  }

  // ---- A new manifest starts with a snapshot of the current version

  const EMPTY: Version := [[], [], [], [], [], [], []]

  ghost function Snapshot(v: Version): VersionEdit { VersionEdit({}, Listed(v, NUM_LEVELS)) }

  ghost function Listed(v: Version, levels: nat): (r: seq<NewFile>)
    requires levels <= NUM_LEVELS
  {
    if levels == 0 then [] else
    Listed(v, levels - 1) + seq(|v[levels - 1]|, i requires 0 <= i < |v[levels - 1]| => NewFile(levels - 1, v[levels - 1][i]))
  }

  lemma {:induction false} ListedMembers(v: Version, levels: nat, a: NewFile)
    requires levels <= NUM_LEVELS
    ensures a in Listed(v, levels) <==> a.level < levels && a.file in v[a.level]
  {
    if levels > 0 {
      ListedMembers(v, levels - 1, a);
      var files := v[levels - 1];
      var tail := seq(|files|, i requires 0 <= i < |files| => NewFile(levels - 1, files[i]));
      if a.level == levels - 1 && a.file in files {
        var i :| 0 <= i < |files| && files[i] == a.file;
        assert tail[i] == a;
      }
    }
  }

  // The loops of WriteSnapshot over the files
  method WriteSnapshot(current: Version) returns (e: VersionEdit)
    ensures e == Snapshot(current) && EditOk(e)
  {
    var added: seq<NewFile> := [];
    var level := 0;
    while level < NUM_LEVELS
      invariant 0 <= level <= NUM_LEVELS && added == Listed(current, level)
    {
      ghost var before := added;
      var files := current[level];
      var i := 0;
      while i < |files|
        invariant 0 <= i <= |files|
        invariant added == before + seq(i, k requires 0 <= k < i => NewFile(level, files[k]))
      {
        added := added + [NewFile(level, files[i])];
        i := i + 1;
      }
      level := level + 1;
    }
    e := VersionEdit({}, added);
    forall a | a in added ensures a.level < NUM_LEVELS {
      ListedMembers(current, NUM_LEVELS, a);
    }
  }

  // A file number stands once on a level.
  ghost predicate NumbersDistinct(v: Version) {
    forall l, f, g :: 0 <= l < NUM_LEVELS && f in v[l] && g in v[l] && f.number == g.number ==> f == g
  }

  lemma SnapshotAdds(v: Version, level: nat)
    requires level < NUM_LEVELS
    ensures Added(Snapshot(v), level) == Elems(v[level])
  {
    forall f ensures f in Added(Snapshot(v), level) <==> f in v[level] {
      ListedMembers(v, NUM_LEVELS, NewFile(level, f));
    }
  }

  lemma SnapshotNeverReadds(v: Version, edits: seq<VersionEdit>)
    requires NumbersDistinct(v) && NeverReadded(v, edits)
    ensures NeverReadded(EMPTY, [Snapshot(v)] + edits)
  {
    var all := [Snapshot(v)] + edits;
    forall level: nat, i: nat, f | level < NUM_LEVELS && AddsAt(all, i, level, f)
      ensures if i == 0 then f in v[level] else AddsAt(edits, i - 1, level, f)
    {
      SnapshotAdds(v, level);
    }
  }

  lemma SnapshotRestores(v: Version)
    requires SortedLevels(v) && NumbersDistinct(v)
    ensures Replay(EMPTY, [Snapshot(v)]) == v
  {
    assert NeverReadded(v, []);
    SnapshotNeverReadds(v, []);
    assert [Snapshot(v)] + [] == [Snapshot(v)];
    forall l | 0 <= l < NUM_LEVELS ensures Replay(EMPTY, [Snapshot(v)])[l] == v[l] {
      ReplayMeaning(EMPTY, [Snapshot(v)], l);
      SnapshotAdds(v, l);
      assert [Snapshot(v)][..0] == [] && ApplyEach({}, [], l) == {};
      assert Deleted(Snapshot(v), l) == {};
      SortedVectorIsUnique(Replay(EMPTY, [Snapshot(v)])[l], v[l]);
    }
  }

  lemma {:induction false} ChainFromSnapshot(v: Version, edits: seq<VersionEdit>)
    requires SortedLevels(v) && NumbersDistinct(v)
    ensures Chain(EMPTY, [Snapshot(v)] + edits) == Chain(v, edits)
  {
    hide Replay, Snapshot, SortedLevels, NumbersDistinct;
    var all := [Snapshot(v)] + edits;
    var n := |edits|;
    if n == 0 {
      SnapshotRestores(v);
      assert all == [Snapshot(v)] && all[..0] == [] && Chain(EMPTY, []) == EMPTY;
    } else {
      ChainFromSnapshot(v, edits[..n - 1]);
      assert all[..n] == [Snapshot(v)] + edits[..n - 1] && all[n] == edits[n - 1] && |all| == n + 1;
    }
  }

  // Recovery from a manifest: the snapshot of a version and all later edits, through one
  // builder, give exactly the vectors the running database had.
  lemma ManifestRestoresVersion(v: Version, edits: seq<VersionEdit>)
    requires SortedLevels(v) && NumbersDistinct(v) && NeverReadded(v, edits)
    ensures Replay(EMPTY, [Snapshot(v)] + edits) == Chain(v, edits)
  {
    SnapshotNeverReadds(v, edits);
    ReplayIsChain(EMPTY, [Snapshot(v)] + edits);
    ChainFromSnapshot(v, edits);
  }

  // On a disjoint level the sorted vector is in key order.
  lemma SortedDisjointIsInOrder(files: seq<File>)
    requires StrictlySorted(files) && Disjoint(Elems(files))
    ensures InOrder(files)
  {
    forall i, j | 0 <= i < j < |files| ensures FileBefore(files[i], files[j]) {
      ByKeyIsTotal(files[i], files[j]);
      ByKeyIsTotal(files[i], files[i]);
      assert files[i] in Elems(files) && files[j] in Elems(files) && files[i] != files[j];
      EntryWithinBounds(files[i], files[i].entries[0]);
      EntryWithinBounds(files[j], files[j].entries[0]);
    }
  }

  lemma SortedIsVersionInv(v: Version)
    requires SortedLevels(v) && TreeInv(TreeOf(v))
    ensures VersionInv(v)
  {
    forall l | 1 <= l < NUM_LEVELS ensures InOrder(v[l]) {
      assert TreeOf(v)[l] == Elems(v[l]);
      SortedDisjointIsInOrder(v[l]);
    }
  }
}
