/** Running a compaction: the base-level test with its persistent cursors, where outputs are
    cut, and the merge loop of DoCompactionWork. */
module Compactions {
  import opened InternalKeys
  import opened Versions
  import opened LevelRanges
  import opened Picking
  import opened DropRule

  // No table at level + 2 or deeper has the key in its range.
  ghost predicate IsBaseKey(t: Tree, level: nat, key: UserKey) {
    forall l, f :: level + 2 <= l < NUM_LEVELS && f in t[l] ==> !Meets(f, key, key)
  }

  ghost function BaseKeys(t: Tree, level: nat): iset<UserKey> {
    iset key: UserKey | IsBaseKey(t, level, key)
  }

  // Every file a cursor has passed ends before the last key asked about.
  ghost predicate CursorOk(files: seq<File>, ptr: nat, asked: Option<UserKey>) {
    ptr <= |files| && forall i :: 0 <= i < ptr ==> asked.Some? && Hi(files[i]) < asked.value
  }

  // The mutable part of a running compaction.
  class CompactionScan {
    const version: Version
    const level: nat
    const grandparents: seq<File>
    const targetFileSize: nat
    var levelPtrs: seq<nat>
    var grandparentIndex: nat
    var seenKey: bool
    var overlappedBytes: nat
    ghost var asked: Option<UserKey>

    constructor (version: Version, c: Compaction, targetFileSize: nat)
      ensures Unstarted()
      ensures this.version == version && level == c.level && this.targetFileSize == targetFileSize
    {
      this.version, level, grandparents := version, c.level, c.grandparents;
      this.targetFileSize := targetFileSize;
      levelPtrs := seq(NUM_LEVELS, _ => 0);
      grandparentIndex, seenKey, overlappedBytes := 0, false, 0;
      asked := None;
    }

    ghost predicate Valid()
      reads this
    {
      CursorsOk() && grandparentIndex <= |grandparents|
    }

    // As the constructor leaves it
    ghost predicate Unstarted()
      reads this
    {
      Valid() && asked.None? && grandparentIndex == 0 && !seenKey && overlappedBytes == 0
    }

    ghost predicate CursorsOk()
      reads this`levelPtrs, this`asked
    {
      |levelPtrs| == NUM_LEVELS && forall l :: 0 <= l < NUM_LEVELS ==> CursorOk(version[l], levelPtrs[l], asked)
    }

    // Compaction::IsBaseLevelForKey, asked with non-decreasing keys.
    method IsBaseLevelForKey(key: UserKey) returns (r: bool)
      requires VersionInv(version) && Valid() && (asked.Some? ==> asked.value <= key)
      modifies this`levelPtrs, this`asked
      ensures Valid() && asked == Some(key)
      ensures r <==> forall l, f :: level + 2 <= l <= 6 && f in version[l] ==> !Meets(f, key, key)
      ensures r <==> key in BaseKeys(TreeOf(version), level)
    {
      asked := Some(key);
      BaseKeyMeans(version, level, key);
      hide BaseKeys, IsBaseKey, TreeOf;
      var lvl := level + 2;
      while lvl < NUM_LEVELS
        invariant Valid() && asked == Some(key)
        invariant forall l, f :: level + 2 <= l < lvl && l < NUM_LEVELS && f in version[l] ==> !Meets(f, key, key)
      {
        while levelPtrs[lvl] < |version[lvl]|
          invariant Valid() && asked == Some(key)
          invariant forall l, f :: level + 2 <= l < lvl && l < NUM_LEVELS && f in version[l] ==> !Meets(f, key, key)
          decreases |version[lvl]| - levelPtrs[lvl]
        {
          var f := version[lvl][levelPtrs[lvl]];
          if key <= Hi(f) {
            if key >= Lo(f) {
              assert f in version[lvl] && Meets(f, key, key);
              return false;
            }
            break;
          }
          levelPtrs := levelPtrs[lvl := levelPtrs[lvl] + 1];
        }
        CursorClearsLevel(version[lvl], levelPtrs[lvl], key);
        lvl := lvl + 1;
      }
      r := true;
    }

    // Compaction::ShouldStopBefore: the cursor moves to the first grandparent not before the
    // key, and the sizes passed since the last cut are compared with the limit.
    method ShouldStopBefore(key: InternalKey) returns (r: bool)
      requires Valid()
      modifies this`grandparentIndex, this`seenKey, this`overlappedBytes
      ensures Valid() && seenKey
      ensures old(grandparentIndex) <= grandparentIndex
      ensures forall i :: old(grandparentIndex) <= i < grandparentIndex ==> Before(Largest(grandparents[i]), key)
      ensures grandparentIndex < |grandparents| ==> !Before(Largest(grandparents[grandparentIndex]), key)
      ensures var passed := old(overlappedBytes)
                + if old(seenKey) then TotalFileSize(grandparents[old(grandparentIndex)..grandparentIndex]) else 0;
              (r <==> passed > 10 * targetFileSize)
              && overlappedBytes == if r then 0 else passed
    {
      ghost var from := grandparentIndex;
      assert grandparents[from..grandparentIndex] == [];
      while grandparentIndex < |grandparents| && Before(Largest(grandparents[grandparentIndex]), key)
        invariant Valid() && from <= grandparentIndex && seenKey == old(seenKey)
        invariant forall i :: from <= i < grandparentIndex ==> Before(Largest(grandparents[i]), key)
        invariant overlappedBytes == old(overlappedBytes)
                  + if seenKey then TotalFileSize(grandparents[from..grandparentIndex]) else 0
      {
        ghost var passed := grandparents[from..grandparentIndex + 1];
        assert passed[..|passed| - 1] == grandparents[from..grandparentIndex];
        if seenKey {
          overlappedBytes := overlappedBytes + grandparents[grandparentIndex].size;
        }
        grandparentIndex := grandparentIndex + 1;
      }
      seenKey := true;
      if overlappedBytes > MaxGrandParentOverlapBytes(targetFileSize) {
        overlappedBytes := 0;
        r := true;
      } else {
        r := false;
      }
    }
  }

  lemma BaseKeyMeans(v: Version, level: nat, key: UserKey)
    ensures key in BaseKeys(TreeOf(v), level) <==> forall l, f :: level + 2 <= l <= 6 && f in v[l] ==> !Meets(f, key, key)
  {
    forall l, f | level + 2 <= l <= 6 ensures f in TreeOf(v)[l] <==> f in v[l] {
    }
  }

  lemma CursorClearsLevel(files: seq<File>, ptr: nat, key: UserKey)
    requires InOrder(files) && ptr <= |files|
    requires forall i :: 0 <= i < ptr ==> Hi(files[i]) < key
    requires ptr < |files| ==> key < Lo(files[ptr])
    ensures forall f :: f in files ==> !Meets(f, key, key)
  {
    forall f | f in files ensures !Meets(f, key, key) {
      var i :| 0 <= i < |files| && files[i] == f;
      if ptr < i {
        assert FileBefore(files[ptr], files[i]);
        EntryWithinBounds(files[ptr], files[ptr].entries[0]);
      }
    }
  }

  // ---- The merge loop

  function Flatten(files: seq<File>): seq<Entry> {
    if files == [] then [] else Flatten(files[..|files| - 1]) + files[|files| - 1].entries
  }

  lemma {:induction false} FlattenMembers(files: seq<File>)
    ensures Elems(Flatten(files)) == FilesEntries(Elems(files))
  {
    if files != [] {
      var n := |files| - 1;
      FlattenMembers(files[..n]);
      assert files == files[..n] + [files[n]];
      forall e ensures e in Flatten(files) <==> e in FilesEntries(Elems(files)) {
        assert e in Flatten(files[..n]) <==> e in FilesEntries(Elems(files[..n]));
      }
    }
  }

  // The tables finished so far and the one being built hold exactly the entries kept so far.
  ghost predicate Written(outputs: seq<File>, builder: seq<Entry>, kept: seq<Entry>) {
    && Flatten(outputs) + builder == kept
    && Sorted(kept)
    && InOrder(outputs)
    && (forall f, e :: f in outputs && e in builder ==> Before(Largest(f), e.ikey))
  }

  lemma FinishTable(outputs: seq<File>, builder: seq<Entry>, kept: seq<Entry>, f: File)
    requires Written(outputs, builder, kept) && f.entries == builder
    ensures Written(outputs + [f], [], kept)
  {
    assert (outputs + [f])[..|outputs|] == outputs;
    assert f.entries[0] in builder;
  }

  lemma AddToTable(outputs: seq<File>, builder: seq<Entry>, kept: seq<Entry>, e: Entry)
    requires Written(outputs, builder, kept) && Sorted(kept + [e])
    ensures Written(outputs, builder + [e], kept + [e])
  {
    FlattenMembers(outputs);
    forall f | f in outputs ensures Before(Largest(f), e.ikey) {
      var last := f.entries[|f.entries| - 1];
      assert f in Elems(outputs) && last in f.entries;
      assert last in FilesEntries(Elems(outputs));
      assert last in Elems(Flatten(outputs));
      var i :| 0 <= i < |Flatten(outputs)| && Flatten(outputs)[i] == last;
      assert (kept + [e])[i] == last && (kept + [e])[|kept|] == e;
    }
  }

  lemma BuilderIsSorted(outputs: seq<File>, builder: seq<Entry>, kept: seq<Entry>)
    requires Written(outputs, builder, kept)
    ensures Sorted(builder)
  {
    var n := |Flatten(outputs)|;
    forall i, j | 0 <= i < j < |builder| ensures Before(builder[i].ikey, builder[j].ikey) {
      assert kept[n + i] == builder[i] && kept[n + j] == builder[j];
    }
  }

  // ---- Where outputs are cut

  // The grandparents that end before a key
  ghost function Passed(gps: seq<File>, key: InternalKey): (n: nat)
    ensures n <= |gps|
    ensures forall i :: 0 <= i < n ==> Before(Largest(gps[i]), key)
    ensures n < |gps| ==> !Before(Largest(gps[n]), key)
  {
    if gps == [] || !Before(Largest(gps[0]), key) then 0 else 1 + Passed(gps[1..], key)
  }

  // The grandparent bytes between two keys
  ghost function BytesBetween(gps: seq<File>, a: InternalKey, b: InternalKey): nat
    requires NotAfter(a, b)
  {
    PassedGrows(gps, a, b);
    TotalFileSize(gps[Passed(gps, a)..Passed(gps, b)])
  }

  // The grandparent bytes a table spans from its first to its last key
  ghost function SpannedBytes(gps: seq<File>, o: File): nat {
    EntryWithinBounds(o, o.entries[0]);
    BytesBetween(gps, Smallest(o), Largest(o))
  }

  lemma PassedGrows(gps: seq<File>, a: InternalKey, b: InternalKey)
    requires NotAfter(a, b)
    ensures Passed(gps, a) <= Passed(gps, b)
  {
    var n := Passed(gps, b);
    if n < Passed(gps, a) {
      var hint := Before(Largest(gps[n]), a);
    }
  }

  lemma {:induction false} SizeOfSplit(files: seq<File>, a: nat, b: nat, c: nat)
    requires a <= b <= c <= |files|
    ensures TotalFileSize(files[a..c]) == TotalFileSize(files[a..b]) + TotalFileSize(files[b..c])
    decreases c
  {
    if b < c {
      SizeOfSplit(files, a, b, c - 1);
      assert files[a..c][..c - a - 1] == files[a..c - 1] && files[b..c][..c - b - 1] == files[b..c - 1];
    } else {
      assert files[b..c] == [];
    }
  }

  lemma InputOrder(input: seq<Entry>, a: nat, b: nat)
    requires Sorted(input) && a <= b < |input|
    ensures NotAfter(input[a].ikey, input[b].ikey) && (a < b ==> Before(input[a].ikey, input[b].ikey))
  {
  }

  // The grandparents say stop at input[j]: those passed since the last stop before it, or since
  // the first key, weigh more than the limit.
  ghost predicate StopsAt(gps: seq<File>, limit: nat, input: seq<Entry>, j: nat)
    requires Sorted(input) && j < |input|
    decreases j, 2
  {
    BytesSinceStop(gps, limit, input, j) > limit
  }

  ghost function BytesSinceStop(gps: seq<File>, limit: nat, input: seq<Entry>, j: nat): nat
    requires Sorted(input) && j < |input|
    decreases j, 1
  {
    InputOrder(input, LastStop(gps, limit, input, j), j);
    BytesBetween(gps, input[LastStop(gps, limit, input, j)].ikey, input[j].ikey)
  }

  ghost function LastStop(gps: seq<File>, limit: nat, input: seq<Entry>, j: nat): (s: nat)
    requires Sorted(input) && j < |input|
    ensures s <= j
    decreases j, 0
  {
    if j == 0 then 0 else if StopsAt(gps, limit, input, j - 1) then j - 1 else LastStop(gps, limit, input, j - 1)
  }

  // A stop at a key behind a and not behind b
  ghost predicate StopBetween(gps: seq<File>, limit: nat, input: seq<Entry>, a: InternalKey, b: InternalKey)
    requires Sorted(input)
  {
    exists j :: 0 <= j < |input| && Before(a, input[j].ikey) && NotAfter(input[j].ikey, b) && StopsAt(gps, limit, input, j)
  }

  lemma {:induction false} NoStopSince(gps: seq<File>, limit: nat, input: seq<Entry>, a: nat, b: nat)
    requires Sorted(input) && a <= b < |input|
    requires forall j :: a < j < b ==> !StopsAt(gps, limit, input, j)
    ensures LastStop(gps, limit, input, b) <= a
    decreases b
  {
    if a < b {
      NoStopSince(gps, limit, input, a, b - 1);
    }
  }

  // A table without a stop inside spans no more than the limit.
  lemma NoStopSpans(gps: seq<File>, limit: nat, input: seq<Entry>, o: File, a: nat, b: nat)
    requires Sorted(input) && a < |input| && b < |input| && input[a].ikey == Smallest(o) && input[b].ikey == Largest(o)
    requires !StopBetween(gps, limit, input, Smallest(o), Largest(o))
    ensures SpannedBytes(gps, o) <= limit
  {
    EntryWithinBounds(o, o.entries[0]);
    if b < a {
      InputOrder(input, b, a);
    } else if a == b {
      assert gps[Passed(gps, Smallest(o))..Passed(gps, Smallest(o))] == [];
    } else {
      forall j | a < j <= b ensures !StopsAt(gps, limit, input, j) {
        InputOrder(input, a, j);
        InputOrder(input, j, b);
      }
      NoStopSince(gps, limit, input, a, b);
      var s := LastStop(gps, limit, input, b);
      InputOrder(input, s, a);
      assert !StopsAt(gps, limit, input, b) && BytesSinceStop(gps, limit, input, b) <= limit;
      PassedGrows(gps, input[s].ikey, input[a].ikey);
      PassedGrows(gps, input[a].ikey, input[b].ikey);
      SizeOfSplit(gps, Passed(gps, input[s].ikey), Passed(gps, input[a].ikey), Passed(gps, input[b].ikey));
    }
  }

  // A table is ended only when it has its size or the grandparents stop it before the next one.
  ghost predicate EndsFor(gps: seq<File>, limit: nat, input: seq<Entry>, o: File, next: InternalKey,
                          tableSize: seq<Entry> -> nat, maxSize: nat)
    requires Sorted(input)
  {
    tableSize(o.entries) >= maxSize || StopBetween(gps, limit, input, Largest(o), next)
  }

  // A table goes on neither over a stop nor after reaching its size.
  ghost predicate EndsInTime(gps: seq<File>, limit: nat, input: seq<Entry>, o: File,
                             tableSize: seq<Entry> -> nat, maxSize: nat)
    requires Sorted(input)
  {
    && !StopBetween(gps, limit, input, Smallest(o), Largest(o))
    && forall k :: 0 < k < |o.entries| ==> tableSize(o.entries[..k]) < maxSize
  }

  ghost predicate WellCut(gps: seq<File>, limit: nat, input: seq<Entry>, outputs: seq<File>,
                          tableSize: seq<Entry> -> nat, maxSize: nat)
    requires Sorted(input)
  {
    && (forall o :: o in outputs ==> EndsInTime(gps, limit, input, o, tableSize, maxSize))
    && (forall k :: 0 <= k < |outputs| - 1 ==>
          EndsFor(gps, limit, input, outputs[k], Smallest(outputs[k + 1]), tableSize, maxSize))
  }

  // Before input[i], the cursor stands behind the grandparents passed, and the bytes counted
  // are those since the last stop.
  ghost predicate CursorInv(gps: seq<File>, limit: nat, input: seq<Entry>, i: nat, index: nat, seen: bool, bytes: nat)
    requires Sorted(input) && i <= |input|
  {
    if i == 0 then index == 0 && !seen && bytes == 0
    else
      && seen && index == Passed(gps, input[i - 1].ikey)
      && bytes == if StopsAt(gps, limit, input, i - 1) then 0 else BytesSinceStop(gps, limit, input, i - 1)
  }

  // The key the next table begins with at the earliest
  ghost function NextFrom(input: seq<Entry>, i: nat, builder: seq<Entry>): InternalKey
    requires 0 < i <= |input|
  {
    if builder != [] then builder[0].ikey else input[i - 1].ikey
  }

  // The tables written are well cut, the last one was ended for a reason, and the one being
  // built may go on.
  ghost predicate CutInv(gps: seq<File>, limit: nat, input: seq<Entry>, i: nat,
                         outputs: seq<File>, builder: seq<Entry>, tableSize: seq<Entry> -> nat, maxSize: nat)
    requires Sorted(input) && i <= |input|
  {
    && WellCut(gps, limit, input, outputs, tableSize, maxSize)
    && (outputs != [] || builder != [] ==> i > 0)
    && (outputs != [] ==>
          EndsFor(gps, limit, input, outputs[|outputs| - 1], NextFrom(input, i, builder), tableSize, maxSize))
    && (builder != [] ==> && NotAfter(builder[|builder| - 1].ikey, input[i - 1].ikey)
                          && !StopBetween(gps, limit, input, builder[0].ikey, input[i - 1].ikey))
    && (forall k :: 0 < k <= |builder| ==> tableSize(builder[..k]) < maxSize)
  }

  // ShouldStopBefore, asked with one input key after another, answers exactly at the stops.
  lemma CursorMoves(gps: seq<File>, limit: nat, input: seq<Entry>, i: nat, index: nat, seen: bool, bytes: nat,
                    index': nat, bytes': nat, stop: bool)
    requires Sorted(input) && i < |input| && CursorInv(gps, limit, input, i, index, seen, bytes)
    requires index <= index' <= |gps| && (forall k :: index <= k < index' ==> Before(Largest(gps[k]), input[i].ikey))
    requires index' < |gps| ==> !Before(Largest(gps[index']), input[i].ikey)
    requires var passed := bytes + if seen then TotalFileSize(gps[index..index']) else 0;
             (stop <==> passed > limit) && bytes' == if stop then 0 else passed
    ensures stop <==> StopsAt(gps, limit, input, i)
    ensures CursorInv(gps, limit, input, i + 1, index', true, bytes')
  {
    var key := input[i].ikey;
    if i == 0 {
      CursorIsPassed(gps, index, key, index');
      assert gps[index'..index'] == [];
    } else {
      var previous := input[i - 1].ikey;
      var since := input[LastStop(gps, limit, input, i)].ikey;
      InputOrder(input, i - 1, i);
      InputOrder(input, LastStop(gps, limit, input, i), i - 1);
      PassedGrows(gps, previous, key);
      CursorIsPassed(gps, index, key, index');
      PassedGrows(gps, since, previous);
      if StopsAt(gps, limit, input, i - 1) {
        assert gps[index..index] == [];
      }
      SizeOfSplit(gps, Passed(gps, since), index, index');
    }
  }

  lemma CursorIsPassed(gps: seq<File>, index: nat, key: InternalKey, index': nat)
    requires index <= Passed(gps, key)
    requires index <= index' <= |gps| && (forall i :: index <= i < index' ==> Before(Largest(gps[i]), key))
    requires index' < |gps| ==> !Before(Largest(gps[index']), key)
    ensures index' == Passed(gps, key)
  {
    var n := Passed(gps, key);
    var hints := (n < |gps| && Before(Largest(gps[n]), key), index' < |gps| && Before(Largest(gps[index']), key));
  }

  // The next key changes nothing if no table is being built, or if it is no stop.
  lemma KeyPasses(gps: seq<File>, limit: nat, input: seq<Entry>, i: nat, outputs: seq<File>, builder: seq<Entry>,
                  tableSize: seq<Entry> -> nat, maxSize: nat)
    requires Sorted(input) && i < |input| && CutInv(gps, limit, input, i, outputs, builder, tableSize, maxSize)
    requires builder == [] || !StopsAt(gps, limit, input, i)
    ensures CutInv(gps, limit, input, i + 1, outputs, builder, tableSize, maxSize)
  {
    if i > 0 {
      InputOrder(input, i - 1, i);
      if outputs != [] && builder == [] {
        StopGrows(gps, limit, input, Largest(outputs[|outputs| - 1]), input[i - 1].ikey, input[i].ikey);
      }
      if builder != [] && StopBetween(gps, limit, input, builder[0].ikey, input[i].ikey) {
        var j :| 0 <= j < |input| && Before(builder[0].ikey, input[j].ikey) && NotAfter(input[j].ikey, input[i].ikey)
                 && StopsAt(gps, limit, input, j);
        var hints := (Before(input[i].ikey, input[j].ikey), NotAfter(input[j].ikey, input[i - 1].ikey));
      }
    }
  }

  lemma StopGrows(gps: seq<File>, limit: nat, input: seq<Entry>, a: InternalKey, b: InternalKey, c: InternalKey)
    requires Sorted(input) && NotAfter(b, c)
    ensures StopBetween(gps, limit, input, a, b) ==> StopBetween(gps, limit, input, a, c)
  {
    if StopBetween(gps, limit, input, a, b) {
      var j :| 0 <= j < |input| && Before(a, input[j].ikey) && NotAfter(input[j].ikey, b) && StopsAt(gps, limit, input, j);
      var hint := NotAfter(input[j].ikey, c);
    }
  }

  // The table being built ends before a stop.
  lemma TableStops(gps: seq<File>, limit: nat, input: seq<Entry>, i: nat, outputs: seq<File>, f: File,
                   tableSize: seq<Entry> -> nat, maxSize: nat)
    requires Sorted(input) && i < |input| && CutInv(gps, limit, input, i, outputs, f.entries, tableSize, maxSize)
    requires StopsAt(gps, limit, input, i)
    ensures CutInv(gps, limit, input, i + 1, outputs + [f], [], tableSize, maxSize)
  {
    InputOrder(input, i - 1, i);
    StopGrows(gps, limit, input, Smallest(f), Largest(f), input[i - 1].ikey);
    assert Before(Largest(f), input[i].ikey) && NotAfter(input[i].ikey, input[i].ikey);
    TableWritten(gps, limit, input, outputs, f, tableSize, maxSize);
  }

  lemma TableWritten(gps: seq<File>, limit: nat, input: seq<Entry>, outputs: seq<File>, f: File,
                     tableSize: seq<Entry> -> nat, maxSize: nat)
    requires Sorted(input) && WellCut(gps, limit, input, outputs, tableSize, maxSize)
    requires EndsInTime(gps, limit, input, f, tableSize, maxSize)
    requires outputs != [] ==> EndsFor(gps, limit, input, outputs[|outputs| - 1], Smallest(f), tableSize, maxSize)
    ensures WellCut(gps, limit, input, outputs + [f], tableSize, maxSize)
  {
    hide EndsInTime, EndsFor, Smallest;
  }

  // The entry at the cursor joins the table.
  lemma EntryJoins(gps: seq<File>, limit: nat, input: seq<Entry>, i: nat, outputs: seq<File>, builder: seq<Entry>,
                   tableSize: seq<Entry> -> nat, maxSize: nat)
    requires Sorted(input) && i < |input| && CutInv(gps, limit, input, i + 1, outputs, builder, tableSize, maxSize)
    requires tableSize(builder + [input[i]]) < maxSize
    ensures CutInv(gps, limit, input, i + 1, outputs, builder + [input[i]], tableSize, maxSize)
  {
    var b := builder + [input[i]];
    forall k | 0 < k <= |b| ensures tableSize(b[..k]) < maxSize {
      assert k <= |builder| ==> b[..k] == builder[..k];
      assert k == |b| ==> b[..k] == b;
    }
  }

  // The entry at the cursor joins the table and makes it reach its size.
  lemma TableFills(gps: seq<File>, limit: nat, input: seq<Entry>, i: nat, outputs: seq<File>, builder: seq<Entry>,
                   f: File, tableSize: seq<Entry> -> nat, maxSize: nat)
    requires Sorted(input) && i < |input| && CutInv(gps, limit, input, i + 1, outputs, builder, tableSize, maxSize)
    requires f.entries == builder + [input[i]] && tableSize(f.entries) >= maxSize
    ensures CutInv(gps, limit, input, i + 1, outputs + [f], [], tableSize, maxSize)
  {
    forall k | 0 < k < |f.entries| ensures tableSize(f.entries[..k]) < maxSize {
      assert f.entries[..k] == builder[..k];
    }
    TableWritten(gps, limit, input, outputs, f, tableSize, maxSize);
  }

  // The input ends with a table being built.
  lemma TableLeft(gps: seq<File>, limit: nat, input: seq<Entry>, i: nat, outputs: seq<File>, f: File,
                  tableSize: seq<Entry> -> nat, maxSize: nat)
    requires Sorted(input) && i <= |input| && CutInv(gps, limit, input, i, outputs, f.entries, tableSize, maxSize)
    ensures WellCut(gps, limit, input, outputs + [f], tableSize, maxSize)
  {
    StopGrows(gps, limit, input, Smallest(f), Largest(f), input[i - 1].ikey);
    TableWritten(gps, limit, input, outputs, f, tableSize, maxSize);
  }

  // ---- What the cuts mean for the tables

  // Where no two keys have more than the limit between them, the grandparents never stop a table.
  lemma LightGrandparentsNeverStop(gps: seq<File>, limit: nat, input: seq<Entry>, a: InternalKey, b: InternalKey)
    requires Sorted(input) && TotalFileSize(gps) <= limit
    ensures !StopBetween(gps, limit, input, a, b)
  {
    forall j | 0 <= j < |input| ensures !StopsAt(gps, limit, input, j) {
      var s := LastStop(gps, limit, input, j);
      InputOrder(input, s, j);
      PassedGrows(gps, input[s].ikey, input[j].ikey);
      var m, n := Passed(gps, input[s].ikey), Passed(gps, input[j].ikey);
      SizeOfSplit(gps, 0, m, n);
      SizeOfSplit(gps, 0, n, |gps|);
      assert gps[0..|gps|] == gps;
    }
  }

  // No table spans more of the grandparents than the limit; where they fit it altogether, every
  // table but the last has its size.
  lemma WellCutTables(gps: seq<File>, limit: nat, input: seq<Entry>, outputs: seq<File>,
                      tableSize: seq<Entry> -> nat, maxSize: nat)
    requires Sorted(input) && WellCut(gps, limit, input, outputs, tableSize, maxSize)
    requires forall e :: e in Flatten(outputs) ==> e in input
    ensures forall o :: o in outputs ==> SpannedBytes(gps, o) <= limit
    ensures TotalFileSize(gps) <= limit ==> forall k :: 0 <= k < |outputs| - 1 ==> tableSize(outputs[k].entries) >= maxSize
  {
    forall o | o in outputs ensures SpannedBytes(gps, o) <= limit {
      TableOfInput(input, outputs, o);
      var a :| 0 <= a < |input| && input[a] == o.entries[0];
      var b :| 0 <= b < |input| && input[b] == o.entries[|o.entries| - 1];
      NoStopSpans(gps, limit, input, o, a, b);
    }
    if TotalFileSize(gps) <= limit {
      forall k | 0 <= k < |outputs| - 1 ensures tableSize(outputs[k].entries) >= maxSize {
        LightGrandparentsNeverStop(gps, limit, input, Largest(outputs[k]), Smallest(outputs[k + 1]));
      }
    }
  }

  lemma TableOfInput(input: seq<Entry>, outputs: seq<File>, o: File)
    requires o in outputs && forall e :: e in Flatten(outputs) ==> e in input
    ensures o.entries[0] in input && o.entries[|o.entries| - 1] in input
  {
    FlattenMembers(outputs);
    forall e | e in o.entries ensures e in input {
      assert o in Elems(outputs);
      assert e in FilesEntries(Elems(outputs));
      assert e in Elems(Flatten(outputs));
    }
  }

  ghost predicate FreshNumbers(outputs: seq<File>, first: nat, next: nat) {
    next == first + |outputs| && forall i :: 0 <= i < |outputs| ==> outputs[i].number == first + i
  }

  // Which input entries a compaction keeps: all but those hidden from every live snapshot by a
  // newer entry of their key, and the deletion markers that no snapshot needs and below which no
  // table two levels down or deeper has the key.
  lemma KeptMeans(In: set<Entry>, smallestSnapshot: SeqNo, v: Version, level: nat, e: Entry)
    requires UniqueSeqs(In) && e in In
    ensures e in KeptSet(In, smallestSnapshot, BaseKeys(TreeOf(v), level)) <==>
              && !(exists x :: x in In && x.Key() == e.Key() && e.Seq() < x.Seq() <= smallestSnapshot)
              && !(e.ikey.kind == Deletion && e.Seq() <= smallestSnapshot
                   && forall l, f :: level + 2 <= l <= 6 && f in v[l] ==> !(Lo(f) <= e.Key() <= Hi(f)))
  {
    BaseKeyMeans(v, level, e.Key());
    if e.Seq() <= smallestSnapshot {
      forall x | x in In && x.Key() == e.Key() && x.Seq() <= smallestSnapshot
        ensures Candidate(In, e.Key(), smallestSnapshot, x)
      {
      }
    }
    hide BaseKeys;
    if (forall l, f :: level + 2 <= l <= 6 && f in v[l] ==> !(Lo(f) <= e.Key() <= Hi(f))) {
      assert forall l, f :: level + 2 <= l <= 6 && f in v[l] ==> !Meets(f, e.Key(), e.Key());
    } else {
      var l, f :| level + 2 <= l <= 6 && f in v[l] && Lo(f) <= e.Key() <= Hi(f);
      assert Meets(f, e.Key(), e.Key());
    }
  }

  // The tables DoCompactionWork writes are what the store installs: disjoint, and holding
  // exactly the entries of the drop rule.
  lemma WrittenTablesAreComplete(input: seq<Entry>, outputs: seq<File>, smallestSnapshot: SeqNo,
                                 baseKeys: iset<UserKey>)
    requires Sorted(input) && UniqueSeqs(Elems(input))
    requires Flatten(outputs) == Kept(input, |input|, smallestSnapshot, baseKeys) && InOrder(outputs)
    ensures Disjoint(Elems(outputs))
    ensures FilesEntries(Elems(outputs)) == KeptSet(Elems(input), smallestSnapshot, baseKeys)
  {
    InOrderIsDisjoint(outputs);
    FlattenMembers(outputs);
    KeptExactly(input, |input|, smallestSnapshot, baseKeys);
    assert input[..|input|] == input;
  }

  // DBImpl::DoCompactionWork over the merged entries of the inputs, with I/O succeeding and no
  // shutdown. The tables written are disjoint and hold exactly the kept entries, under fresh
  // numbers. A table ends when it reaches its size or the grandparents passed since the last
  // stop weigh more than ten tables, and for no other reason before the last.
  method DoCompactionWork(scan: CompactionScan, input: seq<Entry>, ghost inputs: set<File>, smallestSnapshot: SeqNo,
                          nextFileNumber: nat, tableSize: seq<Entry> -> nat, maxOutputFileSize: nat)
    returns (outputs: seq<File>, newNextFileNumber: nat)
    requires VersionInv(scan.version) && scan.Unstarted()
    requires Sorted(input) && UniqueSeqs(Elems(input)) && Elems(input) == FilesEntries(inputs)
    // The loop's "no entry yet" marker is the largest sequence number.
    requires smallestSnapshot < MAX_SEQUENCE
    modifies scan
    ensures Flatten(outputs)
         == Kept(input, |input|, smallestSnapshot, BaseKeys(TreeOf(scan.version), scan.level))
    ensures InOrder(outputs) && Disjoint(Elems(outputs))
    ensures FilesEntries(Elems(outputs))
         == KeptSet(FilesEntries(inputs), smallestSnapshot, BaseKeys(TreeOf(scan.version), scan.level))
    ensures FreshNumbers(outputs, nextFileNumber, newNextFileNumber)
    ensures Sized(outputs, tableSize)
    ensures forall o :: o in outputs ==>
              EndsInTime(scan.grandparents, 10 * scan.targetFileSize, input, o, tableSize, maxOutputFileSize)
              && SpannedBytes(scan.grandparents, o) <= 10 * scan.targetFileSize
    ensures forall k :: 0 <= k < |outputs| - 1 ==>
              tableSize(outputs[k].entries) >= maxOutputFileSize
              || StopBetween(scan.grandparents, 10 * scan.targetFileSize, input, Largest(outputs[k]), Smallest(outputs[k + 1]))
    ensures TotalFileSize(scan.grandparents) <= 10 * scan.targetFileSize ==>
              forall k :: 0 <= k < |outputs| - 1 ==> tableSize(outputs[k].entries) >= maxOutputFileSize
  {
    ghost var baseKeys := BaseKeys(TreeOf(scan.version), scan.level);
    hide *;
    var builder;
    outputs, builder, newNextFileNumber :=
      MergeInputs(scan, input, smallestSnapshot, nextFileNumber, tableSize, maxOutputFileSize, baseKeys);
    ghost var all := Kept(input, |input|, smallestSnapshot, baseKeys);
    if builder != [] {
      outputs, builder, newNextFileNumber :=
        FinishLast(scan, input, outputs, builder, nextFileNumber, newNextFileNumber, tableSize, maxOutputFileSize, all);
    } else {
      AllCut(scan, input, outputs, nextFileNumber, newNextFileNumber, tableSize, maxOutputFileSize, all);
    }
    CompactionWritten(scan.grandparents, 10 * scan.targetFileSize, input, smallestSnapshot, baseKeys, outputs, tableSize,
                      maxOutputFileSize);
  }

  // The loop over the merged entries
  method MergeInputs(scan: CompactionScan, input: seq<Entry>, smallestSnapshot: SeqNo, nextFileNumber: nat,
                     tableSize: seq<Entry> -> nat, maxOutputFileSize: nat, ghost baseKeys: iset<UserKey>)
    returns (outputs: seq<File>, builder: seq<Entry>, newNextFileNumber: nat)
    requires VersionInv(scan.version) && scan.Unstarted() && baseKeys == BaseKeys(TreeOf(scan.version), scan.level)
    requires Sorted(input) && UniqueSeqs(Elems(input)) && smallestSnapshot < MAX_SEQUENCE
    modifies scan
    ensures Writing(scan, input, |input|, outputs, builder, nextFileNumber, newNextFileNumber, tableSize, maxOutputFileSize,
                    Kept(input, |input|, smallestSnapshot, baseKeys))
  {
    outputs, builder, newNextFileNumber := [], [], nextFileNumber;
    var currentUserKey: Option<UserKey> := None;
    var lastSequenceForKey: SeqNo := MAX_SEQUENCE;
    var i := 0;
    NothingWritten(scan, input, nextFileNumber, tableSize, maxOutputFileSize);
    NoneKept(input, smallestSnapshot, baseKeys);
    assert Ready(scan, input, 0);
    hide *;
    while i < |input|
      invariant 0 <= i <= |input|
      invariant Ready(scan, input, i)
      invariant i == 0 ==> currentUserKey == None
      invariant i > 0 ==> currentUserKey == Some(input[i - 1].ikey.user) && lastSequenceForKey == input[i - 1].ikey.seqno
      invariant Writing(scan, input, i, outputs, builder, nextFileNumber, newNextFileNumber, tableSize, maxOutputFileSize,
                        Kept(input, i, smallestSnapshot, baseKeys))
    {
      ghost var kept := Kept(input, i, smallestSnapshot, baseKeys);
      var key := input[i].ikey;
      outputs, builder, newNextFileNumber :=
        CutBefore(scan, input, i, outputs, builder, nextFileNumber, newNextFileNumber, tableSize, maxOutputFileSize, kept);
      if currentUserKey != Some(key.user) {
        currentUserKey := Some(key.user);
        lastSequenceForKey := MAX_SEQUENCE;
      }
      outputs, builder, newNextFileNumber :=
        AddUnlessDropped(scan, input, i, lastSequenceForKey, smallestSnapshot, outputs, builder, nextFileNumber,
                         newNextFileNumber, tableSize, maxOutputFileSize, baseKeys);
      lastSequenceForKey := key.seqno;
      i := i + 1;
    }
  }

  // The base-level test has been asked for no key behind the entries read.
  ghost predicate Ready(scan: CompactionScan, input: seq<Entry>, i: nat)
    requires i <= |input|
    reads scan
  {
    scan.Valid() && (scan.asked.Some? ==> i > 0 && scan.asked.value <= input[i - 1].ikey.user)
  }

  // An entry is dropped or joins the table being built.
  method AddUnlessDropped(scan: CompactionScan, input: seq<Entry>, i: nat, lastSequenceForKey: SeqNo, smallestSnapshot: SeqNo,
                          outputs: seq<File>, builder: seq<Entry>, ghost first: nat, number: nat,
                          tableSize: seq<Entry> -> nat, maxSize: nat, ghost baseKeys: iset<UserKey>)
    returns (newOutputs: seq<File>, newBuilder: seq<Entry>, newNumber: nat)
    requires VersionInv(scan.version) && baseKeys == BaseKeys(TreeOf(scan.version), scan.level)
    requires i < |input| && Sorted(input) && UniqueSeqs(Elems(input)) && smallestSnapshot < MAX_SEQUENCE
    requires Ready(scan, input, i)
    requires lastSequenceForKey
          == if i > 0 && input[i - 1].ikey.user == input[i].ikey.user then input[i - 1].ikey.seqno else MAX_SEQUENCE
    requires Writing(scan, input, i + 1, outputs, builder, first, number, tableSize, maxSize,
                     Kept(input, i, smallestSnapshot, baseKeys))
    modifies scan`levelPtrs, scan`asked
    ensures Ready(scan, input, i + 1)
    ensures Writing(scan, input, i + 1, newOutputs, newBuilder, first, newNumber, tableSize, maxSize,
                    Kept(input, i + 1, smallestSnapshot, baseKeys))
  {
    hide Writing, Keeps, BaseKeys, Sorted, VersionInv, Kept, UniqueSeqs, TreeOf, CompactionScan.Valid;
    newOutputs, newBuilder, newNumber := outputs, builder, number;
    var drop := ShouldDrop(scan, input, i, lastSequenceForKey, smallestSnapshot);
    KeptNext(input, i, smallestSnapshot, baseKeys);
    if !drop {
      newOutputs, newBuilder, newNumber :=
        AddEntry(scan, input, i, outputs, builder, first, number, tableSize, maxSize,
                 Kept(input, i, smallestSnapshot, baseKeys));
    }
  }

  lemma CompactionWritten(gps: seq<File>, limit: nat, input: seq<Entry>, smallestSnapshot: SeqNo,
                          baseKeys: iset<UserKey>, outputs: seq<File>, tableSize: seq<Entry> -> nat, maxSize: nat)
    requires Sorted(input) && UniqueSeqs(Elems(input))
    requires var all := Kept(input, |input|, smallestSnapshot, baseKeys); Written(outputs, [], all)
    requires WellCut(gps, limit, input, outputs, tableSize, maxSize)
    ensures Flatten(outputs) == Kept(input, |input|, smallestSnapshot, baseKeys)
    ensures InOrder(outputs) && Disjoint(Elems(outputs))
    ensures FilesEntries(Elems(outputs)) == KeptSet(Elems(input), smallestSnapshot, baseKeys)
    ensures forall o :: o in outputs ==>
              EndsInTime(gps, limit, input, o, tableSize, maxSize) && SpannedBytes(gps, o) <= limit
    ensures forall k :: 0 <= k < |outputs| - 1 ==>
              tableSize(outputs[k].entries) >= maxSize
              || StopBetween(gps, limit, input, Largest(outputs[k]), Smallest(outputs[k + 1]))
    ensures TotalFileSize(gps) <= limit ==>
              forall k :: 0 <= k < |outputs| - 1 ==> tableSize(outputs[k].entries) >= maxSize
  {
    hide *;
    AllWritten(outputs, Kept(input, |input|, smallestSnapshot, baseKeys));
    WrittenTablesAreComplete(input, outputs, smallestSnapshot, baseKeys);
    KeptOfInput(input, smallestSnapshot, baseKeys);
    WellCutTables(gps, limit, input, outputs, tableSize, maxSize);
    EachWellCut(gps, limit, input, outputs, tableSize, maxSize);
  }

  lemma KeptOfInput(input: seq<Entry>, smallestSnapshot: SeqNo, baseKeys: iset<UserKey>)
    requires Sorted(input) && UniqueSeqs(Elems(input))
    ensures forall e :: e in Kept(input, |input|, smallestSnapshot, baseKeys) ==> e in input
  {
    KeptExactly(input, |input|, smallestSnapshot, baseKeys);
  }

  lemma EachWellCut(gps: seq<File>, limit: nat, input: seq<Entry>, outputs: seq<File>,
                    tableSize: seq<Entry> -> nat, maxSize: nat)
    requires Sorted(input) && WellCut(gps, limit, input, outputs, tableSize, maxSize)
    ensures forall o :: o in outputs ==> EndsInTime(gps, limit, input, o, tableSize, maxSize)
    ensures forall k :: 0 <= k < |outputs| - 1 ==>
              tableSize(outputs[k].entries) >= maxSize
              || StopBetween(gps, limit, input, Largest(outputs[k]), Smallest(outputs[k + 1]))
  {
  }

  // A table's recorded size is that of its entries.
  ghost predicate Sized(outputs: seq<File>, tableSize: seq<Entry> -> nat) {
    forall o :: o in outputs ==> o.size == tableSize(o.entries)
  }

  // The scan's cursor state fits the input read and the tables written so far.
  ghost predicate CutRight(scan: CompactionScan, input: seq<Entry>, i: nat, outputs: seq<File>, builder: seq<Entry>,
                           tableSize: seq<Entry> -> nat, maxSize: nat)
    requires Sorted(input) && i <= |input|
    reads scan`grandparentIndex, scan`seenKey, scan`overlappedBytes
  {
    && CursorInv(scan.grandparents, 10 * scan.targetFileSize, input, i, scan.grandparentIndex, scan.seenKey,
                 scan.overlappedBytes)
    && CutInv(scan.grandparents, 10 * scan.targetFileSize, input, i, outputs, builder, tableSize, maxSize)
  }

  // All that holds of the tables while the inputs are merged
  ghost predicate Writing(scan: CompactionScan, input: seq<Entry>, i: nat, outputs: seq<File>, builder: seq<Entry>,
                          first: nat, number: nat, tableSize: seq<Entry> -> nat, maxSize: nat, kept: seq<Entry>)
    requires Sorted(input) && i <= |input|
    reads scan`grandparentIndex, scan`seenKey, scan`overlappedBytes
  {
    && Written(outputs, builder, kept) && FreshNumbers(outputs, first, number) && Sized(outputs, tableSize)
    && CutRight(scan, input, i, outputs, builder, tableSize, maxSize)
  }

  lemma NothingWritten(scan: CompactionScan, input: seq<Entry>, first: nat, tableSize: seq<Entry> -> nat, maxSize: nat)
    requires scan.Unstarted() && Sorted(input)
    ensures Writing(scan, input, 0, [], [], first, first, tableSize, maxSize, [])
  {
  }

  lemma AllCut(scan: CompactionScan, input: seq<Entry>, outputs: seq<File>, first: nat, number: nat,
               tableSize: seq<Entry> -> nat, maxSize: nat, kept: seq<Entry>)
    requires Sorted(input) && Writing(scan, input, |input|, outputs, [], first, number, tableSize, maxSize, kept)
    ensures Written(outputs, [], kept) && FreshNumbers(outputs, first, number) && Sized(outputs, tableSize)
    ensures WellCut(scan.grandparents, 10 * scan.targetFileSize, input, outputs, tableSize, maxSize)
  {
  }

  lemma NoneKept(input: seq<Entry>, smallestSnapshot: SeqNo, baseKeys: iset<UserKey>)
    ensures Kept(input, 0, smallestSnapshot, baseKeys) == []
  {
  }

  lemma KeptNext(input: seq<Entry>, i: nat, smallestSnapshot: SeqNo, baseKeys: iset<UserKey>)
    requires Sorted(input) && UniqueSeqs(Elems(input)) && i < |input|
    ensures Keeps(input, i, smallestSnapshot, baseKeys) ==>
              Kept(input, i + 1, smallestSnapshot, baseKeys) == Kept(input, i, smallestSnapshot, baseKeys) + [input[i]]
    ensures !Keeps(input, i, smallestSnapshot, baseKeys) ==>
              Kept(input, i + 1, smallestSnapshot, baseKeys) == Kept(input, i, smallestSnapshot, baseKeys)
    ensures Sorted(Kept(input, i + 1, smallestSnapshot, baseKeys))
  {
    KeptExactly(input, i + 1, smallestSnapshot, baseKeys);
  }

  // A kept entry joins the table, which ends if that makes it reach its size.
  method AddEntry(scan: CompactionScan, input: seq<Entry>, i: nat, outputs: seq<File>, builder: seq<Entry>,
                  ghost first: nat, number: nat, tableSize: seq<Entry> -> nat, maxSize: nat, ghost kept: seq<Entry>)
    returns (newOutputs: seq<File>, newBuilder: seq<Entry>, newNumber: nat)
    requires Sorted(input) && i < |input| && Sorted(kept + [input[i]])
    requires Writing(scan, input, i + 1, outputs, builder, first, number, tableSize, maxSize, kept)
    ensures Writing(scan, input, i + 1, newOutputs, newBuilder, first, newNumber, tableSize, maxSize, kept + [input[i]])
  {
    var e := input[i];
    ghost var limit := 10 * scan.targetFileSize;
    AddToTable(outputs, builder, kept, e);
    newOutputs, newBuilder, newNumber := outputs, builder + [e], number;
    hide Written, FreshNumbers, CutInv, CursorInv, Sorted, Sized;
    if tableSize(newBuilder) >= maxSize {
      newOutputs, newBuilder, newNumber := FinishOutput(outputs, newBuilder, first, number, tableSize, kept + [e]);
      TableFills(scan.grandparents, limit, input, i, outputs, builder, newOutputs[|outputs|], tableSize, maxSize);
    } else {
      EntryJoins(scan.grandparents, limit, input, i, outputs, builder, tableSize, maxSize);
    }
  }

  // The table that is left when the input ends
  method FinishLast(scan: CompactionScan, ghost input: seq<Entry>, outputs: seq<File>, builder: seq<Entry>,
                    ghost first: nat, number: nat, tableSize: seq<Entry> -> nat, ghost maxSize: nat, ghost kept: seq<Entry>)
    returns (newOutputs: seq<File>, newBuilder: seq<Entry>, newNumber: nat)
    requires Sorted(input) && builder != []
    requires Writing(scan, input, |input|, outputs, builder, first, number, tableSize, maxSize, kept)
    ensures newBuilder == [] && Written(newOutputs, newBuilder, kept) && FreshNumbers(newOutputs, first, newNumber)
    ensures Sized(newOutputs, tableSize)
    ensures WellCut(scan.grandparents, 10 * scan.targetFileSize, input, newOutputs, tableSize, maxSize)
  {
    hide Written, FreshNumbers, CutInv, CursorInv, Sized, WellCut;
    newOutputs, newBuilder, newNumber := FinishOutput(outputs, builder, first, number, tableSize, kept);
    TableLeft(scan.grandparents, 10 * scan.targetFileSize, input, |input|, outputs, newOutputs[|outputs|], tableSize, maxSize);
  }

  lemma AllWritten(outputs: seq<File>, kept: seq<Entry>)
    requires Written(outputs, [], kept)
    ensures Flatten(outputs) == kept && InOrder(outputs)
  {
  }

  // The two drop rules, given the sequence number the loop remembers for the entry's key.
  method ShouldDrop(scan: CompactionScan, input: seq<Entry>, i: nat, lastSequenceForKey: SeqNo, smallestSnapshot: SeqNo)
    returns (drop: bool)
    requires i < |input| && Sorted(input) && smallestSnapshot < MAX_SEQUENCE
    requires VersionInv(scan.version)
    requires scan.Valid() && (scan.asked.Some? ==> i > 0 && scan.asked.value <= input[i - 1].Key())
    requires lastSequenceForKey
          == if i > 0 && input[i - 1].Key() == input[i].Key() then input[i - 1].Seq() else MAX_SEQUENCE
    modifies scan`levelPtrs, scan`asked
    ensures scan.Valid() && (scan.asked.Some? ==> scan.asked.value <= input[i].Key())
    ensures drop <==> !Keeps(input, i, smallestSnapshot, BaseKeys(TreeOf(scan.version), scan.level))
  {
    var key := input[i].ikey;
    assert i > 0 ==> Before(input[i - 1].ikey, key);
    drop := false;
    if lastSequenceForKey <= smallestSnapshot {
      drop := true;
    } else if key.kind == Deletion && key.seqno <= smallestSnapshot {
      drop := scan.IsBaseLevelForKey(key.user);
    }
  }

  // Close the table being built if the grandparents say so.
  method CutBefore(scan: CompactionScan, input: seq<Entry>, i: nat, outputs: seq<File>, builder: seq<Entry>,
                   ghost first: nat, number: nat, tableSize: seq<Entry> -> nat, ghost maxSize: nat, ghost kept: seq<Entry>)
    returns (newOutputs: seq<File>, newBuilder: seq<Entry>, newNumber: nat)
    requires Sorted(input) && i < |input| && Ready(scan, input, i)
    requires Writing(scan, input, i, outputs, builder, first, number, tableSize, maxSize, kept)
    modifies scan`grandparentIndex, scan`seenKey, scan`overlappedBytes
    ensures Ready(scan, input, i)
    ensures Writing(scan, input, i + 1, newOutputs, newBuilder, first, newNumber, tableSize, maxSize, kept)
  {
    ghost var gps, limit := scan.grandparents, 10 * scan.targetFileSize;
    ghost var index, seen, bytes := scan.grandparentIndex, scan.seenKey, scan.overlappedBytes;
    newOutputs, newBuilder, newNumber := outputs, builder, number;
    hide Written, FreshNumbers, CutInv, CursorInv, StopsAt, Sorted, Sized;
    var stop := scan.ShouldStopBefore(input[i].ikey);
    CursorMoves(gps, limit, input, i, index, seen, bytes, scan.grandparentIndex, scan.overlappedBytes, stop);
    if stop && builder != [] {
      newOutputs, newBuilder, newNumber := FinishOutput(outputs, builder, first, number, tableSize, kept);
      TableStops(gps, limit, input, i, outputs, newOutputs[|outputs|], tableSize, maxSize);
    } else {
      KeyPasses(gps, limit, input, i, outputs, builder, tableSize, maxSize);
    }
  }

  // DBImpl::FinishCompactionOutputFile
  method FinishOutput(outputs: seq<File>, builder: seq<Entry>, ghost first: nat, number: nat,
                      tableSize: seq<Entry> -> nat, ghost kept: seq<Entry>)
    returns (newOutputs: seq<File>, newBuilder: seq<Entry>, newNumber: nat)
    requires builder != [] && Written(outputs, builder, kept) && FreshNumbers(outputs, first, number)
    requires Sized(outputs, tableSize)
    ensures Sized(newOutputs, tableSize)
    ensures newBuilder == [] && Written(newOutputs, newBuilder, kept) && FreshNumbers(newOutputs, first, newNumber)
    ensures |newOutputs| == |outputs| + 1 && newOutputs == outputs + [newOutputs[|outputs|]]
    ensures newOutputs[|outputs|].entries == builder
  {
    BuilderIsSorted(outputs, builder, kept);
    var f: File := Table(number, tableSize(builder), builder);
    FinishTable(outputs, builder, kept, f);
    newOutputs, newBuilder, newNumber := outputs + [f], [], number + 1;
  }
}
