/** The part of VersionSet that scores levels and sets up compactions. */
module VersionSets {
  import opened InternalKeys
  import opened Versions
  import opened LevelRanges
  import opened Picking

  function MaxBytesForLevel(level: nat): real {
    if level <= 1 then 10485760.0 else 10.0 * MaxBytesForLevel(level - 1)
  }

  lemma {:induction false} MaxBytesIsPositive(level: nat)
    ensures MaxBytesForLevel(level) > 0.0
  {
    if level > 1 {
      MaxBytesIsPositive(level - 1);
    }
  }

  // How full a level is: file count on level 0, bytes on the others.
  function Score(v: Version, level: nat): real
    requires level < NUM_LEVELS
  {
    MaxBytesIsPositive(level);
    if level == 0 then |v[0]| as real / L0_COMPACTION_TRIGGER as real
    else TotalFileSize(v[level]) as real / MaxBytesForLevel(level)
  }

  // How full a level is, in numbers: files of level 0 against 4, bytes of levels 1 to 5 against
  // 10 MB, 100 MB, and so on.
  ghost function Fullness(v: Version, level: nat): real
    requires level <= 5
  {
    if level == 0 then |v[0]| as real / 4.0
    else if level == 1 then TotalFileSize(v[1]) as real / 10485760.0
    else if level == 2 then TotalFileSize(v[2]) as real / 104857600.0
    else if level == 3 then TotalFileSize(v[3]) as real / 1048576000.0
    else if level == 4 then TotalFileSize(v[4]) as real / 10485760000.0
    else TotalFileSize(v[5]) as real / 104857600000.0
  }

  // Some level has reached its limit.
  ghost predicate OverLimit(v: Version) {
    || |v[0]| >= 4
    || TotalFileSize(v[1]) >= 10485760
    || TotalFileSize(v[2]) >= 104857600
    || TotalFileSize(v[3]) >= 1048576000
    || TotalFileSize(v[4]) >= 10485760000
    || TotalFileSize(v[5]) >= 104857600000
  }

  // The level is the first of the fullest.
  ghost predicate Fullest(v: Version, level: nat) {
    && level <= 5
    && (forall l: nat :: l <= 5 ==> Fullness(v, l) <= Fullness(v, level))
    && (forall l: nat :: l < level ==> Fullness(v, l) < Fullness(v, level))
  }

  lemma ScoreIsFullness(v: Version, level: nat)
    requires level <= 5
    ensures Score(v, level) == Fullness(v, level)
  {
    assert MaxBytesForLevel(1) == 10485760.0;
    assert MaxBytesForLevel(2) == 104857600.0;
    assert MaxBytesForLevel(3) == 1048576000.0;
    assert MaxBytesForLevel(4) == 10485760000.0;
    assert MaxBytesForLevel(5) == 104857600000.0;
  }

  // The best score reaches one exactly when some level has reached its limit, and the level
  // that has it is the fullest.
  lemma ScoredInNumbers(v: Version, level: nat, score: real)
    requires level <= 5 && score == Score(v, level)
    requires forall l: nat :: l <= 5 ==> Score(v, l) <= score
    requires forall l: nat :: l < level ==> Score(v, l) < score
    ensures score >= 1.0 <==> OverLimit(v)
    ensures Fullest(v, level)
  {
    hide Score;
    forall l: nat | l <= 5 ensures Score(v, l) == Fullness(v, l) {
      ScoreIsFullness(v, l);
    }
    hide TotalFileSize;
    assert forall l: nat :: l <= 5 ==> Fullness(v, l) <= score;
    assert (exists l: nat :: l <= 5 && Fullness(v, l) >= 1.0) <==> OverLimit(v) by {
      assert Fullness(v, 0) >= 1.0 <==> |v[0]| >= 4;
      assert Fullness(v, 1) >= 1.0 <==> TotalFileSize(v[1]) >= 10485760;
      assert Fullness(v, 2) >= 1.0 <==> TotalFileSize(v[2]) >= 104857600;
      assert Fullness(v, 3) >= 1.0 <==> TotalFileSize(v[3]) >= 1048576000;
      assert Fullness(v, 4) >= 1.0 <==> TotalFileSize(v[4]) >= 10485760000;
      assert Fullness(v, 5) >= 1.0 <==> TotalFileSize(v[5]) >= 104857600000;
    }
  }

  // The bytes of a level are those of its files.
  lemma {:induction false} BytesAdd(a: seq<File>, b: seq<File>)
    ensures TotalFileSize(a + b) == TotalFileSize(a) + TotalFileSize(b)
    ensures |a| == 1 ==> TotalFileSize(a) == a[0].size
    decreases |b|
  {
    if b == [] {
      assert a + b == a;
    } else {
      BytesAdd(a, b[..|b| - 1]);
      assert (a + b)[..|a + b| - 1] == a + b[..|b| - 1];
    }
    assert |a| == 1 ==> a[..0] == [];
  }

  lemma EmptyLevelScoresZero(v: Version, level: nat)
    requires level < NUM_LEVELS && v[level] == []
    ensures Score(v, level) == 0.0
  {
    MaxBytesIsPositive(level);
    assert TotalFileSize(v[level]) == 0;
  }

  // Builder::Apply: one seek for every 16 KB of a table, but at least a hundred
  function InitialSeeks(f: File): (seeks: nat)
    ensures seeks >= 100 && (seeks == 100 || 16384 * seeks <= f.size) && f.size < 16384 * (seeks + 1)
  {
    if f.size / 16384 < 100 then 100 else f.size / 16384
  }

  // The first file that ends behind the pointer, or the first of all if none does
  ghost predicate NextBeyond(files: seq<File>, pointer: Option<InternalKey>, f: File) {
    || (exists i :: 0 <= i < |files| && files[i] == f && (pointer.Some? ==> Before(pointer.value, Largest(f)))
                    && forall j :: 0 <= j < i ==> pointer.Some? && !Before(pointer.value, Largest(files[j])))
    || (files != [] && f == files[0]
        && forall j :: 0 <= j < |files| ==> pointer.Some? && !Before(pointer.value, Largest(files[j])))
  }

  // The first n files reach the limit and no fewer do, or all of them stay below it.
  ghost predicate CutAt(files: seq<File>, n: nat, limit: nat) {
    && 0 < n <= |files| && (n == |files| || TotalFileSize(files[..n]) >= limit)
    && forall k :: 0 < k < n ==> TotalFileSize(files[..k]) < limit
  }

  // ---- Which inputs a compaction gets, in terms of the files alone

  // The files of the next level that meet the range of some files
  ghost predicate TakenFrom(next: seq<File>, files0: seq<File>, files1: seq<File>) {
    exists s, l :: IsRange(files0, s, l) && files1 == Meeting(next, Some(s.user), Some(l.user))
  }

  // The level's files when its inputs are taken again over the whole range of both input sets
  ghost predicate Retaken(level: nat, files: seq<File>, files0: seq<File>, files1: seq<File>, all0: seq<File>) {
    exists s, l, x ::
      && IsRange(files0 + files1, s, l) && AreOverlapping(level, files, Some(s.user), Some(l.user), x)
      && ByBoundaries(files, x, all0)
  }

  // The inputs are expanded exactly when that brings more files of the level, stays below the
  // size limit and brings no further file of the next level.
  ghost predicate Expanded(next: seq<File>, files0: seq<File>, files1: seq<File>, all0: seq<File>,
                           targetFileSize: nat, r0: seq<File>, r1: seq<File>) {
    if files1 != [] && |all0| > |files0| && TotalFileSize(files1) + TotalFileSize(all0) < 25 * targetFileSize then
      exists all1 :: TakenFrom(next, all0, all1)
        && (if |all1| == |files1| then r0 == all0 && r1 == all1 else r0 == files0 && r1 == files1)
    else r0 == files0 && r1 == files1
  }

  // What SetupOtherInputs makes of the first inputs
  ghost predicate SetUp(level: nat, files: seq<File>, next: seq<File>, in0: seq<File>, targetFileSize: nat,
                        r0: seq<File>, r1: seq<File>) {
    exists files0, files1, all0 ::
      && ByBoundaries(files, in0, files0) && TakenFrom(next, files0, files1)
      && (files1 != [] ==> Retaken(level, files, files0, files1, all0))
      && Expanded(next, files0, files1, all0, targetFileSize, r0, r1)
  }

  // PickCompaction's first inputs: the file it starts from, and on level 0 all it overlaps
  ghost predicate PickedFor(level: nat, files: seq<File>, start: File, in0: seq<File>) {
    if level > 0 then in0 == [start] else AreOverlapping(0, files, Some(Lo(start)), Some(Hi(start)), in0)
  }

  // CompactRange's first inputs: level 0 gives all files of the range, a deeper level its first
  // files up to the size limit.
  ghost predicate TakenForRange(level: nat, files: seq<File>, begin: Bound, end: Bound, targetFileSize: nat, in0: seq<File>) {
    if level == 0 then AreOverlapping(0, files, begin, end, in0)
    else exists n: nat :: CutAt(Meeting(files, begin, end), n, targetFileSize) && in0 == Meeting(files, begin, end)[..n]
  }

  // The table is on the same level of both versions.
  predicate Stays(v: Version, w: Version, f: File) {
    exists l :: 0 <= l < NUM_LEVELS && f in v[l] && f in w[l]
  }

  class VersionSet {
    var current: Version
    var compactionLevel: nat
    var compactionScore: real
    var fileToCompact: Option<Seek>
    var compactPointer: seq<Option<InternalKey>>
    // Seeks a table may still cost; a table not listed has its initial allowance.
    var allowedSeeks: map<File, int>
    const targetFileSize: nat

    constructor (targetFileSize: nat)
      ensures Valid() && this.targetFileSize == targetFileSize
    {
      current := [[], [], [], [], [], [], []];
      compactionLevel, compactionScore := 0, 0.0;
      fileToCompact := None;
      compactPointer := seq(NUM_LEVELS, _ => None);
      allowedSeeks := map[];
      this.targetFileSize := targetFileSize;
      new;
      assert Score(current, 0) == 0.0;
      forall level: nat | level + 1 < NUM_LEVELS ensures Score(current, level) <= compactionScore {
        MaxBytesIsPositive(level);
      }
    }

    // The best level is the first of those with the highest score.
    ghost predicate Scored()
      reads this
    {
      && compactionLevel + 1 < NUM_LEVELS
      && compactionScore == Score(current, compactionLevel)
      && (forall l: nat :: l + 1 < NUM_LEVELS ==> Score(current, l) <= compactionScore)
      && (forall l: nat :: l < compactionLevel ==> Score(current, l) < compactionScore)
    }

    ghost predicate Valid()
      reads this
    {
      && VersionInv(current) && UniqueSeqs(TreeEntries(TreeOf(current)))
      && |compactPointer| == NUM_LEVELS
      && Scored()
      && (fileToCompact.Some? ==>
            && fileToCompact.value.level + 1 < NUM_LEVELS
            && fileToCompact.value.file in current[fileToCompact.value.level]
            && SeeksLeft(fileToCompact.value.file) <= 0)
    }

    function SeeksLeft(f: File): int
      reads this
    {
      if f in allowedSeeks then allowedSeeks[f] else InitialSeeks(f)
    }

    // VersionSet::NeedsCompaction
    predicate NeedsCompaction()
      reads this
    {
      compactionScore >= 1.0 || fileToCompact.Some?
    }

    // VersionSet::Finalize
    method Finalize(v: Version) returns (bestLevel: nat, bestScore: real)
      ensures bestScore >= 1.0 <==> OverLimit(v)
      ensures Fullest(v, bestLevel) && bestScore == Fullness(v, bestLevel)
      ensures bestLevel + 1 < NUM_LEVELS && bestScore == Score(v, bestLevel)
      ensures forall l: nat :: l + 1 < NUM_LEVELS ==> Score(v, l) <= bestScore
      ensures forall l: nat :: l < bestLevel ==> Score(v, l) < bestScore
    {
      bestLevel, bestScore := 0, -1.0;
      var level := 0;
      while level < NUM_LEVELS - 1
        invariant 0 <= level <= NUM_LEVELS - 1
        invariant level == 0 ==> bestLevel == 0 && bestScore == -1.0
        invariant level > 0 ==> bestLevel < level && bestScore == Score(v, bestLevel)
        invariant forall l: nat :: l < level ==> Score(v, l) <= bestScore
        invariant forall l: nat :: l < bestLevel ==> Score(v, l) < bestScore
      {
        var score: real;
        MaxBytesIsPositive(level);
        if level == 0 {
          score := |v[0]| as real / L0_COMPACTION_TRIGGER as real;
        } else {
          var levelBytes := SumFileSizes(v[level]);
          score := levelBytes as real / MaxBytesForLevel(level);
        }
        assert score == Score(v, level);
        assert score >= 0.0;
        if score > bestScore {
          bestLevel, bestScore := level, score;
        }
        level := level + 1;
      }
      hide *;
      ScoreIsFullness(v, bestLevel);
      ScoredInNumbers(v, bestLevel, bestScore);
    }

    // AppendVersion: install a version with its score. A table that was not on its level before
    // begins with its initial allowance.
    method Install(v: Version)
      requires Valid() && VersionInv(v) && UniqueSeqs(TreeEntries(TreeOf(v)))
      modifies this`current, this`compactionLevel, this`compactionScore, this`fileToCompact, this`allowedSeeks
      ensures Valid() && current == v && fileToCompact == None
      ensures NeedsCompaction() <==> OverLimit(v)
      ensures forall f :: SeeksLeft(f) == if Stays(old(current), v, f) then old(SeeksLeft(f)) else InitialSeeks(f)
    {
      var level, score := Finalize(v);
      allowedSeeks := map f | f in allowedSeeks && Stays(current, v, f) :: allowedSeeks[f];
      hide InitialSeeks, OverLimit, Fullest, Score, Stays;
      current, compactionLevel, compactionScore, fileToCompact := v, level, score, None;
    }

    // Version::UpdateStats: the table that cost a seek loses one of its allowance, and the first
    // to use it up becomes the candidate.
    method UpdateStats(seek: Option<Seek>) returns (changed: bool)
      requires Valid()
      requires seek.Some? ==> seek.value.level + 1 < NUM_LEVELS && seek.value.file in current[seek.value.level]
      modifies this`fileToCompact, this`allowedSeeks
      ensures Valid()
      ensures seek.None? ==> !changed && allowedSeeks == old(allowedSeeks)
      ensures seek.Some? ==> SeeksLeft(seek.value.file) == old(SeeksLeft(seek.value.file)) - 1
      ensures forall f :: seek.None? || f != seek.value.file ==> SeeksLeft(f) == old(SeeksLeft(f))
      ensures changed <==> seek.Some? && old(SeeksLeft(seek.value.file)) <= 1 && old(fileToCompact) == None
      ensures fileToCompact == if changed then seek else old(fileToCompact)
      ensures changed ==> NeedsCompaction()
    {
      changed := false;
      if seek.Some? {
        var f := seek.value.file;
        allowedSeeks := allowedSeeks[f := SeeksLeft(f) - 1];
        if SeeksLeft(f) <= 0 && fileToCompact.None? {
          fileToCompact := seek;
          changed := true;
        }
      }
    }

    // A level whose score reaches 1 has a file to start from.
    lemma FullLevelHasFiles()
      requires Scored() && compactionScore >= 1.0
      ensures current[compactionLevel] != []
    {
      if current[compactionLevel] == [] {
        EmptyLevelScoresZero(current, compactionLevel);
      }
    }

    // The stop trigger of level 0 forces a compaction.
    lemma StopTriggerNeedsCompaction()
      requires Scored() && |current[0]| >= L0_STOP_WRITES_TRIGGER
      ensures NeedsCompaction()
    {
      assert Score(current, 0) >= 3.0;
    }

    lemma LevelEntriesAreUnique(level: nat)
      requires Valid() && level < NUM_LEVELS
      ensures UniqueSeqs(FilesEntries(Elems(current[level])))
    {
      var t := TreeOf(current);
      forall e | e in FilesEntries(Elems(current[level])) ensures e in TreeEntries(t) {
        var f :| f in Elems(current[level]) && e in f.entries;
        assert f in t[level];
      }
    }

    // Size comes before seeks: the fullest level starts where its last compaction ended.
    ghost predicate StartsWith(pointers: seq<Option<InternalKey>>, level: nat, start: File)
      reads this
    {
      if OverLimit(current) then
        Fullest(current, level) && level < |pointers| && NextBeyond(current[level], pointers[level], start)
      else
        fileToCompact == Some(Seek(start, level))
    }

    // VersionSet::PickCompaction
    method PickCompaction() returns (c: Option<Compaction>)
      requires Valid()
      modifies this`compactPointer
      ensures Valid()
      ensures c.None? <==> !OverLimit(current) && fileToCompact.None?
      ensures c.None? ==> compactPointer == old(compactPointer)
      ensures c.Some? ==> WellChosen(TreeOf(current), c.value.level, c.value.Inputs0(), c.value.Inputs1())
      // Any user-key range meeting the inputs' overall range meets some input.
      ensures c.Some? ==> GapFree(c.value.Inputs())
      // Which inputs they are
      ensures c.Some? ==> exists start, in0 ::
                StartsWith(old(compactPointer), c.value.level, start) && start in c.value.Inputs0()
                && PickedFor(c.value.level, current[c.value.level], start, in0)
                && SetUp(c.value.level, current[c.value.level], current[c.value.level + 1], in0, targetFileSize,
                         c.value.in0, c.value.in1)
      ensures c.Some? ==> AllGrandparents(c.value, current)
    {
      ScoredInNumbers(current, compactionLevel, compactionScore);
      if !NeedsCompaction() {
        return None;
      }
      var level, start := PickStart();
      hide *;
      var in0 := StartInputs(level, start);
      assert start in Elems(in0);
      var chosen := SetupOtherInputs(level, in0);
      c := Some(chosen);
    }

    // The file a compaction starts from
    method PickStart() returns (level: nat, start: File)
      requires Valid() && NeedsCompaction()
      ensures level + 1 < NUM_LEVELS && start in current[level] && StartsWith(compactPointer, level, start)
    {
      ScoredInNumbers(current, compactionLevel, compactionScore);
      if compactionScore >= 1.0 {
        level := compactionLevel;
        FullLevelHasFiles();
        start := FirstBeyond(current[level], compactPointer[level]);
      } else {
        level, start := fileToCompact.value.level, fileToCompact.value.file;
      }
    }

    // The first inputs: that file, and on level 0 all that overlap it
    method StartInputs(level: nat, start: File) returns (in0: seq<File>)
      requires Valid() && level + 1 < NUM_LEVELS && start in current[level]
      ensures GoodStart(level, current[level], in0) && GapFree(Elems(in0)) && start in Elems(in0)
      ensures PickedFor(level, current[level], start, in0)
    {
      in0 := [start];
      if level == 0 {
        var smallest, largest := GetRange(in0);
        ghost var lo, hi;
        assert CoveredByFile: CoveredRange(Elems(current[0]) + {}, Some(smallest.user), Some(largest.user)) by {
          OneFileIsCovered(current[0], start);
        }
        in0, lo, hi := GetOverlappingInputs(0, current[0], Some(smallest.user), Some(largest.user));
        assert CoveredRange(Elems(in0) + {}, lo, hi);
        LevelZeroStart(current[0], in0, lo, hi, start);
      } else {
        SingleFileStart(level, current[level], start);
      }
    }

    // VersionSet::CompactRange
    method CompactRange(level: nat, begin: Bound, end: Bound) returns (c: Option<Compaction>)
      requires Valid() && level + 1 < NUM_LEVELS
      modifies this`compactPointer
      ensures Valid()
      ensures c.None? ==> compactPointer == old(compactPointer)
      ensures c.Some? ==> c.value.level == level
      ensures c.Some? ==> WellChosen(TreeOf(current), level, c.value.Inputs0(), c.value.Inputs1())
      ensures c.None? <==> forall f :: f in current[level] ==> !Overlaps(f, begin, end)
      ensures c.Some? ==> exists in0 ::
                TakenForRange(level, current[level], begin, end, targetFileSize, in0)
                && SetUp(level, current[level], current[level + 1], in0, targetFileSize, c.value.in0, c.value.in1)
      ensures c.Some? ==> AllGrandparents(c.value, current)
    {
      hide *;
      var inputs := RangeInputs(level, begin, end);
      if inputs == [] {
        return None;
      }
      var chosen := SetupOtherInputs(level, inputs);
      c := Some(chosen);
    }

    // The files of the range, as many as the size limit allows
    method RangeInputs(level: nat, begin: Bound, end: Bound) returns (inputs: seq<File>)
      requires Valid() && level + 1 < NUM_LEVELS
      ensures inputs == [] <==> forall f :: f in current[level] ==> !Overlaps(f, begin, end)
      ensures inputs != [] ==> GoodStart(level, current[level], inputs)
      ensures inputs != [] ==> TakenForRange(level, current[level], begin, end, targetFileSize, inputs)
    {
      ghost var lo, hi;
      inputs, lo, hi := GetOverlappingInputs(level, current[level], begin, end);
      if level == 0 {
        NothingMeets(current[0], begin, end, lo, hi);
      }
      MeetingMembers(current[level], lo, hi);
      if inputs == [] {
        return;
      }
      assert inputs[0] in inputs;
      if level > 0 {
        MeetingIsRun(current[level], lo, hi);
        MeetingInOrder(current[level], lo, hi);
        var n := CountUpTo(inputs, targetFileSize);
        PrefixIsRun(current[level], inputs, n);
        hide GapFree, IsStretch, InOrder, WithinClosed, Closed, CoveredRange;
        inputs := inputs[..n];
      }
    }

    // VersionSet::SetupOtherInputs
    method SetupOtherInputs(level: nat, in0: seq<File>) returns (c: Compaction)
      requires Valid() && level + 1 < NUM_LEVELS && GoodStart(level, current[level], in0)
      modifies this`compactPointer
      ensures Valid()
      ensures c.level == level
      ensures WellChosen(TreeOf(current), level, c.Inputs0(), c.Inputs1())
      ensures Elems(in0) <= c.Inputs0()
      ensures GapFree(Elems(in0)) ==> GapFree(c.Inputs())
      ensures SetUp(level, current[level], current[level + 1], in0, targetFileSize, c.in0, c.in1)
      ensures exists s, l :: IsRange(c.in0, s, l) && compactPointer == old(compactPointer)[level := Some(l)]
      ensures AllGrandparents(c, current)
    {
      LevelEntriesAreUnique(level);
      var largest;
      c, largest := CollectInputs(level, current, in0, targetFileSize);
      compactPointer := compactPointer[level := Some(largest)];
    }
  }

  // A range that meets no file is not widened.
  lemma NothingMeets(files: seq<File>, begin: Bound, end: Bound, lo: Bound, hi: Bound)
    requires AtOrBelow(lo, begin) && AtOrAbove(hi, end) && WithinClosed(files, begin, end, lo, hi)
    ensures (forall f :: f in files ==> !Overlaps(f, begin, end)) ==> Meeting(files, lo, hi) == []
  {
    if forall f :: f in files ==> !Overlaps(f, begin, end) {
      assert Closed(files, begin, end) && lo == begin && hi == end;
      MeetingMembers(files, lo, hi);
      if Meeting(files, lo, hi) != [] {
        var hint := Meeting(files, lo, hi)[0] in Meeting(files, lo, hi);
      }
    }
  }

  // The loop of PickCompaction over a level
  method FirstBeyond(files: seq<File>, pointer: Option<InternalKey>) returns (start: File)
    requires files != []
    ensures start in files && NextBeyond(files, pointer, start)
  {
    var i := 0;
    while i < |files|
      invariant 0 <= i <= |files| && forall j :: 0 <= j < i ==> pointer.Some? && !Before(pointer.value, Largest(files[j]))
    {
      if pointer.None? || Before(pointer.value, Largest(files[i])) {
        return files[i];
      }
      i := i + 1;
    }
    start := files[0];
  }

  // The loop of CompactRange that cuts its inputs
  method CountUpTo(files: seq<File>, limit: nat) returns (n: nat)
    requires files != []
    ensures CutAt(files, n, limit)
  {
    var total := 0;
    n := 0;
    while n < |files|
      invariant 0 <= n <= |files| && total == TotalFileSize(files[..n])
      invariant forall k :: 0 < k <= n ==> TotalFileSize(files[..k]) < limit
    {
      assert files[..n + 1][..n] == files[..n];
      total := total + files[n].size;
      n := n + 1;
      if total >= limit {
        return;
      }
    }
  }

  // The grandparents are the files two levels down that meet the whole range compacted.
  ghost predicate AllGrandparents(c: Compaction, v: Version) {
    c.level + 2 < NUM_LEVELS ==>
      TakenFrom(v[c.level + 2], c.in0 + c.in1, c.grandparents)
  }

  // Compaction::IsTrivialMove: a file alone on its range may move down as it is, unless it meets
  // too much of the level below that.
  method IsTrivialMove(c: Compaction, targetFileSize: nat, ghost t: Tree) returns (r: bool)
    requires WellChosen(t, c.level, c.Inputs0(), c.Inputs1())
    ensures r <==> |c.in0| == 1 && c.in1 == [] && TotalFileSize(c.grandparents) <= 10 * targetFileSize
    ensures r ==> WellChosen(t, c.level, {c.in0[0]}, {})
  {
    if |c.in0| != 1 || |c.in1| != 0 {
      return false;
    }
    assert c.in0 == [c.in0[0]] && Elems(c.in0) == {c.in0[0]} && Elems(c.in1) == {};
    var overlap := SumFileSizes(c.grandparents);
    r := overlap <= MaxGrandParentOverlapBytes(targetFileSize);
  }

  method CollectInputs(level: nat, v: Version, in0: seq<File>, targetFileSize: nat)
    returns (c: Compaction, largest: InternalKey)
    requires level + 1 < NUM_LEVELS && GoodStart(level, v[level], in0)
    requires UniqueSeqs(FilesEntries(Elems(v[level])))
    ensures c.level == level && Fit(v[level], v[level + 1], c.in0, c.in1)
    ensures Elems(in0) <= c.Inputs0()
    ensures GapFree(Elems(in0)) ==> GapFree(c.Inputs())
    ensures SetUp(level, v[level], v[level + 1], in0, targetFileSize, c.in0, c.in1)
    ensures exists s :: IsRange(c.in0, s, largest)
    ensures AllGrandparents(c, v)
  {
    hide *;
    var files0, files1 := BothInputs(level, v[level], v[level + 1], in0, targetFileSize);
    var smallest;
    smallest, largest := GetRange(files0);
    var grandparents := [];
    if level + 2 < NUM_LEVELS {
      grandparents := Grandparents(level, v[level + 2], files0, files1);
    }
    c := Compaction(level, files0, files1, grandparents);
    GrandparentsTaken(c, v);
  }

  // The input sets, expanded where that is worth it
  method BothInputs(level: nat, files: seq<File>, next: seq<File>, in0: seq<File>, targetFileSize: nat)
    returns (files0: seq<File>, files1: seq<File>)
    requires GoodStart(level, files, in0) && UniqueSeqs(FilesEntries(Elems(files)))
    ensures Fit(files, next, files0, files1) && Elems(in0) <= Elems(files0) && files0 != []
    ensures GapFree(Elems(in0)) ==> GapFree(Elems(files0) + Elems(files1))
    ensures SetUp(level, files, next, in0, targetFileSize, files0, files1)
  {
    assert level > 0 ==> InOrder(files);
    hide *;
    files0, files1 := FirstInputs(level, files, next, in0);
    if files1 != [] {
      files0, files1 := ExpandInputs(level, files, next, in0, files0, files1, targetFileSize);
    } else {
      NotExpanded(level, files, next, in0, files0, targetFileSize);
    }
  }

  method Grandparents(level: nat, deeper: seq<File>, files0: seq<File>, files1: seq<File>) returns (met: seq<File>)
    requires files0 != []
    ensures TakenFrom(deeper, files0 + files1, met)
  {
    var allStart, allLimit := GetRange(files0 + files1);
    hide IsRange, GapFree, Closed, WithinClosed, CoveredRange, Meeting;
    var overlapping, _, _ := GetOverlappingInputs(level + 2, deeper, Some(allStart.user), Some(allLimit.user));
    met := overlapping;
  }

  lemma GrandparentsTaken(c: Compaction, v: Version)
    requires c.level + 2 < NUM_LEVELS ==> TakenFrom(v[c.level + 2], c.in0 + c.in1, c.grandparents)
    ensures AllGrandparents(c, v)
    ensures c.Inputs0() == Elems(c.in0) && c.Inputs() == Elems(c.in0) + Elems(c.in1)
  {
  }

  // The two input sets of a compaction fit the two levels they come from.
  ghost predicate Fit(files: seq<File>, next: seq<File>, files0: seq<File>, files1: seq<File>) {
    && Elems(files0) != {} && Elems(files0) <= Elems(files)
    && LeavesNoOlder(Elems(files), Elems(files0))
    && TakesWhatItMeets(Elems(next), Elems(files0), Elems(files1))
  }

  // The inputs before any expansion: close the level's inputs, then take the next level's.
  method FirstInputs(level: nat, files: seq<File>, next: seq<File>, in0: seq<File>)
    returns (files0: seq<File>, files1: seq<File>)
    requires GoodStart(level, files, in0) && UniqueSeqs(FilesEntries(Elems(files)))
    ensures Fit(files, next, files0, files1) && files0 != [] && Elems(in0) <= Elems(files0)
    ensures ByBoundaries(files, in0, files0) && TakenFrom(next, files0, files1)
    ensures GapFree(Elems(in0)) ==> GapFree(Elems(files0) + Elems(files1))
  {
    files0 := CloseInputs(level, files, in0);
    hide GoodStart, UniqueSeqs, GapFree, LeavesNoOlder, TakesWhatItMeets, Meeting;
    var smallest, largest := GetRange(files0);
    var met, _, _ := GetOverlappingInputs(level + 1, next, Some(smallest.user), Some(largest.user));
    files1 := met;
    NextLevelTaken(next, files0, smallest, largest, files1);
    assert files0[0] in Elems(files0);
  }

  method CloseInputs(level: nat, files: seq<File>, in0: seq<File>) returns (files0: seq<File>)
    requires GoodStart(level, files, in0) && UniqueSeqs(FilesEntries(Elems(files)))
    ensures files0 != [] && Elems(in0) <= Elems(files0) <= Elems(files) && LeavesNoOlder(Elems(files), Elems(files0))
    ensures ByBoundaries(files, in0, files0)
    ensures GapFree(Elems(in0)) ==> GapFree(Elems(files0))
  {
    files0 := AddBoundaryInputs(files, in0);
    BoundaryClosedStart(level, files, in0, files0);
    EmptyAdds(Elems(in0), Elems(files0));
    hide UniqueSeqs, GapFree, LeavesNoOlder, IsBoundaryFile, IsMaximum, InOrder, IsStretch, Meeting;
  }

  // Grow the level's inputs if that brings in no further file of the next level.
  method ExpandInputs(level: nat, files: seq<File>, next: seq<File>, ghost in0: seq<File>, files0: seq<File>,
                      files1: seq<File>, targetFileSize: nat)
    returns (r0: seq<File>, r1: seq<File>)
    requires UniqueSeqs(FilesEntries(Elems(files))) && (level > 0 ==> InOrder(files))
    requires Fit(files, next, files0, files1) && files0 != [] && files1 != []
    requires ByBoundaries(files, in0, files0) && TakenFrom(next, files0, files1)
    ensures SetUp(level, files, next, in0, targetFileSize, r0, r1)
    ensures Fit(files, next, r0, r1) && r0 != [] && |r1| == |files1| && Elems(files0) <= Elems(r0)
    ensures GapFree(Elems(files0) + Elems(files1)) ==> GapFree(Elems(r0) + Elems(r1))
  {
    assert ExpandedCompactionByteSizeLimit(targetFileSize) == 25 * targetFileSize;
    hide *;
    r0, r1 := files0, files1;
    var expanded0 := RetakeInputs(level, files, next, files0, files1);
    var inputs1Size := SumFileSizes(files1);
    var expanded0Size := SumFileSizes(expanded0);
    if |expanded0| > |files0| && inputs1Size + expanded0Size < ExpandedCompactionByteSizeLimit(targetFileSize) {
      var newStart, newLimit := GetRange(expanded0);
      var expanded1, _, _ := GetOverlappingInputs(level + 1, next, Some(newStart.user), Some(newLimit.user));
      if |expanded1| == |files1| {
        ExpandedFit(files, next, files0, files1, expanded0, newStart, newLimit, expanded1);
        r0, r1 := expanded0, expanded1;
      }
      ExpandedTo(next, files0, files1, expanded0, newStart, newLimit, expanded1, targetFileSize, r0, r1);
    } else {
      StaysUnexpanded(next, files0, files1, expanded0, targetFileSize);
    }
    SetUpBy(level, files, next, in0, targetFileSize, files0, files1, expanded0, r0, r1);
  }

  // The level's files over the whole range of both input sets
  method RetakeInputs(level: nat, files: seq<File>, next: seq<File>, files0: seq<File>, files1: seq<File>)
    returns (all0: seq<File>)
    requires UniqueSeqs(FilesEntries(Elems(files))) && (level > 0 ==> InOrder(files))
    requires Fit(files, next, files0, files1) && files0 != []
    ensures Retaken(level, files, files0, files1, all0)
    ensures all0 != [] && Elems(files0) <= Elems(all0) <= Elems(files) && LeavesNoOlder(Elems(files), Elems(all0))
    ensures GapFree(Elems(files0) + Elems(files1)) ==> GapFree(Elems(all0) + Elems(files1))
  {
    ghost var both := Elems(files0) + Elems(files1);
    var allStart, allLimit := GetRange(files0 + files1);
    var start0, lo, hi := GetOverlappingInputs(level, files, Some(allStart.user), Some(allLimit.user), both);
    ExpansionStart(level, files, files0, files1, allStart, allLimit, lo, hi);
    all0 := AddBoundaryInputs(files, start0, Elems(files1));
    BoundaryClosedStart(level, files, start0, all0);
    RetakenBy(level, files, files0, files1, allStart, allLimit, start0, all0);
  }

  lemma ExpandedFit(files: seq<File>, next: seq<File>, files0: seq<File>, files1: seq<File>, all0: seq<File>,
                    newStart: InternalKey, newLimit: InternalKey, all1: seq<File>)
    requires Fit(files, next, files0, files1) && files0 != []
    requires Elems(files0) <= Elems(all0) <= Elems(files) && LeavesNoOlder(Elems(files), Elems(all0))
    requires IsRange(all0, newStart, newLimit) && all1 == Meeting(next, Some(newStart.user), Some(newLimit.user))
    requires GapFree(Elems(files0) + Elems(files1)) ==> GapFree(Elems(all0) + Elems(files1))
    ensures Fit(files, next, all0, all1)
    ensures GapFree(Elems(files0) + Elems(files1)) ==> GapFree(Elems(all0) + Elems(all1))
  {
    assert files0[0] in Elems(files0);
    hide LeavesNoOlder, GapFree, Meeting, IsRange;
    NextLevelTaken(next, all0, newStart, newLimit, all1);
    if GapFree(Elems(files0) + Elems(files1)) {
      ExpandedInputs(next, files0, files1, all0, newStart, newLimit, all1);
    }
  }

  lemma RetakenBy(level: nat, files: seq<File>, files0: seq<File>, files1: seq<File>, s: InternalKey, l: InternalKey,
                  x: seq<File>, all0: seq<File>)
    requires IsRange(files0 + files1, s, l) && AreOverlapping(level, files, Some(s.user), Some(l.user), x)
    requires ByBoundaries(files, x, all0)
    ensures Retaken(level, files, files0, files1, all0)
  {
  }

  lemma ExpandedTo(next: seq<File>, files0: seq<File>, files1: seq<File>, all0: seq<File>,
                   s: InternalKey, l: InternalKey, all1: seq<File>, targetFileSize: nat, r0: seq<File>, r1: seq<File>)
    requires files1 != [] && |all0| > |files0| && TotalFileSize(files1) + TotalFileSize(all0) < 25 * targetFileSize
    requires IsRange(all0, s, l) && all1 == Meeting(next, Some(s.user), Some(l.user))
    requires if |all1| == |files1| then r0 == all0 && r1 == all1 else r0 == files0 && r1 == files1
    ensures Expanded(next, files0, files1, all0, targetFileSize, r0, r1)
  {
    assert TakenFrom(next, all0, all1);
  }

  lemma StaysUnexpanded(next: seq<File>, files0: seq<File>, files1: seq<File>, all0: seq<File>, targetFileSize: nat)
    requires files1 == [] || |all0| <= |files0| || TotalFileSize(files1) + TotalFileSize(all0) >= 25 * targetFileSize
    ensures Expanded(next, files0, files1, all0, targetFileSize, files0, files1)
  {
  }

  lemma SetUpBy(level: nat, files: seq<File>, next: seq<File>, in0: seq<File>, targetFileSize: nat,
                files0: seq<File>, files1: seq<File>, all0: seq<File>, r0: seq<File>, r1: seq<File>)
    requires ByBoundaries(files, in0, files0) && TakenFrom(next, files0, files1)
    requires files1 != [] ==> Retaken(level, files, files0, files1, all0)
    requires Expanded(next, files0, files1, all0, targetFileSize, r0, r1)
    ensures SetUp(level, files, next, in0, targetFileSize, r0, r1)
  {
  }

  lemma NotExpanded(level: nat, files: seq<File>, next: seq<File>, in0: seq<File>, files0: seq<File>, targetFileSize: nat)
    requires ByBoundaries(files, in0, files0) && TakenFrom(next, files0, [])
    ensures SetUp(level, files, next, in0, targetFileSize, files0, [])
  {
    StaysUnexpanded(next, files0, [], files0, targetFileSize);
    SetUpBy(level, files, next, in0, targetFileSize, files0, [], files0, files0, []);
  }

  lemma ExpansionStart(level: nat, files: seq<File>, files0: seq<File>, files1: seq<File>,
                       allStart: InternalKey, allLimit: InternalKey, lo: Bound, hi: Bound)
    requires files0 != [] && Elems(files0) <= Elems(files) && IsRange(files0 + files1, allStart, allLimit)
    requires lo.Some? && hi.Some? && lo.value <= allStart.user && hi.value >= allLimit.user
    requires level == 0 ==> Closed(files, lo, hi)
    requires level > 0 ==> InOrder(files)
    requires var both := Elems(files0) + Elems(files1);
             CoveredRange(Elems(files) + both, Some(allStart.user), Some(allLimit.user)) ==>
               CoveredRange(Elems(Meeting(files, lo, hi)) + both, lo, hi)
    ensures Elems(files0) <= Elems(Meeting(files, lo, hi)) && GoodStart(level, files, Meeting(files, lo, hi))
    ensures GapFree(Elems(files0) + Elems(files1)) ==> GapFree(Elems(Meeting(files, lo, hi)) + Elems(files1))
  {
    ExpansionContains(files, files0, files1, allStart, allLimit, lo, hi);
    MeetingMembers(files, lo, hi);
    assert files0[0] in Elems(files0);
    if level > 0 {
      MeetingIsRun(files, lo, hi);
    }
    if GapFree(Elems(files0) + Elems(files1)) {
      GapFreeRangeOfInputs(files, files0, files1, allStart, allLimit);
      ExpansionIsGapFree(files, files0, files1, allStart, allLimit, lo, hi);
    }
  }

  lemma OneFileIsCovered(files: seq<File>, f: File)
    requires f in files
    ensures CoveredRange(Elems(files) + {}, Some(Lo(f)), Some(Hi(f)))
  {
    forall x: UserKey | Lo(f) <= x <= Hi(f) ensures CoversKey(Elems(files) + {}, x) {
    }
  }

  lemma LevelZeroStart(files: seq<File>, in0: seq<File>, lo: Bound, hi: Bound, start: File)
    requires start in files && in0 == Meeting(files, lo, hi) && Closed(files, lo, hi)
    requires lo.Some? && hi.Some? && lo.value <= Lo(start) && Hi(start) <= hi.value
    requires CoveredRange(Elems(in0) + {}, lo, hi)
    ensures GoodStart(0, files, in0) && GapFree(Elems(in0))
  {
    MeetingMembers(files, lo, hi);
    EntryWithinBounds(start, start.entries[0]);
    assert start in in0;
    assert Elems(in0) + {} == Elems(in0);
    MeetingACoveredRangeIsGapFree(Elems(in0), lo.value, hi.value);
  }

  lemma SingleFileStart(level: nat, files: seq<File>, start: File)
    requires start in files && level > 0 && InOrder(files)
    ensures GoodStart(level, files, [start]) && GapFree(Elems([start]))
  {
    forall f | f in files ensures !(FileBefore(start, f) && FileBefore(f, start)) {
      EntryWithinBounds(f, f.entries[0]);
      EntryWithinBounds(start, start.entries[0]);
    }
  }

  lemma EmptyAdds(A: set<File>, B: set<File>)
    ensures A + {} == A && B + {} == B
  {
  }

  lemma GapFreeRangeOfInputs(files: seq<File>, files0: seq<File>, files1: seq<File>,
                             allStart: InternalKey, allLimit: InternalKey)
    requires IsRange(files0 + files1, allStart, allLimit) && GapFree(Elems(files0) + Elems(files1))
    ensures CoveredRange(Elems(files) + (Elems(files0) + Elems(files1)), Some(allStart.user), Some(allLimit.user))
  {
    assert Elems(files0 + files1) == Elems(files0) + Elems(files1);
    GapFreeCoversRange(Elems(files0) + Elems(files1), files0 + files1, allStart, allLimit);
    forall x: UserKey | allStart.user <= x <= allLimit.user
      ensures CoversKey(Elems(files) + (Elems(files0) + Elems(files1)), x)
    {
      assert CoversKey(Elems(files0) + Elems(files1), x);
    }
  }

  // Cutting a manual compaction short keeps a run of neighbours.
  lemma PrefixIsRun(files: seq<File>, inputs: seq<File>, n: nat)
    requires InOrder(files) && InOrder(inputs) && Elems(inputs) <= Elems(files) && IsStretch(Elems(files), Elems(inputs))
    requires 0 < n <= |inputs|
    ensures Elems(inputs[..n]) <= Elems(files) && IsStretch(Elems(files), Elems(inputs[..n]))
  {
    forall f, g, h | f in files && f !in inputs[..n] && g in inputs[..n] && h in inputs[..n]
      ensures !(FileBefore(g, f) && FileBefore(f, h))
    {
      assert f in Elems(files) && g in Elems(inputs) && h in Elems(inputs);
      if f in inputs {
        var i :| 0 <= i < |inputs| && inputs[i] == f;
        var j :| 0 <= j < n && inputs[j] == h;
        assert FileBefore(h, f);
        EntryWithinBounds(f, f.entries[0]);
        EntryWithinBounds(h, h.entries[0]);
      }
    }
  }

  lemma {:induction false} MeetingInOrder(files: seq<File>, lo: Bound, hi: Bound)
    requires InOrder(files)
    ensures InOrder(Meeting(files, lo, hi))
  {
    if files != [] {
      var n := |files| - 1;
      MeetingInOrder(files[..n], lo, hi);
      MeetingMembers(files[..n], lo, hi);
      assert forall f :: f in Meeting(files[..n], lo, hi) ==> FileBefore(f, files[n]);
    }
  }
}
