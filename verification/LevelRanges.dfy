/** Which files of a level meet a user-key range: SomeFileOverlapsRange,
    GetOverlappingInputs, and the level a flushed memtable is pushed to. */
module LevelRanges {
  import opened InternalKeys
  import opened Versions

  // An absent bound is the code's null user key: before (after) all keys.
  type Bound = Option<UserKey>

  function MaxGrandParentOverlapBytes(targetFileSize: nat): nat { 10 * targetFileSize }

  predicate AfterFile(key: Bound, f: File) { key.Some? && key.value > Hi(f) }

  predicate BeforeFile(key: Bound, f: File) { key.Some? && key.value < Lo(f) }

  predicate Overlaps(f: File, lo: Bound, hi: Bound) { !AfterFile(lo, f) && !BeforeFile(hi, f) }

  // The files of a vector that overlap a range, in the vector's order.
  function Meeting(files: seq<File>, lo: Bound, hi: Bound): (r: seq<File>) {
    if files == [] then [] else
    var n := |files| - 1;
    Meeting(files[..n], lo, hi) + if Overlaps(files[n], lo, hi) then [files[n]] else []
  }

  lemma {:induction false} MeetingMembers(files: seq<File>, lo: Bound, hi: Bound)
    ensures forall f :: f in Meeting(files, lo, hi) <==> f in files && Overlaps(f, lo, hi)
  {
    if files != [] {
      var n := |files| - 1;
      MeetingMembers(files[..n], lo, hi);
      assert files == files[..n] + [files[n]];
    }
  }

  // [lo, hi] contains every file it overlaps.
  ghost predicate Closed(files: seq<File>, lo: Bound, hi: Bound) {
    forall f :: f in files && Overlaps(f, lo, hi) ==>
      (lo.Some? ==> lo.value <= Lo(f)) && (hi.Some? ==> Hi(f) <= hi.value)
  }

  ghost predicate AtOrBelow(a: Bound, b: Bound) { a.None? || (b.Some? && a.value <= b.value) }
  ghost predicate AtOrAbove(a: Bound, b: Bound) { a.None? || (b.Some? && a.value >= b.value) }

  // [lo, hi] lies in every closed range around [begin, end].
  ghost predicate WithinClosed(files: seq<File>, begin: Bound, end: Bound, lo: Bound, hi: Bound) {
    forall b, e :: Closed(files, b, e) && AtOrBelow(b, begin) && AtOrAbove(e, end) ==>
      AtOrBelow(b, lo) && AtOrAbove(e, hi)
  }

  ghost predicate CoversKey(files: set<File>, x: UserKey) {
    exists f :: f in files && Lo(f) <= x <= Hi(f)
  }

  // Every user key of the range lies in some file.
  ghost predicate Covered(files: set<File>, lo: UserKey, hi: UserKey) {
    forall x: UserKey :: lo <= x <= hi ==> CoversKey(files, x)
  }

  ghost predicate CoveredRange(files: set<File>, lo: Bound, hi: Bound) {
    lo.Some? && hi.Some? && Covered(files, lo.value, hi.value)
  }

  lemma WidenDown(files: seq<File>, begin: Bound, end: Bound, lo: Bound, hi: Bound, f: File,
                  pool: set<File>)
    requires f in files && f in pool && Overlaps(f, lo, hi) && lo.Some? && Lo(f) < lo.value
    requires WithinClosed(files, begin, end, lo, hi)
    ensures WithinClosed(files, begin, end, Some(Lo(f)), hi)
    ensures CoveredRange(pool, lo, hi) ==> CoveredRange(pool, Some(Lo(f)), hi)
  {
    forall b, e | Closed(files, b, e) && AtOrBelow(b, begin) && AtOrAbove(e, end)
      ensures AtOrBelow(b, Some(Lo(f))) && AtOrAbove(e, hi)
    {
      assert Overlaps(f, b, e);
    }
    if CoveredRange(pool, lo, hi) {
      forall x: UserKey | Lo(f) <= x <= hi.value ensures CoversKey(pool, x) {
        assert x < lo.value ==> Lo(f) <= x <= Hi(f);
      }
    }
  }

  lemma WidenUp(files: seq<File>, begin: Bound, end: Bound, lo: Bound, hi: Bound, f: File,
                  pool: set<File>)
    requires f in files && f in pool && Overlaps(f, lo, hi) && hi.Some? && Hi(f) > hi.value
    requires WithinClosed(files, begin, end, lo, hi)
    ensures WithinClosed(files, begin, end, lo, Some(Hi(f)))
    ensures CoveredRange(pool, lo, hi) ==> CoveredRange(pool, lo, Some(Hi(f)))
  {
    forall b, e | Closed(files, b, e) && AtOrBelow(b, begin) && AtOrAbove(e, end)
      ensures AtOrBelow(b, lo) && AtOrAbove(e, Some(Hi(f)))
    {
      assert Overlaps(f, b, e);
    }
    if CoveredRange(pool, lo, hi) {
      forall x: UserKey | lo.value <= x <= Hi(f) ensures CoversKey(pool, x) {
        assert x > hi.value ==> Lo(f) <= x <= Hi(f);
      }
    }
  }

  lemma MeetingCovers(files: seq<File>, lo: Bound, hi: Bound, extra: set<File>)
    requires CoveredRange(Elems(files) + extra, lo, hi)
    ensures CoveredRange(Elems(Meeting(files, lo, hi)) + extra, lo, hi)
  {
    MeetingMembers(files, lo, hi);
    forall x: UserKey | lo.value <= x <= hi.value ensures CoversKey(Elems(Meeting(files, lo, hi)) + extra, x) {
      assert CoversKey(Elems(files) + extra, x);
      var f :| f in Elems(files) + extra && Lo(f) <= x <= Hi(f);
      assert Overlaps(f, lo, hi);
    }
  }

  // ---- SomeFileOverlapsRange

  method SomeFileOverlapsRange(disjointSortedFiles: bool, files: seq<File>, lo: Bound, hi: Bound) returns (r: bool)
    requires disjointSortedFiles ==> InOrder(files)
    ensures r <==> exists f :: f in files && Overlaps(f, lo, hi)
  {
    if !disjointSortedFiles {
      var i := 0;
      while i < |files|
        invariant 0 <= i <= |files|
        invariant forall j :: 0 <= j < i ==> !Overlaps(files[j], lo, hi)
      {
        if AfterFile(lo, files[i]) || BeforeFile(hi, files[i]) {
        } else {
          assert Overlaps(files[i], lo, hi);
          return true;
        }
        i := i + 1;
      }
      return false;
    }
    var index := 0;
    if lo.Some? {
      index := FindFile(files, InternalKey(lo.value, MAX_SEQUENCE, KIND_FOR_SEEK));
    }
    if index >= |files| {
      return false;
    }
    r := !BeforeFile(hi, files[index]);
    forall j | index < j < |files| ensures Overlaps(files[j], lo, hi) ==> r {
      assert FileBefore(files[index], files[j]);
      EntryWithinBounds(files[index], files[index].entries[0]);
    }
    assert r ==> Overlaps(files[index], lo, hi);
  }

  // ---- GetOverlappingInputs

  // How many files can still push the range out: the level-0 scan restarts at most that often.
  function LowerStarts(files: seq<File>, lo: Bound): nat {
    if files == [] then 0 else (if BeforeFileStart(files[0], lo) then 1 else 0) + LowerStarts(files[1..], lo)
  }

  predicate BeforeFileStart(f: File, lo: Bound) { lo.Some? && Lo(f) < lo.value }

  function HigherLimits(files: seq<File>, hi: Bound): nat {
    if files == [] then 0 else (if AfterFileLimit(files[0], hi) then 1 else 0) + HigherLimits(files[1..], hi)
  }

  predicate AfterFileLimit(f: File, hi: Bound) { hi.Some? && Hi(f) > hi.value }

  lemma {:induction false} LowerStartsShrink(files: seq<File>, old_: Bound, new_: Bound)
    requires old_.Some? && new_.Some? && new_.value < old_.value
    ensures LowerStarts(files, new_) <= LowerStarts(files, old_)
    ensures (exists f :: f in files && Lo(f) == new_.value) ==> LowerStarts(files, new_) < LowerStarts(files, old_)
  {
    if files != [] {
      LowerStartsShrink(files[1..], old_, new_);
      assert files == [files[0]] + files[1..];
    }
  }

  lemma {:induction false} HigherLimitsShrink(files: seq<File>, old_: Bound, new_: Bound)
    requires old_.Some? && new_.Some? && new_.value > old_.value
    ensures HigherLimits(files, new_) <= HigherLimits(files, old_)
    ensures (exists f :: f in files && Hi(f) == new_.value) ==> HigherLimits(files, new_) < HigherLimits(files, old_)
  {
    if files != [] {
      HigherLimitsShrink(files[1..], old_, new_);
      assert files == [files[0]] + files[1..];
    }
  }

  // What the scan knows after looking at the first i files.
  ghost predicate Scanned(level: nat, files: seq<File>, i: nat, begin: Bound, end: Bound, lo: Bound, hi: Bound)
    requires i <= |files|
  {
    && lo.Some? == begin.Some? && hi.Some? == end.Some?
    && (level > 0 ==> lo == begin && hi == end)
    && AtOrBelow(lo, begin) && AtOrAbove(hi, end)
    && (level == 0 ==> Closed(files[..i], lo, hi))
    && WithinClosed(files, begin, end, lo, hi)
  }

  lemma ScanStep(level: nat, files: seq<File>, i: nat, begin: Bound, end: Bound, lo: Bound, hi: Bound)
    requires i < |files| && Scanned(level, files, i, begin, end, lo, hi)
    ensures level > 0 || !Overlaps(files[i], lo, hi)
            || ((lo.Some? ==> lo.value <= Lo(files[i])) && (hi.Some? ==> Hi(files[i]) <= hi.value)) ==>
              Scanned(level, files, i + 1, begin, end, lo, hi)
    ensures Meeting(files[..i + 1], lo, hi)
         == Meeting(files[..i], lo, hi) + if Overlaps(files[i], lo, hi) then [files[i]] else []
  {
    assert files[..i + 1] == files[..i] + [files[i]];
    assert files[..i + 1][..i] == files[..i];
  }

  // The files GetOverlappingInputs chooses
  ghost predicate AreOverlapping(level: nat, files: seq<File>, begin: Bound, end: Bound, inputs: seq<File>) {
    if level > 0 then inputs == Meeting(files, begin, end)
    else exists lo, hi ::
      && inputs == Meeting(files, lo, hi)
      && lo.Some? == begin.Some? && hi.Some? == end.Some? && AtOrBelow(lo, begin) && AtOrAbove(hi, end)
      && Closed(files, lo, hi) && WithinClosed(files, begin, end, lo, hi)
  }

  // Version::GetOverlappingInputs. The inputs are exactly the files overlapping [lo, hi].
  // On levels >= 1 that is the given range; on level 0 it is the least range containing the
  // given one and every file it meets.
  method GetOverlappingInputs(level: nat, files: seq<File>, begin: Bound, end: Bound, ghost extra: set<File> := {})
    returns (inputs: seq<File>, ghost lo: Bound, ghost hi: Bound)
    ensures AreOverlapping(level, files, begin, end, inputs)
    ensures inputs == Meeting(files, lo, hi)
    ensures level > 0 ==> lo == begin && hi == end
    ensures level == 0 ==> Closed(files, lo, hi) && AtOrBelow(lo, begin) && AtOrAbove(hi, end)
    ensures level == 0 ==> WithinClosed(files, begin, end, lo, hi)
    ensures lo.Some? == begin.Some? && hi.Some? == end.Some?
    // In terms of the files alone: all that meet the given range, on level 0 all that meet a chosen one.
    ensures forall f :: f in inputs ==> f in files
    ensures forall f | f in files && Overlaps(f, begin, end) :: f in inputs
    ensures level > 0 ==> forall f :: f in inputs ==> Overlaps(f, begin, end)
    ensures level == 0 ==> forall f, g | f in files && g in inputs && Lo(f) <= Hi(g) && Lo(g) <= Hi(f) :: f in inputs
    // A range without gaps stays without gaps.
    ensures CoveredRange(Elems(files) + extra, begin, end) ==> CoveredRange(Elems(inputs) + extra, lo, hi)
  {
    ghost var pool := Elems(files) + extra;
    inputs := [];
    var userBegin, userEnd := begin, end;
    var i := 0;
    while i < |files|
      invariant 0 <= i <= |files|
      invariant inputs == Meeting(files[..i], userBegin, userEnd)
      invariant Scanned(level, files, i, begin, end, userBegin, userEnd)
      invariant CoveredRange(pool, begin, end) ==> CoveredRange(pool, userBegin, userEnd)
      decreases LowerStarts(files, userBegin) + HigherLimits(files, userEnd), |files| - i
    {
      var f := files[i];
      ScanStep(level, files, i, begin, end, userBegin, userEnd);
      i := i + 1;
      if (begin.Some? && Hi(f) < userBegin.value) || (end.Some? && Lo(f) > userEnd.value) {
        // Completely before or after the range.
      } else {
        inputs := inputs + [f];
        if level == 0 {
          if begin.Some? && Lo(f) < userBegin.value {
            LowerStartsShrink(files, userBegin, Some(Lo(f)));
            WidenDown(files, begin, end, userBegin, userEnd, f, pool);
            userBegin, inputs, i := Some(Lo(f)), [], 0;
          } else if end.Some? && Hi(f) > userEnd.value {
            HigherLimitsShrink(files, userEnd, Some(Hi(f)));
            WidenUp(files, begin, end, userBegin, userEnd, f, pool);
            userEnd, inputs, i := Some(Hi(f)), [], 0;
          }
        }
      }
    }
    assert files[..i] == files;
    lo, hi := userBegin, userEnd;
    hide *;
    RangeChooses(level, files, begin, end, lo, hi);
    if CoveredRange(pool, lo, hi) {
      MeetingCovers(files, lo, hi, extra);
    }
  }

  // What the scanned range says about the files it meets
  lemma RangeChooses(level: nat, files: seq<File>, begin: Bound, end: Bound, lo: Bound, hi: Bound)
    requires Scanned(level, files, |files|, begin, end, lo, hi)
    ensures var inputs := Meeting(files, lo, hi);
            && (level > 0 ==> lo == begin && hi == end)
            && (level == 0 ==> Closed(files, lo, hi) && AtOrBelow(lo, begin) && AtOrAbove(hi, end)
                               && WithinClosed(files, begin, end, lo, hi))
            && lo.Some? == begin.Some? && hi.Some? == end.Some?
            && (forall f :: f in inputs ==> f in files)
            && (forall f | f in files && Overlaps(f, begin, end) :: f in inputs)
            && (level > 0 ==> forall f :: f in inputs ==> Overlaps(f, begin, end))
            && (level == 0 ==> forall f, g | f in files && g in inputs && Lo(f) <= Hi(g) && Lo(g) <= Hi(f) :: f in inputs)
  {
    assert files[..|files|] == files;
    MeetingMembers(files, lo, hi);
  }

  // ---- Sizes

  function TotalFileSize(files: seq<File>): nat {
    if files == [] then 0 else TotalFileSize(files[..|files| - 1]) + files[|files| - 1].size
  }

  method SumFileSizes(files: seq<File>) returns (sum: nat)
    ensures sum == TotalFileSize(files)
  {
    sum := 0;
    var i := 0;
    while i < |files|
      invariant 0 <= i <= |files| && sum == TotalFileSize(files[..i])
    {
      assert files[..i + 1][..i] == files[..i];
      sum := sum + files[i].size;
      i := i + 1;
    }
    assert files[..i] == files;
  }

  // ---- PickLevelForMemTableOutput

  ghost predicate ClearOf(files: seq<File>, lo: UserKey, hi: UserKey) {
    forall f :: f in files ==> !Meets(f, lo, hi)
  }

  // A flush may be pushed from level to level + 1.
  ghost predicate MayPush(v: Version, level: nat, lo: UserKey, hi: UserKey, targetFileSize: nat)
    requires level < 2
  {
    && ClearOf(v[level + 1], lo, hi)
    && TotalFileSize(Meeting(v[level + 2], Some(lo), Some(hi))) <= 10 * targetFileSize
  }

  lemma ClearMeansNoOverlap(files: seq<File>, lo: UserKey, hi: UserKey)
    ensures ClearOf(files, lo, hi) <==> !exists f :: f in files && Overlaps(f, Some(lo), Some(hi))
  {
    if f :| f in files && Overlaps(f, Some(lo), Some(hi)) {
      assert Meets(f, lo, hi);
    }
    assert forall f :: Meets(f, lo, hi) ==> Overlaps(f, Some(lo), Some(hi));
  }

  // The bytes of a level's files that meet the range
  method OverlappingBytes(level: nat, files: seq<File>, lo: UserKey, hi: UserKey) returns (sum: nat)
    requires level > 0
    ensures sum == TotalFileSize(Meeting(files, Some(lo), Some(hi)))
  {
    hide *;
    var overlaps, _, _ := GetOverlappingInputs(level, files, Some(lo), Some(hi));
    sum := SumFileSizes(overlaps);
  }

  method PickLevelForMemTableOutput(v: Version, lo: UserKey, hi: UserKey, targetFileSize: nat) returns (level: nat)
    requires VersionInv(v)
    ensures level <= 2
    ensures level > 0 ==> forall l :: 0 <= l <= level ==> ClearOf(v[l], lo, hi)
    // The level is as deep as the rules allow.
    ensures level > 0 ==> forall l :: 0 <= l < level ==> MayPush(v, l, lo, hi, targetFileSize)
    ensures level < 2 ==>
              (level == 0 && !ClearOf(v[0], lo, hi)) || !MayPush(v, level, lo, hi, targetFileSize)
  {
    hide ClearOf, Overlaps, TotalFileSize, Meeting;
    level := 0;
    var overlap := SomeFileOverlapsRange(false, v[0], Some(lo), Some(hi));
    ClearMeansNoOverlap(v[0], lo, hi);
    if !overlap {
      while level < MAX_MEM_COMPACT_LEVEL
        invariant level <= MAX_MEM_COMPACT_LEVEL
        invariant forall l :: 0 <= l <= level ==> ClearOf(v[l], lo, hi)
        invariant forall l :: 0 <= l < level ==> MayPush(v, l, lo, hi, targetFileSize)
      {
        overlap := SomeFileOverlapsRange(true, v[level + 1], Some(lo), Some(hi));
        ClearMeansNoOverlap(v[level + 1], lo, hi);
        if overlap {
          break;
        }
        var sum := OverlappingBytes(level + 2, v[level + 2], lo, hi);
        if sum > MaxGrandParentOverlapBytes(targetFileSize) {
          break;
        }
        level := level + 1;
      }
    }
  }
}
