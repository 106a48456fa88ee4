/** Choosing the inputs of a compaction: PickCompaction, CompactRange, AddBoundaryInputs and
    SetupOtherInputs, and what every chosen set of inputs guarantees. */
module Picking {
  import opened InternalKeys
  import opened Versions
  import opened LevelRanges

  function ExpandedCompactionByteSizeLimit(targetFileSize: nat): nat { 25 * targetFileSize }

  datatype Compaction = Compaction(level: nat, in0: seq<File>, in1: seq<File>, grandparents: seq<File>)
  {
    ghost function Inputs0(): set<File> { Elems(in0) }
    ghost function Inputs1(): set<File> { Elems(in1) }
    ghost function Inputs(): set<File> { Elems(in0) + Elems(in1) }
  }

  // ---- What the inputs guarantee

  // Some chosen file starts at or before x and some chosen file ends at or after it.
  ghost predicate InHull(files: set<File>, x: UserKey) {
    exists f, g :: f in files && g in files && Lo(f) <= x <= Hi(g)
  }

  ghost predicate GapFree(files: set<File>) {
    forall x: UserKey :: InHull(files, x) ==> CoversKey(files, x)
  }

  ghost predicate MeetsHull(files: set<File>, f: File) {
    exists g, h :: g in files && h in files && Lo(g) <= Hi(f) && Lo(f) <= Hi(h)
  }

  // The files left behind at the inputs' own level hold nothing older than the inputs.
  ghost predicate LeavesNoOlder(levelFiles: set<File>, in0: set<File>) {
    forall f, g :: f in levelFiles && f !in in0 && g in in0 ==> Newer(f, g)
  }

  // No file left behind starts with the user key at which a chosen file before it ends.
  ghost predicate SharesNoBoundary(levelFiles: set<File>, chosen: set<File>) {
    forall f, g :: f in chosen && g in levelFiles && g !in chosen ==> !(FileBefore(f, g) && Hi(f) == Lo(g))
  }

  // On a level in order that is the same as leaving nothing older behind.
  lemma BoundaryClosedIff(levelFiles: set<File>, chosen: set<File>)
    requires Disjoint(levelFiles) && chosen <= levelFiles && UniqueSeqs(FilesEntries(levelFiles))
    ensures LeavesNoOlder(levelFiles, chosen) <==> SharesNoBoundary(levelFiles, chosen)
  {
    forall f, g | f in chosen && g in levelFiles && g !in chosen
      ensures Newer(g, f) <==> !(FileBefore(f, g) && Hi(f) == Lo(g))
    {
      var last, first := f.entries[|f.entries| - 1], g.entries[0];
      assert last in f.entries && first in g.entries;
      forall e, x | e in g.entries && x in f.entries && e.Key() == x.Key() && e.Seq() <= x.Seq()
        ensures FileBefore(f, g) && Hi(f) == Lo(g)
      {
        EntryWithinBounds(g, e);
        EntryWithinBounds(f, x);
        assert e in FilesEntries(levelFiles) && x in FilesEntries(levelFiles);
      }
    }
  }

  // The next level contributes exactly the files meeting the inputs' range.
  ghost predicate TakesWhatItMeets(nextFiles: set<File>, in0: set<File>, in1: set<File>) {
    forall f :: f in in1 <==> f in nextFiles && MeetsHull(in0, f)
  }

  ghost predicate WellChosen(t: Tree, level: nat, in0: set<File>, in1: set<File>) {
    && level + 1 < NUM_LEVELS
    && in0 != {} && in0 <= t[level]
    && LeavesNoOlder(t[level], in0)
    && TakesWhatItMeets(t[level + 1], in0, in1)
  }

  // ---- Growing a set without gaps

  lemma TouchingKeepsGapFree(S: set<File>, G: set<File>)
    requires GapFree(S) && forall b :: b in G ==> MeetsHull(S, b)
    ensures GapFree(S + G)
  {
    forall x: UserKey | InHull(S + G, x) ensures CoversKey(S + G, x) {
      var p, q :| p in S + G && q in S + G && Lo(p) <= x <= Hi(q);
      if p in G && x <= Hi(p) {
      } else if q in G && Lo(q) <= x {
      } else {
        if p in G {
          var g, h :| g in S && h in S && Lo(g) <= Hi(p) && Lo(p) <= Hi(h);
          p := g;
        }
        if q in G {
          var g, h :| g in S && h in S && Lo(g) <= Hi(q) && Lo(q) <= Hi(h);
          q := h;
        }
        assert InHull(S, x);
        assert CoversKey(S, x);
      }
    }
  }

  lemma MeetingACoveredRangeIsGapFree(S: set<File>, lo: UserKey, hi: UserKey)
    requires Covered(S, lo, hi) && forall f :: f in S ==> Meets(f, lo, hi)
    ensures GapFree(S)
  {
    forall x: UserKey | InHull(S, x) ensures CoversKey(S, x) {
      var p, q :| p in S && q in S && Lo(p) <= x <= Hi(q);
      if x < lo {
        assert Lo(p) <= x <= Hi(p);
      } else if x > hi {
        assert Lo(q) <= x <= Hi(q);
      }
    }
  }

  // ---- GetRange

  ghost predicate IsRange(files: seq<File>, smallest: InternalKey, largest: InternalKey) {
    && (exists f :: f in files && Smallest(f) == smallest)
    && (exists f :: f in files && Largest(f) == largest)
    && forall f :: f in files ==> NotAfter(smallest, Smallest(f)) && NotAfter(Largest(f), largest)
  }

  method GetRange(files: seq<File>) returns (smallest: InternalKey, largest: InternalKey)
    requires files != []
    ensures IsRange(files, smallest, largest)
  {
    smallest, largest := Smallest(files[0]), Largest(files[0]);
    var i := 1;
    while i < |files|
      invariant 1 <= i <= |files|
      invariant IsRange(files[..i], smallest, largest)
    {
      assert files[..i + 1] == files[..i] + [files[i]];
      ghost var s :| s in files[..i] && Smallest(s) == smallest;
      ghost var l :| l in files[..i] && Largest(l) == largest;
      ghost var was := (smallest, largest);
      if Before(Smallest(files[i]), smallest) {
        smallest := Smallest(files[i]);
        s := files[i];
      }
      if Before(largest, Largest(files[i])) {
        largest := Largest(files[i]);
        l := files[i];
      }
      assert s in files[..i + 1] && Smallest(s) == smallest && l in files[..i + 1] && Largest(l) == largest;
      forall f | f in files[..i + 1] ensures NotAfter(smallest, Smallest(f)) && NotAfter(Largest(f), largest) {
        assert f in files[..i] || f == files[i];
      }
      i := i + 1;
    }
    assert files[..i] == files;
  }

  lemma RangeIsHull(files: seq<File>, smallest: InternalKey, largest: InternalKey, f: File)
    requires IsRange(files, smallest, largest)
    ensures Meets(f, smallest.user, largest.user) <==> MeetsHull(Elems(files), f)
  {
    var s :| s in files && Smallest(s) == smallest;
    var l :| l in files && Largest(l) == largest;
    if Meets(f, smallest.user, largest.user) {
      assert s in Elems(files) && l in Elems(files) && Lo(s) <= Hi(f) && Lo(f) <= Hi(l);
    }
  }

  // ---- AddBoundaryInputs

  // A file continues the user key at which the compaction stops.
  predicate IsBoundaryFile(f: File, largest: InternalKey) {
    Before(largest, Smallest(f)) && Lo(f) == largest.user
  }

  ghost predicate IsMaximum(files: seq<File>, largest: InternalKey) {
    && (exists f :: f in files && Largest(f) == largest)
    && forall f :: f in files ==> NotAfter(Largest(f), largest)
  }

  method FindLargestKey(files: seq<File>) returns (largest: Option<InternalKey>)
    ensures largest.None? <==> files == []
    ensures largest.Some? ==> IsMaximum(files, largest.value)
  {
    if files == [] {
      return None;
    }
    var key := Largest(files[0]);
    var i := 1;
    while i < |files|
      invariant 1 <= i <= |files|
      invariant IsMaximum(files[..i], key)
    {
      assert files[..i + 1] == files[..i] + [files[i]];
      ghost var l :| l in files[..i] && Largest(l) == key;
      assert l in files[..i + 1] && files[i] in files[..i + 1];
      if Before(key, Largest(files[i])) {
        key := Largest(files[i]);
      }
      i := i + 1;
    }
    assert files[..i] == files;
    largest := Some(key);
  }

  method FindSmallestBoundaryFile(levelFiles: seq<File>, largest: InternalKey) returns (r: Option<File>)
    ensures r.None? ==> forall f :: f in levelFiles ==> !IsBoundaryFile(f, largest)
    ensures r.Some? ==> r.value in levelFiles && IsBoundaryFile(r.value, largest)
    ensures r.Some? ==> forall f :: f in levelFiles && IsBoundaryFile(f, largest) ==>
              NotAfter(Smallest(r.value), Smallest(f))
  {
    r := None;
    var i := 0;
    while i < |levelFiles|
      invariant 0 <= i <= |levelFiles|
      invariant r.None? ==> forall j :: 0 <= j < i ==> !IsBoundaryFile(levelFiles[j], largest)
      invariant r.Some? ==> r.value in levelFiles && IsBoundaryFile(r.value, largest)
      invariant r.Some? ==> forall j :: 0 <= j < i && IsBoundaryFile(levelFiles[j], largest) ==>
                  NotAfter(Smallest(r.value), Smallest(levelFiles[j]))
    {
      var f := levelFiles[i];
      if IsBoundaryFile(f, largest) && (r.None? || Before(Smallest(f), Smallest(r.value))) {
        r := Some(f);
      }
      i := i + 1;
    }
  }

  // How many files start after a key: each boundary file found leaves fewer.
  function StartsAfter(files: seq<File>, key: InternalKey): nat {
    if files == [] then 0 else (if Before(key, Smallest(files[0])) then 1 else 0) + StartsAfter(files[1..], key)
  }

  lemma {:induction false} StartsAfterShrinks(files: seq<File>, low: InternalKey, high: InternalKey)
    requires Before(low, high)
    ensures StartsAfter(files, high) <= StartsAfter(files, low)
    ensures (exists f :: f in files && Before(low, Smallest(f)) && NotAfter(Smallest(f), high)) ==>
              StartsAfter(files, high) < StartsAfter(files, low)
  {
    if files != [] {
      StartsAfterShrinks(files[1..], low, high);
      assert files == [files[0]] + files[1..];
    }
  }

  // On a sorted level the chosen files are neighbours.
  ghost predicate IsStretch(levelFiles: set<File>, chosen: set<File>) {
    forall f, g, h :: f in levelFiles && f !in chosen && g in chosen && h in chosen ==>
      !(FileBefore(g, f) && FileBefore(f, h))
  }

  // Among the level's files that continue the last user key chosen, the one that starts first.
  ghost predicate IsNextBoundary(levelFiles: seq<File>, chosen: seq<File>, f: File) {
    && f in levelFiles
    && (exists last ::
          && IsMaximum(chosen, last) && Before(last, Smallest(f)) && Lo(f) == last.user
          && forall g :: g in levelFiles && Before(last, Smallest(g)) && Lo(g) == last.user ==>
               NotAfter(Smallest(f), Smallest(g)))
  }

  // One boundary file after another, as long as there is one
  ghost predicate ByBoundaries(levelFiles: seq<File>, first: seq<File>, r: seq<File>) {
    && first <= r
    && (forall k :: |first| <= k < |r| ==> IsNextBoundary(levelFiles, r[..k], r[k]))
    && (forall f :: !IsNextBoundary(levelFiles, r, f))
  }

  lemma NextBoundaryAdded(levelFiles: seq<File>, first: seq<File>, r: seq<File>, last: InternalKey, b: File)
    requires first <= r && forall k :: |first| <= k < |r| ==> IsNextBoundary(levelFiles, r[..k], r[k])
    requires IsMaximum(r, last) && b in levelFiles && IsBoundaryFile(b, last)
    requires forall f :: f in levelFiles && IsBoundaryFile(f, last) ==> NotAfter(Smallest(b), Smallest(f))
    ensures first <= r + [b]
    ensures forall k :: |first| <= k < |r + [b]| ==> IsNextBoundary(levelFiles, (r + [b])[..k], (r + [b])[k])
  {
    forall k | |first| <= k < |r + [b]| ensures IsNextBoundary(levelFiles, (r + [b])[..k], (r + [b])[k]) {
      if k < |r| {
        assert (r + [b])[..k] == r[..k];
      } else {
        assert (r + [b])[..k] == r;
      }
    }
  }

  lemma NoBoundaryLeft(levelFiles: seq<File>, r: seq<File>, last: InternalKey)
    requires IsMaximum(r, last) && forall f :: f in levelFiles ==> !IsBoundaryFile(f, last)
    ensures forall f :: !IsNextBoundary(levelFiles, r, f)
  {
    forall other | IsMaximum(r, other) ensures other == last {
      BeforeIsTotal(other, last);
    }
  }

  method AddBoundaryInputs(levelFiles: seq<File>, compactionFiles: seq<File>, ghost extra: set<File> := {})
    returns (r: seq<File>)
    ensures compactionFiles == [] ==> r == []
    ensures ByBoundaries(levelFiles, compactionFiles, r)
    ensures compactionFiles <= r
    ensures forall f :: f in r ==> f in compactionFiles || f in levelFiles
    // The largest key grew with each file added, and no file continues it.
    ensures compactionFiles != [] ==>
              exists last :: IsMaximum(r, last) && forall f :: f in levelFiles ==> !IsBoundaryFile(f, last)
    ensures (forall last, f :: IsMaximum(compactionFiles, last) && f in levelFiles ==> !IsBoundaryFile(f, last)) ==>
              r == compactionFiles
    ensures GapFree(Elems(compactionFiles) + extra) ==> GapFree(Elems(r) + extra)
    ensures (InOrder(levelFiles) && Elems(compactionFiles) <= Elems(levelFiles)
             && IsStretch(Elems(levelFiles), Elems(compactionFiles))) ==>
              IsStretch(Elems(levelFiles), Elems(r))
  {
    r := compactionFiles;
    var found := FindLargestKey(compactionFiles);
    if found.None? {
      return;
    }
    var largest := found.value;
    var continueSearching := true;
    while continueSearching
      invariant compactionFiles <= r
      invariant forall k :: |compactionFiles| <= k < |r| ==> IsNextBoundary(levelFiles, r[..k], r[k])
      invariant forall f :: f in r ==> f in compactionFiles || f in levelFiles
      invariant IsMaximum(r, largest)
      invariant !continueSearching ==> forall f :: f in levelFiles ==> !IsBoundaryFile(f, largest)
      invariant (forall last, f :: IsMaximum(compactionFiles, last) && f in levelFiles ==>
                   !IsBoundaryFile(f, last)) ==> r == compactionFiles
      invariant GapFree(Elems(compactionFiles) + extra) ==> GapFree(Elems(r) + extra)
      invariant (InOrder(levelFiles) && Elems(compactionFiles) <= Elems(levelFiles)
                 && IsStretch(Elems(levelFiles), Elems(compactionFiles))) ==>
                  IsStretch(Elems(levelFiles), Elems(r))
      decreases StartsAfter(levelFiles, largest), continueSearching
    {
      var boundary := FindSmallestBoundaryFile(levelFiles, largest);
      if boundary.Some? {
        var b := boundary.value;
        EntryWithinBounds(b, b.entries[0]);
        StartsAfterShrinks(levelFiles, largest, Largest(b));
        AddingBoundaryFile(levelFiles, r, largest, b, extra);
        NextBoundaryAdded(levelFiles, compactionFiles, r, largest, b);
        r := r + [b];
        largest := Largest(b);
      } else {
        continueSearching := false;
      }
    }
    NoBoundaryLeft(levelFiles, r, largest);
  }

  lemma AddingBoundaryFile(levelFiles: seq<File>, files: seq<File>, largest: InternalKey, b: File,
                           extra: set<File>)
    requires IsMaximum(files, largest) && b in levelFiles && IsBoundaryFile(b, largest)
    requires forall f :: f in levelFiles && IsBoundaryFile(f, largest) ==> NotAfter(Smallest(b), Smallest(f))
    ensures IsMaximum(files + [b], Largest(b))
    ensures GapFree(Elems(files) + extra) ==> GapFree(Elems(files + [b]) + extra)
    ensures InOrder(levelFiles) && Elems(files) <= Elems(levelFiles) && IsStretch(Elems(levelFiles), Elems(files)) ==>
              IsStretch(Elems(levelFiles), Elems(files + [b]))
  {
    EntryWithinBounds(b, b.entries[0]);
    assert b in files + [b];
    var top :| top in files && Largest(top) == largest;
    assert Elems(files + [b]) == Elems(files) + {b};
    EntryWithinBounds(top, top.entries[0]);
    assert MeetsHull(Elems(files) + extra, b) by {
      assert top in Elems(files) + extra && Lo(top) <= Hi(b) && Lo(b) <= Hi(top);
    }
    if GapFree(Elems(files) + extra) {
      TouchingKeepsGapFree(Elems(files) + extra, {b});
      assert Elems(files) + extra + {b} == Elems(files + [b]) + extra;
    }
    if InOrder(levelFiles) && Elems(files) <= Elems(levelFiles) && IsStretch(Elems(levelFiles), Elems(files)) {
      forall f, g, h | f in levelFiles && f !in files + [b] && g in files + [b] && h in files + [b]
        ensures !(FileBefore(g, f) && FileBefore(f, h))
      {
        NothingBetween(levelFiles, files, largest, top, b, f, g, h);
      }
    }
  }

  lemma NothingBetween(levelFiles: seq<File>, files: seq<File>, largest: InternalKey, top: File, b: File,
                       f: File, g: File, h: File)
    requires InOrder(levelFiles) && Elems(files) <= Elems(levelFiles) && IsStretch(Elems(levelFiles), Elems(files))
    requires IsMaximum(files, largest) && top in files && Largest(top) == largest
    requires b in levelFiles && IsBoundaryFile(b, largest)
    requires forall x :: x in levelFiles && IsBoundaryFile(x, largest) ==> NotAfter(Smallest(b), Smallest(x))
    requires f in levelFiles && f !in files && f != b
    requires (g in files || g == b) && (h in files || h == b)
    ensures !(FileBefore(g, f) && FileBefore(f, h))
  {
    EntryWithinBounds(f, f.entries[0]);
    EntryWithinBounds(b, b.entries[0]);
    EntryWithinBounds(h, h.entries[0]);
    EntryWithinBounds(g, g.entries[0]);
    InOrderIsDisjoint(levelFiles);
    assert f in Elems(levelFiles) && top in Elems(files) && top in Elems(levelFiles);
    if h == b && g in files {
      assert FileBefore(f, top) || FileBefore(top, f);
      if FileBefore(top, f) && FileBefore(f, b) {
        assert IsBoundaryFile(f, largest);
      }
    }
  }

  lemma InOrderIsDisjoint(files: seq<File>)
    requires InOrder(files)
    ensures Disjoint(Elems(files))
  {
    forall f, g | f in files && g in files && f != g ensures FileBefore(f, g) || FileBefore(g, f) {
      var i :| 0 <= i < |files| && files[i] == f;
      var j :| 0 <= j < |files| && files[j] == g;
      assert i < j || j < i;
    }
  }

  // No older entry of a chosen user key stays behind on a sorted level.
  lemma ClosedRunLeavesNoOlder(levelFiles: seq<File>, in0: seq<File>, last: InternalKey)
    requires InOrder(levelFiles) && Elems(in0) <= Elems(levelFiles) && IsStretch(Elems(levelFiles), Elems(in0))
    requires IsMaximum(in0, last) && forall f :: f in levelFiles ==> !IsBoundaryFile(f, last)
    requires UniqueSeqs(FilesEntries(Elems(levelFiles)))
    ensures LeavesNoOlder(Elems(levelFiles), Elems(in0))
  {
    InOrderIsDisjoint(levelFiles);
    forall f, g, e, x | f in levelFiles && f !in in0 && g in in0
                        && e in f.entries && x in g.entries && e.Key() == x.Key()
      ensures e.Seq() > x.Seq()
    {
      assert f in Elems(levelFiles) && g in Elems(levelFiles) && g in Elems(in0);
      EntryWithinBounds(f, e);
      EntryWithinBounds(g, x);
      if !FileBefore(f, g) {
        FilesAfterTheRunAreClear(levelFiles, in0, last, f, g);
      }
      OlderSeqLater(f, g, e, x);
      assert e in FilesEntries(Elems(levelFiles)) && x in FilesEntries(Elems(levelFiles));
    }
  }

  lemma FilesAfterTheRunAreClear(levelFiles: seq<File>, in0: seq<File>, last: InternalKey, f: File, g: File)
    requires InOrder(levelFiles) && Elems(in0) <= Elems(levelFiles) && IsStretch(Elems(levelFiles), Elems(in0))
    requires IsMaximum(in0, last) && forall f :: f in levelFiles ==> !IsBoundaryFile(f, last)
    requires f in levelFiles && f !in in0 && g in in0 && !FileBefore(f, g)
    ensures Hi(g) < Lo(f)
  {
    InOrderIsDisjoint(levelFiles);
    var top :| top in in0 && Largest(top) == last;
    assert f in Elems(levelFiles) && g in Elems(in0) && top in Elems(in0);
    assert g in Elems(levelFiles) && top in Elems(levelFiles);
    assert FileBefore(top, f) || FileBefore(f, top);
    EntryWithinBounds(g, g.entries[0]);
    EntryWithinBounds(f, f.entries[0]);
    assert !IsBoundaryFile(f, last);
  }

  lemma OlderSeqLater(f: File, g: File, e: Entry, x: Entry)
    requires FileBefore(f, g) && e in f.entries && x in g.entries && e.Key() == x.Key()
    ensures e.Seq() >= x.Seq() && e != x
  {
    EntryWithinBounds(f, e);
    EntryWithinBounds(g, x);
  }

  // ---- Starting points

  // On level 0 the inputs are closed under overlap; on a sorted level they are neighbours.
  ghost predicate GoodStart(level: nat, files: seq<File>, in0: seq<File>) {
    && in0 != [] && Elems(in0) <= Elems(files)
    && (level == 0 ==> exists lo, hi :: Closed(files, lo, hi) && in0 == Meeting(files, lo, hi))
    && (level > 0 ==> InOrder(files) && IsStretch(Elems(files), Elems(in0)))
  }

  lemma ClosedLevelZeroInputs(files: seq<File>, lo: Bound, hi: Bound, in0: seq<File>)
    requires Closed(files, lo, hi) && in0 == Meeting(files, lo, hi)
    ensures LeavesNoOlder(Elems(files), Elems(in0))
    ensures forall last, f :: IsMaximum(in0, last) && f in files ==> !IsBoundaryFile(f, last)
  {
    MeetingMembers(files, lo, hi);
    forall f, g | f in files && f !in in0 && g in in0 ensures Newer(f, g) {
      ApartFilesAreNewer(f, g);
    }
    forall last, f | IsMaximum(in0, last) && f in files ensures !IsBoundaryFile(f, last) {
      var top :| top in in0 && Largest(top) == last;
      EntryWithinBounds(f, f.entries[0]);
      EntryWithinBounds(top, top.entries[0]);
    }
  }

  lemma BoundaryClosedStart(level: nat, files: seq<File>, in0: seq<File>, r: seq<File>)
    requires GoodStart(level, files, in0) && UniqueSeqs(FilesEntries(Elems(files)))
    requires exists last :: IsMaximum(r, last) && forall f :: f in files ==> !IsBoundaryFile(f, last)
    requires (forall last, f :: IsMaximum(in0, last) && f in files ==> !IsBoundaryFile(f, last)) ==> r == in0
    requires forall f :: f in r ==> f in in0 || f in files
    requires level > 0 ==> IsStretch(Elems(files), Elems(r))
    ensures LeavesNoOlder(Elems(files), Elems(r))
  {
    if level == 0 {
      var lo, hi :| Closed(files, lo, hi) && in0 == Meeting(files, lo, hi);
      ClosedLevelZeroInputs(files, lo, hi, in0);
    } else {
      var last :| IsMaximum(r, last) && forall f :: f in files ==> !IsBoundaryFile(f, last);
      assert Elems(r) <= Elems(files);
      ClosedRunLeavesNoOlder(files, r, last);
    }
  }

  lemma MeetingIsRun(files: seq<File>, lo: Bound, hi: Bound)
    requires InOrder(files)
    ensures IsStretch(Elems(files), Elems(Meeting(files, lo, hi)))
  {
    MeetingMembers(files, lo, hi);
    forall f, g, h | f in files && f !in Meeting(files, lo, hi)
                     && g in Meeting(files, lo, hi) && h in Meeting(files, lo, hi)
      ensures !(FileBefore(g, f) && FileBefore(f, h))
    {
      EntryWithinBounds(f, f.entries[0]);
    }
  }

  lemma NextLevelTaken(next: seq<File>, in0: seq<File>, smallest: InternalKey, largest: InternalKey, in1: seq<File>)
    requires IsRange(in0, smallest, largest) && in1 == Meeting(next, Some(smallest.user), Some(largest.user))
    ensures TakesWhatItMeets(Elems(next), Elems(in0), Elems(in1))
    ensures GapFree(Elems(in0)) ==> GapFree(Elems(in0) + Elems(in1))
  {
    MeetingMembers(next, Some(smallest.user), Some(largest.user));
    forall f ensures f in in1 <==> f in next && MeetsHull(Elems(in0), f) {
      RangeIsHull(in0, smallest, largest, f);
    }
    if GapFree(Elems(in0)) {
      TouchingKeepsGapFree(Elems(in0), Elems(in1));
    }
  }

  // The expanded level inputs contain the first ones and stay without gaps.
  lemma ExpansionContains(files: seq<File>, in0: seq<File>, in1: seq<File>, start: InternalKey, limit: InternalKey,
                          lo: Bound, hi: Bound)
    requires Elems(in0) <= Elems(files) && IsRange(in0 + in1, start, limit)
    requires lo.Some? && hi.Some? && lo.value <= start.user && hi.value >= limit.user
    ensures Elems(in0) <= Elems(Meeting(files, lo, hi))
  {
    MeetingMembers(files, lo, hi);
    forall f | f in in0 ensures f in Meeting(files, lo, hi) {
      assert f in Elems(in0) && f in in0 + in1;
      EntryWithinBounds(f, f.entries[0]);
    }
  }

  lemma GapFreeCoversRange(A: set<File>, files: seq<File>, start: InternalKey, limit: InternalKey)
    requires IsRange(files, start, limit) && A == Elems(files) && GapFree(A)
    ensures Covered(A, start.user, limit.user)
  {
    var s :| s in files && Smallest(s) == start;
    var l :| l in files && Largest(l) == limit;
    forall x: UserKey | start.user <= x <= limit.user ensures CoversKey(A, x) {
      assert s in A && l in A && Lo(s) <= x <= Hi(l);
      assert InHull(A, x);
    }
  }

  lemma ExpansionIsGapFree(files: seq<File>, in0: seq<File>, in1: seq<File>, start: InternalKey, limit: InternalKey,
                           lo: Bound, hi: Bound)
    requires Elems(in0) <= Elems(files) && IsRange(in0 + in1, start, limit)
    requires lo.Some? && hi.Some? && lo.value <= start.user && hi.value >= limit.user
    requires CoveredRange(Elems(Meeting(files, lo, hi)) + (Elems(in0) + Elems(in1)), lo, hi)
    ensures GapFree(Elems(Meeting(files, lo, hi)) + Elems(in1))
  {
    var e0 := Meeting(files, lo, hi);
    ExpansionContains(files, in0, in1, start, limit, lo, hi);
    MeetingMembers(files, lo, hi);
    assert Elems(e0) + (Elems(in0) + Elems(in1)) == Elems(e0) + Elems(in1);
    forall f | f in Elems(e0) + Elems(in1) ensures Meets(f, lo.value, hi.value) {
      if f in in1 {
        assert f in in0 + in1;
        EntryWithinBounds(f, f.entries[0]);
      }
    }
    MeetingACoveredRangeIsGapFree(Elems(e0) + Elems(in1), lo.value, hi.value);
  }

  // Expanding the level inputs keeps every next-level input and leaves no gap.
  lemma ExpandedInputs(next: seq<File>, in0: seq<File>, in1: seq<File>, e0: seq<File>,
                       newStart: InternalKey, newLimit: InternalKey, e1: seq<File>)
    requires TakesWhatItMeets(Elems(next), Elems(in0), Elems(in1)) && Elems(in0) <= Elems(e0)
    requires IsRange(e0, newStart, newLimit) && e1 == Meeting(next, Some(newStart.user), Some(newLimit.user))
    requires GapFree(Elems(e0) + Elems(in1))
    ensures GapFree(Elems(e0) + Elems(e1))
  {
    NextLevelTaken(next, e0, newStart, newLimit, e1);
    forall f | f in in1 ensures f in e1 {
      assert f in Elems(in1);
      var g, h :| g in Elems(in0) && h in Elems(in0) && Lo(g) <= Hi(f) && Lo(f) <= Hi(h);
      assert g in Elems(e0) && h in Elems(e0);
      assert MeetsHull(Elems(e0), f);
      assert f in Elems(e1);
    }
    forall b | b in Elems(e1) ensures MeetsHull(Elems(e0) + Elems(in1), b) {
      var g, h :| g in Elems(e0) && h in Elems(e0) && Lo(g) <= Hi(b) && Lo(b) <= Hi(h);
      assert g in Elems(e0) + Elems(in1) && h in Elems(e0) + Elems(in1);
    }
    TouchingKeepsGapFree(Elems(e0) + Elems(in1), Elems(e1));
    assert Elems(e0) + Elems(in1) + Elems(e1) == Elems(e0) + Elems(e1);
  }
}
