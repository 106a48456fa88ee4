/** Two concrete versions on which the code's guarantees fail without the stated conditions. */
module Counterexamples {
  import opened InternalKeys
  import opened Versions
  import opened LevelRanges
  import opened Picking
  import opened DropRule
  import opened Compactions
  import opened TreeUpdates
  import opened Flushes

  function E(key: UserKey, seqno: SeqNo, kind: Kind, value: Value): Entry {
    Entry(InternalKey(key, seqno, kind), value)
  }

  // ---- The next level's inputs are not closed under shared boundary user keys

  const UPPER: Table := Table(10, 1, [E(2.0, 20, Put, "new")])
  const LEFT: Table := Table(8, 1, [E(1.0, 5, Put, "first"), E(3.0, 9, Deletion, "")])
  const RIGHT: Table := Table(9, 1, [E(3.0, 3, Put, "old"), E(4.0, 1, Put, "last")])
  const MERGED: Table := Table(11, 1, [E(1.0, 5, Put, "first"), E(2.0, 20, Put, "new")])

  lemma TablesAreOk()
    ensures UPPER.Ok() && LEFT.Ok() && RIGHT.Ok() && MERGED.Ok()
  {
  }

  // LEFT holds the deletion of 3.0 and RIGHT, its neighbour, the older value of 3.0.
  ghost function SplitKeyTree(): Tree {
    TablesAreOk();
    [{}, {UPPER}, {LEFT, RIGHT}, {}, {}, {}, {}]
  }

  lemma SplitKeyTreeInv()
    ensures TreeInv(SplitKeyTree())
  {
    TablesAreOk();
    var t := SplitKeyTree();
    var upper: File, left: File, right: File := UPPER, LEFT, RIGHT;
    assert FileBefore(left, right);
    assert Disjoint(t[2]);
    assert Newer(upper, left) && Newer(upper, right);
  }

  lemma SplitKeyInputsAreChosen()
    ensures WellChosen(SplitKeyTree(), 1, {UPPER}, {LEFT})
  {
    TablesAreOk();
    var t := SplitKeyTree();
    var upper: File, left: File, right: File := UPPER, LEFT, RIGHT;
    forall f ensures f in {left} <==> f in t[2] && MeetsHull({upper}, f) {
      assert Lo(upper) <= Hi(left) && Lo(left) <= Hi(upper);
    }
  }

  lemma SplitKeyInputsAreGapFree()
    ensures UPPER.Ok() && LEFT.Ok() && GapFree({UPPER} + {LEFT})
  {
    TablesAreOk();
    var upper: File, left: File := UPPER, LEFT;
    forall x: UserKey | InHull({upper} + {left}, x) ensures CoversKey({upper} + {left}, x) {
      assert Lo(left) <= x <= Hi(left);
      assert left in {upper} + {left};
    }
  }

  lemma SplitKeyEntries()
    ensures FilesEntries({UPPER} + {LEFT}) == {UPPER.entries[0], LEFT.entries[0], LEFT.entries[1]}
    ensures TreeEntries(Without(SplitKeyTree(), 1, {UPPER}, {LEFT})) == {RIGHT.entries[0], RIGHT.entries[1]}
  {
    TablesAreOk();
    var upper: File, left: File, right: File := UPPER, LEFT, RIGHT;
    assert upper in {upper} + {left} && left in {upper} + {left};
    assert UPPER.entries[0] in upper.entries && LEFT.entries[0] in left.entries && LEFT.entries[1] in left.entries;
    var w := Without(SplitKeyTree(), 1, {UPPER}, {LEFT});
    assert w[2] == {right} && w[1] == {};
    assert right in w[2] && RIGHT.entries[0] in right.entries && RIGHT.entries[1] in right.entries;
  }

  lemma SplitKeyExposes()
    ensures var t := SplitKeyTree();
            var rest, In := TreeEntries(Without(t, 1, {UPPER}, {LEFT})), FilesEntries({UPPER} + {LEFT});
            && UniqueSeqs(rest + In)
            && IsNewest(rest + In, 3.0, 50, LEFT.entries[1]) && Obsolete(LEFT.entries[1], 50, BaseKeys(t, 1))
            && Lookup(rest, 3.0, 50) == Some("old")
  {
    SplitKeyEntries();
    TablesAreOk();
    var rest := TreeEntries(Without(SplitKeyTree(), 1, {UPPER}, {LEFT}));
    assert IsBaseKey(SplitKeyTree(), 1, 3.0);
    assert IsNewest(rest, 3.0, 50, RIGHT.entries[0]);
    NewestIs(rest, 3.0, 50, RIGHT.entries[0]);
  }

  // Compacting UPPER and LEFT drops the deletion of 3.0 (no deeper level has the key) and
  // leaves RIGHT behind: the deleted value comes back.
  lemma UnclosedNextLevelResurrectsKey(outs: set<File>)
    requires UPPER.Ok() && LEFT.Ok()
    requires FilesEntries(outs) == KeptSet(FilesEntries({UPPER} + {LEFT}), 50, BaseKeys(SplitKeyTree(), 1))
    ensures TreeInv(SplitKeyTree()) && WellChosen(SplitKeyTree(), 1, {UPPER}, {LEFT}) && GapFree({UPPER} + {LEFT})
    ensures Lookup(TreeEntries(SplitKeyTree()), 3.0, 50) == None
    ensures Lookup(TreeEntries(Install(SplitKeyTree(), 1, {UPPER}, {LEFT}, outs)), 3.0, 50) == Some("old")
  {
    hide GapFree, UniqueSeqs, IsNewest, Obsolete;
    SplitKeyTreeInv();
    SplitKeyInputsAreChosen();
    SplitKeyInputsAreGapFree();
    SplitKeyExposes();
    var t := SplitKeyTree();
    SplitEntries(t, 1, {UPPER}, {LEFT}, outs);
    SplitKeyEntries();
    DroppedMarkerReadsRest(TreeEntries(Without(t, 1, {UPPER}, {LEFT})), FilesEntries({UPPER} + {LEFT}),
                           3.0, 50, 50, BaseKeys(t, 1), LEFT.entries[1]);
  }

  // ---- A manual compaction's inputs may have a gap

  const LOW: Table := Table(10, 1, [E(1.0, 5, Put, "low")])
  const HIGH: Table := Table(11, 1, [E(9.0, 6, Put, "high")])
  const FLUSHED: Table := Table(12, 1, [E(5.0, 7, Put, "mid")])
  const SPANNING: Table := Table(13, 1, [E(1.0, 5, Put, "low"), E(9.0, 6, Put, "high")])

  lemma GapTablesAreOk()
    ensures LOW.Ok() && HIGH.Ok() && FLUSHED.Ok() && SPANNING.Ok()
  {
  }

  ghost function GapTree(): Tree {
    GapTablesAreOk();
    [{}, {LOW, HIGH}, {}, {}, {}, {}, {}]
  }

  lemma GapTreeIsValid()
    ensures TreeInv(GapTree()) && WellChosen(GapTree(), 1, {LOW, HIGH}, {})
    ensures FLUSHED.Ok() && MayPlace(GapTree(), 2, FLUSHED) && TreeInv(AddFile(GapTree(), 2, FLUSHED))
  {
    GapTablesAreOk();
    var low: File, high: File, flushed: File := LOW, HIGH, FLUSHED;
    assert FileBefore(low, high) && Disjoint(GapTree()[1]);
    FlushKeepsTreeInv(GapTree(), 2, flushed);
  }

  lemma GapInputsHaveAGap()
    ensures LOW.Ok() && HIGH.Ok() && !GapFree({LOW, HIGH} + {})
  {
    GapTablesAreOk();
    var low: File, high: File := LOW, HIGH;
    var inputs := {low, high} + {};
    assert low in inputs && high in inputs && Lo(low) <= 5.0 <= Hi(high);
    assert InHull(inputs, 5.0) && !CoversKey(inputs, 5.0);
  }

  lemma GapKeptEntries()
    ensures LOW.Ok() && HIGH.Ok() && SPANNING.Ok()
    ensures FilesEntries({SPANNING}) == KeptSet(FilesEntries({LOW, HIGH}), 7, BaseKeys(GapTree(), 1))
    ensures Disjoint({SPANNING})
  {
    GapTablesAreOk();
    var low: File, high: File, spanning: File := LOW, HIGH, SPANNING;
    var In := FilesEntries({LOW, HIGH});
    assert low in {low, high} && high in {low, high} && LOW.entries[0] in low.entries && HIGH.entries[0] in high.entries;
    assert In == {LOW.entries[0], HIGH.entries[0]};
    assert forall e :: e in In ==> IsNewest(In, e.Key(), 7, e);
    assert spanning in {spanning} && SPANNING.entries[0] in spanning.entries && SPANNING.entries[1] in spanning.entries;
  }

  // A manual compaction of LOW and HIGH runs while FLUSHED goes to its output level, as
  // PickLevelForMemTableOutput allows; its single output table then overlaps FLUSHED.
  lemma ManualGapBreaksLevelOrder()
    ensures SPANNING.Ok() && FLUSHED.Ok() && LOW.Ok() && HIGH.Ok()
    ensures TreeInv(GapTree()) && WellChosen(GapTree(), 1, {LOW, HIGH}, {}) && !GapFree({LOW, HIGH} + {})
    ensures MayPlace(GapTree(), 2, FLUSHED) && TreeInv(AddFile(GapTree(), 2, FLUSHED))
    ensures CutOf({SPANNING}, KeptSet(FilesEntries({LOW, HIGH}), 7, BaseKeys(GapTree(), 1)))
    ensures !TreeInv(Install(AddFile(GapTree(), 2, FLUSHED), 1, {LOW, HIGH}, {}, {SPANNING}))
  {
    hide GapFree, MayPlace;
    GapTablesAreOk();
    GapTreeIsValid();
    GapInputsHaveAGap();
    GapKeptEntries();
    SpanningOverlapsFlushed(Install(AddFile(GapTree(), 2, FLUSHED), 1, {LOW, HIGH}, {}, {SPANNING}));
  }

  lemma SpanningOverlapsFlushed(t: Tree)
    requires FLUSHED.Ok() && SPANNING.Ok() && FLUSHED in t[2] && SPANNING in t[2]
    ensures !TreeInv(t)
  {
    var flushed: File, spanning: File := FLUSHED, SPANNING;
    assert !FileBefore(flushed, spanning) && !FileBefore(spanning, flushed) && flushed != spanning;
    assert !Disjoint(t[2]);
  }
}
