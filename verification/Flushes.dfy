/** Placing a flushed memtable, alone and while a compaction is running. */
module Flushes {
  import opened InternalKeys
  import opened Versions
  import opened LevelRanges
  import opened Picking
  import opened Compactions
  import opened TreeUpdates

  ghost function AddFile(t: Tree, level: nat, f: File): Tree
    requires level < NUM_LEVELS
  {
    t[level := t[level] + {f}]
  }

  ghost predicate NewerThanTree(f: File, t: Tree) {
    forall l, g :: 0 <= l < NUM_LEVELS && g in t[l] ==> Newer(f, g)
  }

  // What PickLevelForMemTableOutput guarantees about the level it returns.
  ghost predicate MayPlace(t: Tree, level: nat, f: File) {
    && level <= MAX_MEM_COMPACT_LEVEL
    && (level > 0 ==> forall l, g :: 0 <= l <= level && g in t[l] ==> !Meets(g, Lo(f), Hi(f)))
  }

  lemma FlushKeepsTreeInv(t: Tree, level: nat, f: File)
    requires TreeInv(t) && NewerThanTree(f, t) && MayPlace(t, level, f)
    requires level == 0 ==> forall g :: g in t[0] ==> g.number < f.number
    ensures TreeInv(AddFile(t, level, f))
  {
    var t' := AddFile(t, level, f);
    forall l, m, g, h | 0 <= l < m < NUM_LEVELS && g in t'[l] && h in t'[m] ensures Newer(g, h) {
      if h == f && h !in t[m] {
        assert !Meets(g, Lo(f), Hi(f));
        ApartFilesAreNewer(g, f);
      }
    }
    if level > 0 {
      forall g | g in t[level] ensures FileBefore(f, g) || FileBefore(g, f) {
        assert !Meets(g, Lo(f), Hi(f));
      }
    }
  }

  // ---- While a compaction runs

  // No two entries of a gap-free compaction lie on either side of a flush that avoids every input.
  lemma GapFreeInputsRepelFlush(in0: set<File>, in1: set<File>, kept: set<Entry>, f: File)
    requires GapFree(in0 + in1) && kept <= FilesEntries(in0 + in1)
    requires forall g :: g in in0 + in1 ==> !Meets(g, Lo(f), Hi(f))
    ensures !Splits(kept, f)
  {
    if Splits(kept, f) {
      var a, b :| a in kept && b in kept && Before(a.ikey, Smallest(f)) && Before(Largest(f), b.ikey);
      var g :| g in in0 + in1 && a in g.entries;
      var h :| h in in0 + in1 && b in h.entries;
      EntryWithinBounds(g, a);
      EntryWithinBounds(h, b);
      EntryWithinBounds(f, f.entries[0]);
      var hints := (InHull(in0 + in1, Lo(f)), CoversKey(in0 + in1, Lo(f)));
    }
  }

  // The compaction's view of the tree when its outputs are installed.
  ghost predicate StillFits(t: Tree, level: nat, in0: set<File>, in1: set<File>, kept: set<Entry>,
                            baseKeys: iset<UserKey>)
  {
    && Installable(t, level, in0, in1, kept)
    && forall x :: x in baseKeys && CoversKey(in0 + in1, x) ==> IsBaseKey(t, level, x)
  }

  lemma FlushKeepsChoice(t: Tree, level: nat, in0: set<File>, in1: set<File>, kept: set<Entry>, f: File, place: nat)
    requires TreeInv(t) && Installable(t, level, in0, in1, kept)
    requires NewerThanTree(f, t) && MayPlace(t, place, f) && f !in t[place]
    requires place == level + 1 ==> !Splits(kept, f)
    ensures Installable(AddFile(t, place, f), level, in0, in1, kept)
    ensures LeavesNoOlder(t[level + 1], in1) ==> LeavesNoOlder(AddFile(t, place, f)[level + 1], in1)
  {
    if place == level + 1 {
      forall g | g in in0 ensures !Meets(f, Lo(g), Hi(g)) {
        assert !Meets(g, Lo(f), Hi(f));
      }
    }
  }

  lemma FlushKeepsBaseKeys(t: Tree, level: nat, inputs: set<File>, f: File, place: nat, x: UserKey)
    requires level + 1 < NUM_LEVELS && forall g :: g in inputs ==> g in t[level] || g in t[level + 1]
    requires MayPlace(t, place, f) && IsBaseKey(t, level, x) && CoversKey(inputs, x)
    ensures IsBaseKey(AddFile(t, place, f), level, x)
  {
    var g :| g in inputs && Lo(g) <= x <= Hi(g);
    if place >= level + 2 {
      assert !Meets(g, Lo(f), Hi(f));
    }
  }

  // A memtable flushed in the middle of a compaction leaves the compaction installable: into
  // its output level if it separates no two kept entries, into any other level always.
  lemma FlushDuringCompaction(t: Tree, level: nat, in0: set<File>, in1: set<File>, kept: set<Entry>,
                              baseKeys: iset<UserKey>, f: File, place: nat)
    requires TreeInv(t) && StillFits(t, level, in0, in1, kept, baseKeys)
    requires NewerThanTree(f, t) && MayPlace(t, place, f) && f !in t[place]
    requires place == level + 1 ==> !Splits(kept, f)
    ensures StillFits(AddFile(t, place, f), level, in0, in1, kept, baseKeys)
    ensures LeavesNoOlder(t[level + 1], in1) ==> LeavesNoOlder(AddFile(t, place, f)[level + 1], in1)
  {
    FlushKeepsChoice(t, level, in0, in1, kept, f, place);
    forall x | x in baseKeys && CoversKey(in0 + in1, x) ensures IsBaseKey(AddFile(t, place, f), level, x) {
      FlushKeepsBaseKeys(t, level, in0 + in1, f, place, x);
    }
  }

  // ---- Inputs with a gap (manual compactions)

  ghost predicate CutOf(outs: set<File>, kept: set<Entry>) {
    Disjoint(outs) && FilesEntries(outs) == kept
  }

  // Flushing f into the output level of a running compaction is safe, however the outputs
  // are cut, exactly when no two kept entries lie on either side of f.
  lemma FlushIntoOutputLevelIff(t: Tree, level: nat, in0: set<File>, in1: set<File>, kept: seq<Entry>, f: File)
    requires TreeInv(t) && Installable(t, level, in0, in1, Elems(kept))
    requires Sorted(kept) && Elems(kept) <= FilesEntries(in0 + in1)
    requires NewerThanTree(f, t) && forall g :: g in in0 + in1 ==> !Meets(g, Lo(f), Hi(f))
    requires MayPlace(t, level + 1, f)
    ensures (forall outs :: CutOf(outs, Elems(kept)) ==>
               TreeInv(Install(AddFile(t, level + 1, f), level, in0, in1, outs)))
       <==> !Splits(Elems(kept), f)
  {
    if Splits(Elems(kept), f) {
      assert f !in in0 + in1 by {
        EntryWithinBounds(f, f.entries[0]);
        assert Meets(f, Lo(f), Hi(f));
      }
      OneTableSplits(t, level, in0, in1, kept, f);
    } else {
      forall outs | CutOf(outs, Elems(kept))
        ensures TreeInv(Install(AddFile(t, level + 1, f), level, in0, in1, outs))
      {
        NoStraddleIsSafe(t, level, in0, in1, Elems(kept), f, outs);
      }
    }
  }

  lemma OneTableSplits(t: Tree, level: nat, in0: set<File>, in1: set<File>, kept: seq<Entry>, f: File)
    requires level + 1 < NUM_LEVELS && Sorted(kept) && Splits(Elems(kept), f) && f !in in0 + in1
    ensures exists outs :: CutOf(outs, Elems(kept))
              && !TreeInv(Install(AddFile(t, level + 1, f), level, in0, in1, outs))
  {
    var a, b :| a in Elems(kept) && b in Elems(kept) && Before(a.ikey, Smallest(f)) && Before(Largest(f), b.ikey);
    var o: File := Table(f.number + 1, 0, kept);
    var outs := {o};
    assert FilesEntries(outs) == Elems(kept) by {
      assert o in outs;
    }
    EntryWithinBounds(o, a);
    EntryWithinBounds(o, b);
    EntryWithinBounds(f, f.entries[0]);
    var t' := Install(AddFile(t, level + 1, f), level, in0, in1, outs);
    assert f in t'[level + 1] && o in t'[level + 1] && f != o;
    assert !FileBefore(f, o) && !FileBefore(o, f);
    assert CutOf(outs, Elems(kept)) && !Disjoint(t'[level + 1]);
  }

  lemma NoStraddleIsSafe(t: Tree, level: nat, in0: set<File>, in1: set<File>, kept: set<Entry>, f: File, outs: set<File>)
    requires TreeInv(t) && Installable(t, level, in0, in1, kept) && kept <= FilesEntries(in0 + in1)
    requires NewerThanTree(f, t) && forall g :: g in in0 + in1 ==> !Meets(g, Lo(f), Hi(f))
    requires MayPlace(t, level + 1, f)
    requires CutOf(outs, kept) && !Splits(kept, f)
    ensures TreeInv(Install(AddFile(t, level + 1, f), level, in0, in1, outs))
  {
    assert MadeFrom(outs, in0 + in1) by {
      forall o, e | o in outs && e in o.entries ensures e in FilesEntries(in0 + in1) {
        assert e in FilesEntries(outs);
      }
    }
    InstallKeepsTreeInv(t, level, in0, in1, outs);
    var t' := Install(t, level, in0, in1, outs);
    forall o | o in outs ensures !Meets(o, Lo(f), Hi(f)) && Newer(f, o) {
      OutputAvoidsFlush(in0 + in1, kept, f, outs, o);
      OutputsInheritRecency(outs, in0 + in1, f, o);
      assert forall g :: g in in0 + in1 ==> g in t[level] || g in t[level + 1];
    }
    FlushKeepsTreeInv(t', level + 1, f);
    assert f !in in0 + in1 by {
      EntryWithinBounds(f, f.entries[0]);
      assert Meets(f, Lo(f), Hi(f));
    }
    InstallCommutesWithFlush(t, level, in0, in1, outs, f);
  }

  lemma InstallCommutesWithFlush(t: Tree, level: nat, in0: set<File>, in1: set<File>, outs: set<File>, f: File)
    requires level + 1 < NUM_LEVELS && f !in in1
    ensures Install(AddFile(t, level + 1, f), level, in0, in1, outs)
         == AddFile(Install(t, level, in0, in1, outs), level + 1, f)
  {
    assert t[level + 1] + {f} - in1 + outs == t[level + 1] - in1 + outs + {f};
  }

  lemma OutputAvoidsFlush(inputs: set<File>, kept: set<Entry>, f: File, outs: set<File>, o: File)
    requires MadeFrom(outs, inputs) && forall g :: g in inputs ==> !Meets(g, Lo(f), Hi(f))
    requires CutOf(outs, kept) && !Splits(kept, f) && o in outs
    ensures !Meets(o, Lo(f), Hi(f))
  {
    var first, last := o.entries[0], o.entries[|o.entries| - 1];
    assert first in o.entries && last in o.entries;
    assert first in FilesEntries(outs) && last in FilesEntries(outs);
    var g := InputOf(outs, inputs, o, first);
    var k := InputOf(outs, inputs, o, last);
    EntryWithinBounds(g, first);
    EntryWithinBounds(k, last);
  }
}
