/** Installing a compaction's outputs: the version invariant is kept, and readers of every
    live snapshot see what they saw before exactly when no key is exposed. */
module TreeUpdates {
  import opened InternalKeys
  import opened Versions
  import opened LevelRanges
  import opened Picking
  import opened DropRule
  import opened Compactions

  ghost function Without(t: Tree, level: nat, in0: set<File>, in1: set<File>): Tree
    requires level + 1 < NUM_LEVELS
  {
    t[level := t[level] - in0][level + 1 := t[level + 1] - in1]
  }

  // The version edit of a compaction: delete the inputs, add the outputs one level down.
  ghost function Install(t: Tree, level: nat, in0: set<File>, in1: set<File>, outs: set<File>): Tree
    requires level + 1 < NUM_LEVELS
  {
    Without(t, level, in0, in1)[level + 1 := t[level + 1] - in1 + outs]
  }

  // Some kept entry lies before the file and some behind it, so one output may span it.
  ghost predicate Splits(kept: set<Entry>, h: File) {
    exists a, b :: a in kept && b in kept && Before(a.ikey, Smallest(h)) && Before(Largest(h), b.ikey)
  }

  // What installing the kept entries needs of the tree, flushes during the compaction included:
  // whatever the next level holds beside the inputs meets none of the upper ones, and no two
  // kept entries lie on either side of it.
  ghost predicate Installable(t: Tree, level: nat, in0: set<File>, in1: set<File>, kept: set<Entry>) {
    && level + 1 < NUM_LEVELS
    && in0 != {} && in0 <= t[level] && in1 <= t[level + 1]
    && LeavesNoOlder(t[level], in0)
    && forall h :: h in t[level + 1] && h !in in1 ==> Beside(in0, h) && !Splits(kept, h)
  }

  ghost predicate Beside(in0: set<File>, h: File) {
    forall g :: g in in0 ==> !Meets(h, Lo(g), Hi(g))
  }

  // ---- Structure

  lemma LeftoverIsOutside(t: Tree, level: nat, in0: set<File>, in1: set<File>, h: File)
    requires TreeInv(t) && WellChosen(t, level, in0, in1)
    requires h in t[level + 1] && h !in in1
    ensures (forall g :: g in in0 + in1 ==> FileBefore(h, g)) || (forall g :: g in in0 + in1 ==> FileBefore(g, h))
  {
    EntryWithinBounds(h, h.entries[0]);
    assert !MeetsHull(in0, h);
    var a :| a in in0;
    if Hi(h) < Lo(a) {
      forall g | g in in0 + in1 ensures FileBefore(h, g) {
        assert g in in0 ==> !(Lo(g) <= Hi(h) && Lo(h) <= Hi(a));
        EntryWithinBounds(a, a.entries[0]);
        if g in in1 {
          assert MeetsHull(in0, g);
          var p, q :| p in in0 && q in in0 && Lo(p) <= Hi(g) && Lo(g) <= Hi(q);
          assert !(Lo(p) <= Hi(h) && Lo(h) <= Hi(a));
        }
      }
    } else {
      forall g | g in in0 + in1 ensures FileBefore(g, h) {
        assert g in in0 ==> !(Lo(a) <= Hi(h) && Lo(h) <= Hi(g));
        if g in in1 {
          assert MeetsHull(in0, g);
          var p, q :| p in in0 && q in in0 && Lo(p) <= Hi(g) && Lo(g) <= Hi(q);
          assert !(Lo(a) <= Hi(h) && Lo(h) <= Hi(q));
        }
      }
    }
  }

  ghost predicate MadeFrom(outs: set<File>, inputs: set<File>) {
    forall o, e :: o in outs && e in o.entries ==> e in FilesEntries(inputs)
  }

  lemma InputOf(outs: set<File>, inputs: set<File>, o: File, e: Entry) returns (g: File)
    requires MadeFrom(outs, inputs) && o in outs && e in o.entries
    ensures g in inputs && e in g.entries
  {
    assert e in FilesEntries(inputs);
    g :| g in inputs && e in g.entries;
  }

  lemma BoundsOfPart(h: File, o: File, g: File, k: File, first: Entry, last: Entry)
    requires first in g.entries && first.ikey == Smallest(o) && last in k.entries && last.ikey == Largest(o)
    ensures FileBefore(h, g) ==> FileBefore(h, o)
    ensures FileBefore(k, h) ==> FileBefore(o, h)
  {
    EntryWithinBounds(g, first);
    EntryWithinBounds(k, last);
  }

  // Inputs as they are chosen fit, whatever of them is kept.
  lemma ChosenIsInstallable(t: Tree, level: nat, in0: set<File>, in1: set<File>, kept: set<Entry>)
    requires TreeInv(t) && WellChosen(t, level, in0, in1) && kept <= FilesEntries(in0 + in1)
    ensures Installable(t, level, in0, in1, kept)
  {
    forall h | h in t[level + 1] && h !in in1 ensures Beside(in0, h) && !Splits(kept, h) {
      assert !MeetsHull(in0, h);
      LeftoverIsOutside(t, level, in0, in1, h);
      forall a | a in kept
        ensures exists g :: g in in0 + in1 && NotAfter(Smallest(g), a.ikey) && NotAfter(a.ikey, Largest(g))
      {
        var g :| g in in0 + in1 && a in g.entries;
        EntryWithinBounds(g, a);
      }
    }
  }

  // An output's first and last entries lie in inputs, each wholly before or behind a leftover
  // file, and on the same side of it.
  lemma OutputKeepsClear(t: Tree, level: nat, in0: set<File>, in1: set<File>, outs: set<File>, h: File, o: File)
    requires TreeInv(t) && Installable(t, level, in0, in1, FilesEntries(outs)) && MadeFrom(outs, in0 + in1)
    requires h in t[level + 1] && h !in in1 && o in outs
    ensures FileBefore(h, o) || FileBefore(o, h)
  {
    var first, last := o.entries[0], o.entries[|o.entries| - 1];
    assert first in o.entries && last in o.entries;
    assert first in FilesEntries(outs) && last in FilesEntries(outs);
    var g := InputOf(outs, in0 + in1, o, first);
    var k := InputOf(outs, in0 + in1, o, last);
    InputIsApart(t, level, in0, in1, h, g);
    InputIsApart(t, level, in0, in1, h, k);
    BoundsOfPart(h, o, g, k, first, last);
    EntryWithinBounds(g, first);
    EntryWithinBounds(k, last);
    EntryWithinBounds(o, first);
  }

  lemma InputIsApart(t: Tree, level: nat, in0: set<File>, in1: set<File>, h: File, g: File)
    requires TreeInv(t) && level + 1 < NUM_LEVELS && in1 <= t[level + 1] && h in t[level + 1] && h !in in1
    requires Beside(in0, h) && g in in0 + in1
    ensures FileBefore(h, g) || FileBefore(g, h)
  {
    EntryWithinBounds(h, h.entries[0]);
    EntryWithinBounds(g, g.entries[0]);
  }

  // What is newer (older) than every input is newer (older) than every output.
  lemma OutputsInheritRecency(outs: set<File>, inputs: set<File>, f: File, o: File)
    requires MadeFrom(outs, inputs) && o in outs
    ensures (forall g :: g in inputs ==> Newer(f, g)) ==> Newer(f, o)
    ensures (forall g :: g in inputs ==> Newer(g, f)) ==> Newer(o, f)
  {
    forall e | e in o.entries ensures exists g :: g in inputs && e in g.entries {
      assert e in FilesEntries(inputs);
    }
  }

  lemma InstallKeepsRecency(t: Tree, level: nat, in0: set<File>, in1: set<File>, outs: set<File>)
    requires TreeInv(t) && Installable(t, level, in0, in1, FilesEntries(outs)) && MadeFrom(outs, in0 + in1)
    ensures Recency(Install(t, level, in0, in1, outs))
  {
    var t' := Install(t, level, in0, in1, outs);
    forall l, m, f, g | 0 <= l < m < NUM_LEVELS && f in t'[l] && g in t'[m] ensures Newer(f, g) {
      if m == level + 1 && g in outs {
        forall x | x in in0 + in1 ensures Newer(f, x) {
          assert l == level && x in in0 ==> f in t[level] && f !in in0;
        }
        OutputsInheritRecency(outs, in0 + in1, f, g);
      } else if l == level + 1 && f in outs {
        OutputsInheritRecency(outs, in0 + in1, g, f);
      }
    }
  }

  // Installing outputs keeps level order, level 0 and recency.
  lemma InstallKeepsTreeInv(t: Tree, level: nat, in0: set<File>, in1: set<File>, outs: set<File>)
    requires TreeInv(t) && Installable(t, level, in0, in1, FilesEntries(outs))
    requires MadeFrom(outs, in0 + in1) && Disjoint(outs)
    ensures TreeInv(Install(t, level, in0, in1, outs))
  {
    var t' := Install(t, level, in0, in1, outs);
    InstallKeepsRecency(t, level, in0, in1, outs);
    forall f, g | f in t'[level + 1] && g in t'[level + 1] && f != g ensures FileBefore(f, g) || FileBefore(g, f) {
      if f in outs && g !in outs {
        OutputKeepsClear(t, level, in0, in1, outs, g, f);
      } else if g in outs && f !in outs {
        OutputKeepsClear(t, level, in0, in1, outs, f, g);
      }
    }
    forall l | 1 <= l < NUM_LEVELS ensures Disjoint(t'[l]) {
      assert l != level + 1 ==> t'[l] <= t[l];
    }
  }

  // A single input with nothing to merge may be moved down as it is.
  lemma TrivialMoveKeepsTreeInv(t: Tree, level: nat, f: File)
    requires TreeInv(t) && WellChosen(t, level, {f}, {})
    ensures TreeInv(Install(t, level, {f}, {}, {f}))
    ensures TreeEntries(Install(t, level, {f}, {}, {f})) == TreeEntries(t)
  {
    assert f in {f} + {} && FilesEntries({f}) == FilesEntries({f} + {});
    ChosenIsInstallable(t, level, {f}, {}, FilesEntries({f}));
    InstallKeepsTreeInv(t, level, {f}, {}, {f});
    var t' := Install(t, level, {f}, {}, {f});
    forall e ensures e in TreeEntries(t') <==> e in TreeEntries(t) {
      if e in TreeEntries(t) {
        var l, g :| 0 <= l < NUM_LEVELS && g in t[l] && e in g.entries;
        assert (l == level && g == f) || g in t'[l];
        assert f in t'[level + 1];
      }
    }
  }

  // ---- Meaning

  lemma DistinctFilesShareNothing(t: Tree, l: nat, m: nat, f: File, g: File, e: Entry)
    requires TreeInv(t) && l < NUM_LEVELS && m < NUM_LEVELS && f in t[l] && g in t[m]
    requires e in f.entries && e in g.entries
    ensures l == m && f == g
  {
    EntryWithinBounds(f, e);
    EntryWithinBounds(g, e);
    var hints := (Newer(f, g), Newer(g, f), FileBefore(f, g), FileBefore(g, f));
  }

  lemma SplitEntries(t: Tree, level: nat, in0: set<File>, in1: set<File>, outs: set<File>)
    requires TreeInv(t) && level + 1 < NUM_LEVELS && in0 <= t[level] && in1 <= t[level + 1]
    ensures var rest := TreeEntries(Without(t, level, in0, in1));
            && TreeEntries(t) == rest + FilesEntries(in0 + in1)
            && rest !! FilesEntries(in0 + in1)
            && TreeEntries(Install(t, level, in0, in1, outs)) == rest + FilesEntries(outs)
  {
    var w := Without(t, level, in0, in1);
    var rest, t' := TreeEntries(w), Install(t, level, in0, in1, outs);
    forall e ensures e in TreeEntries(t) <==> e in rest + FilesEntries(in0 + in1) {
      if e in TreeEntries(t) {
        var l, f :| 0 <= l < NUM_LEVELS && f in t[l] && e in f.entries;
        assert f in w[l] || f in in0 + in1;
      } else {
        assert forall f :: f in in0 ==> f in t[level];
        assert forall f :: f in in1 ==> f in t[level + 1];
      }
    }
    forall e | e in rest ensures e !in FilesEntries(in0 + in1) {
      var l, f :| 0 <= l < NUM_LEVELS && f in w[l] && e in f.entries;
      forall g | g in in0 + in1 ensures e !in g.entries {
        NotInBoth(t, level, in0, in1, l, f, g, e);
      }
    }
    forall e ensures e in TreeEntries(t') <==> e in rest + FilesEntries(outs) {
      if e in TreeEntries(t') {
        var l, f :| 0 <= l < NUM_LEVELS && f in t'[l] && e in f.entries;
        assert f in w[l] || f in outs;
      } else {
        assert forall f :: f in outs ==> f in t'[level + 1];
        assert forall l, f :: 0 <= l < NUM_LEVELS && f in w[l] ==> f in t'[l];
      }
    }
  }

  lemma NotInBoth(t: Tree, level: nat, in0: set<File>, in1: set<File>, l: nat, f: File, g: File, e: Entry)
    requires TreeInv(t) && level + 1 < NUM_LEVELS && in0 <= t[level] && in1 <= t[level + 1]
    requires l < NUM_LEVELS && f in Without(t, level, in0, in1)[l] && e in f.entries && g in in0 + in1
    ensures e !in g.entries
  {
    if e in g.entries {
      var m := if g in in0 && !(l == level + 1 && f == g && g in in1) then level else level + 1;
      if g in in0 {
        DistinctFilesShareNothing(t, l, level, f, g, e);
      } else {
        DistinctFilesShareNothing(t, l, level + 1, f, g, e);
      }
    }
  }

  // Reads at every live snapshot survive the compaction iff it exposes no key.
  lemma CompactionPreservesReadsIff(t: Tree, level: nat, in0: set<File>, in1: set<File>, outs: set<File>,
                                    smallestSnapshot: SeqNo, baseKeys: iset<UserKey>)
    requires TreeInv(t) && UniqueSeqs(TreeEntries(t))
    requires level + 1 < NUM_LEVELS && in0 <= t[level] && in1 <= t[level + 1]
    requires FilesEntries(outs) == KeptSet(FilesEntries(in0 + in1), smallestSnapshot, baseKeys)
    ensures ReadsSame(TreeEntries(Install(t, level, in0, in1, outs)), TreeEntries(t), smallestSnapshot)
       <==> (forall key :: !Exposed(TreeEntries(Without(t, level, in0, in1)), FilesEntries(in0 + in1),
                                    key, smallestSnapshot, baseKeys))
  {
    SplitEntries(t, level, in0, in1, outs);
    DropPreservesReadsIff(TreeEntries(Without(t, level, in0, in1)), FilesEntries(in0 + in1), smallestSnapshot, baseKeys);
  }

  // If the next level, too, leaves nothing older of a chosen user key behind, nothing is exposed.
  lemma ClosedNextLevelExposesNothing(t: Tree, level: nat, in0: set<File>, in1: set<File>, kept: set<Entry>,
                                      key: UserKey, smallestSnapshot: SeqNo, baseKeys: iset<UserKey>)
    requires TreeInv(t) && Installable(t, level, in0, in1, kept)
    requires LeavesNoOlder(t[level + 1], in1)
    requires forall x :: x in baseKeys && CoversKey(in0 + in1, x) ==> IsBaseKey(t, level, x)
    ensures !Exposed(TreeEntries(Without(t, level, in0, in1)), FilesEntries(in0 + in1), key, smallestSnapshot, baseKeys)
  {
    var w := Without(t, level, in0, in1);
    var rest, In := TreeEntries(w), FilesEntries(in0 + in1);
    forall d | d in In && IsNewest(rest + In, key, smallestSnapshot, d) && Obsolete(d, smallestSnapshot, baseKeys)
      ensures Lookup(rest, key, smallestSnapshot).None?
    {
      var x := Newest(rest, key, smallestSnapshot);
      if x.Some? {
        var g :| g in in0 + in1 && d in g.entries;
        var l, f :| 0 <= l < NUM_LEVELS && f in w[l] && x.value in f.entries;
        assert Candidate(rest + In, key, smallestSnapshot, x.value);
        EntryWithinBounds(g, d);
        NothingOlderOutside(t, level, in0, in1, kept, l, f, g, x.value, d);
      }
    }
  }

  // Outside the inputs, every entry of an input's base key is newer than the input's.
  lemma NothingOlderOutside(t: Tree, level: nat, in0: set<File>, in1: set<File>, kept: set<Entry>, l: nat, f: File,
                            g: File, x: Entry, d: Entry)
    requires TreeInv(t) && Installable(t, level, in0, in1, kept) && LeavesNoOlder(t[level + 1], in1)
    requires l < NUM_LEVELS && f in Without(t, level, in0, in1)[l] && g in in0 + in1
    requires x in f.entries && d in g.entries && x.Key() == d.Key() && IsBaseKey(t, level, d.Key())
    ensures x.Seq() > d.Seq()
  {
    EntryWithinBounds(f, x);
    EntryWithinBounds(g, d);
    var hints := (Beside(in0, f), Newer(f, g), Meets(f, d.Key(), d.Key()));
  }
}
