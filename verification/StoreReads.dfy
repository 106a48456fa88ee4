/** DBImpl::Get in every state the database reaches. */
module StoreReads {
  import opened InternalKeys
  import opened Versions
  import opened Store
  import opened StoreInvariant
  import opened StoreSets
  import opened StoreTheorems
  import opened Manifest
  import Reading

  // The vectors and memtables the code holds in a state. A version's vectors are those a
  // builder has saved, in the order of their smallest keys (Manifest.ChainMeaning).
  ghost predicate Represents(s: State, v: Version, mem: seq<Entry>, imm: Option<seq<Entry>>) {
    && TreeOf(v) == s.tree && SortedLevels(v)
    && Sorted(mem) && Elems(mem) == s.mem
    && match imm
       case None => s.imm.None?
       case Some(entries) => Sorted(entries) && s.imm == Some(Elems(entries))
  }

  // The search's premises hold: levels in key order, layers from newer to older.
  lemma LayersAreOrdered(s: State, v: Version, mem: seq<Entry>, imm: Option<seq<Entry>>)
    requires Inv(s) && s.phase == Up && Represents(s, v, mem, imm)
    ensures VersionInv(v)
    ensures var tree, frozen := TreeEntries(TreeOf(v)), if imm.Some? then Elems(imm.value) else {};
            && UniqueSeqs(Elems(mem) + (tree + frozen)) && Elems(mem) + (tree + frozen) == s.Contents()
            && (forall a, b :: a in mem && b in tree + frozen ==> a.Seq() > b.Seq())
            && (forall a, b :: a in frozen && b in tree ==> a.Seq() > b.Seq())
  {
    SortedIsVersionInv(v);
    var tree, frozen := TreeEntries(s.tree), if imm.Some? then Elems(imm.value) else {};
    assert frozen == s.Imm() && Elems(mem) + (tree + frozen) == s.Contents();
    UniqueSubset(s.Contents(), s.Written());
    forall a | a in mem ensures a in s.mem {
      assert a in Elems(mem);
    }
  }

  // In every state of every run Get, with its early stops and binary searches, returns the
  // value of the newest entry present that is not above the snapshot; if compactions start
  // with closed inputs, that is the newest acknowledged one.
  method ReachableGet(ghost run: seq<State>, ghost steps: seq<Step>, ghost i: nat,
                      v: Version, mem: seq<Entry>, imm: Option<seq<Entry>>, key: UserKey, snapshot: SeqNo)
    returns (r: Option<Value>, seek: Option<Seek>)
    requires SafeRun(run, steps) && i < |run| && run[i].phase == Up && Represents(run[i], v, mem, imm)
    ensures r == Lookup(run[i].Contents(), key, snapshot)
    ensures ClosedRun(run, steps) && run[i].Live(snapshot) ==> r == Lookup(run[i].history, key, snapshot)
    ensures forall p :: seek == Some(p) <==>
              Charged(v, key, snapshot, p)
              && (forall x :: !Candidate(Elems(mem), key, snapshot, x))
              && (imm.Some? ==> forall x :: !Candidate(Elems(imm.value), key, snapshot, x))
    ensures seek.Some? ==> seek.value.level + 1 < NUM_LEVELS && seek.value.file in v[seek.value.level]
  {
    RunKeepsInv(run, steps, i);
    LayersAreOrdered(run[i], v, mem, imm);
    if ClosedRun(run, steps) && run[i].Live(snapshot) {
      ReadsSeeHistory(run, steps, i, key, snapshot);
    }
    hide *;
    r, seek := Reading.DbGet(mem, imm, v, key, snapshot);
  }
}
