/** Which entries a compaction keeps, and what dropping the rest does to readers. */
module DropRule {
  import opened InternalKeys

  // e is a deletion marker that no table below the output level can need.
  ghost predicate Obsolete(e: Entry, smallestSnapshot: SeqNo, baseKeys: iset<UserKey>) {
    e.ikey.kind == Deletion && e.Seq() <= smallestSnapshot && e.Key() in baseKeys
  }

  // The predecessor in the merged input already hides input[i] from every live snapshot.
  predicate Hidden(input: seq<Entry>, i: nat, smallestSnapshot: SeqNo)
    requires i < |input|
  {
    i > 0 && input[i - 1].Key() == input[i].Key() && input[i - 1].Seq() <= smallestSnapshot
  }

  ghost predicate Keeps(input: seq<Entry>, i: nat, smallestSnapshot: SeqNo, baseKeys: iset<UserKey>)
    requires i < |input|
  {
    !Hidden(input, i, smallestSnapshot) && !Obsolete(input[i], smallestSnapshot, baseKeys)
  }

  // What the merge loop writes for the first n input entries.
  ghost function Kept(input: seq<Entry>, n: nat, smallestSnapshot: SeqNo, baseKeys: iset<UserKey>): seq<Entry>
    requires n <= |input|
  {
    if n == 0 then [] else
    Kept(input, n - 1, smallestSnapshot, baseKeys)
    + if Keeps(input, n - 1, smallestSnapshot, baseKeys) then [input[n - 1]] else []
  }

  ghost function KeptSet(In: set<Entry>, smallestSnapshot: SeqNo, baseKeys: iset<UserKey>): (r: set<Entry>)
  {
    set e | e in In && KeptEntry(In, e, smallestSnapshot, baseKeys)
  }

  // The loop-free meaning of the drop rule: everything above the smallest snapshot, and
  // of each key's entries at or below it only the newest, unless that is an obsolete marker.
  ghost predicate KeptEntry(In: set<Entry>, e: Entry, smallestSnapshot: SeqNo, baseKeys: iset<UserKey>) {
    e.Seq() > smallestSnapshot
    || (IsNewest(In, e.Key(), smallestSnapshot, e) && !Obsolete(e, smallestSnapshot, baseKeys))
  }

  lemma HiddenMeansOlder(input: seq<Entry>, i: nat, smallestSnapshot: SeqNo)
    requires Sorted(input) && UniqueSeqs(Elems(input)) && i < |input|
    ensures Hidden(input, i, smallestSnapshot) <==>
              exists x :: Candidate(Elems(input), input[i].Key(), smallestSnapshot, x) && x.Seq() > input[i].Seq()
  {
    var e := input[i];
    if Hidden(input, i, smallestSnapshot) {
      var x := input[i - 1];
      assert Before(x.ikey, e.ikey);
      assert x in Elems(input) && e in Elems(input);
      assert Candidate(Elems(input), e.Key(), smallestSnapshot, x) && x.Seq() > e.Seq();
    }
    if x :| Candidate(Elems(input), e.Key(), smallestSnapshot, x) && x.Seq() > e.Seq() {
      var j :| 0 <= j < |input| && input[j] == x;
      assert i < j ==> Before(e.ikey, x.ikey);
      assert j < i;
      assert j < i - 1 ==> Before(x.ikey, input[i - 1].ikey);
      assert Before(input[i - 1].ikey, e.ikey);
    }
  }

  lemma KeepsMeansKept(input: seq<Entry>, i: nat, smallestSnapshot: SeqNo, baseKeys: iset<UserKey>)
    requires Sorted(input) && UniqueSeqs(Elems(input)) && i < |input|
    ensures Keeps(input, i, smallestSnapshot, baseKeys)
       <==> KeptEntry(Elems(input), input[i], smallestSnapshot, baseKeys)
  {
    HiddenMeansOlder(input, i, smallestSnapshot);
    assert input[i] in Elems(input);
  }

  // The loop keeps exactly the entries of the loop-free rule, in order.
  lemma {:induction false} KeptExactly(input: seq<Entry>, n: nat, smallestSnapshot: SeqNo, baseKeys: iset<UserKey>)
    requires Sorted(input) && UniqueSeqs(Elems(input)) && n <= |input|
    ensures forall e :: e in Kept(input, n, smallestSnapshot, baseKeys) <==>
              e in input[..n] && KeptEntry(Elems(input), e, smallestSnapshot, baseKeys)
    ensures Sorted(Kept(input, n, smallestSnapshot, baseKeys))
  {
    if n > 0 {
      KeptExactly(input, n - 1, smallestSnapshot, baseKeys);
      KeepsMeansKept(input, n - 1, smallestSnapshot, baseKeys);
      assert input[..n] == input[..n - 1] + [input[n - 1]];
      var before := Kept(input, n - 1, smallestSnapshot, baseKeys);
      forall i | 0 <= i < |before| ensures Before(before[i].ikey, input[n - 1].ikey) {
        assert before[i] in input[..n - 1];
      }
    }
  }

  // A dropped marker is exposed when it was the newest entry of its key and what lies
  // outside the compaction still holds an older value for the key.
  ghost predicate Exposed(Rest: set<Entry>, In: set<Entry>, key: UserKey, smallestSnapshot: SeqNo,
                          baseKeys: iset<UserKey>)
  {
    exists d :: d in In && IsNewest(Rest + In, key, smallestSnapshot, d)
      && Obsolete(d, smallestSnapshot, baseKeys) && Lookup(Rest, key, smallestSnapshot).Some?
  }

  lemma NewestKeptOrMarker(Rest: set<Entry>, In: set<Entry>, key: UserKey, snapshot: SeqNo,
                           smallestSnapshot: SeqNo, baseKeys: iset<UserKey>, n: Entry)
    requires snapshot >= smallestSnapshot && IsNewest(Rest + In, key, snapshot, n) && n in In
    ensures KeptEntry(In, n, smallestSnapshot, baseKeys)
            || (Obsolete(n, smallestSnapshot, baseKeys) && IsNewest(Rest + In, key, smallestSnapshot, n))
  {
    if n.Seq() <= smallestSnapshot {
      forall x | Candidate(Rest + In, key, smallestSnapshot, x) ensures x.Seq() <= n.Seq() {
        assert Candidate(Rest + In, key, snapshot, x);
      }
      forall x | Candidate(In, key, smallestSnapshot, x) ensures x.Seq() <= n.Seq() {
        assert Candidate(Rest + In, key, smallestSnapshot, x);
      }
    }
  }

  // Without its marker the key reads as the rest does.
  lemma DroppedMarkerReadsRest(Rest: set<Entry>, In: set<Entry>, key: UserKey, snapshot: SeqNo,
                               smallestSnapshot: SeqNo, baseKeys: iset<UserKey>, n: Entry)
    requires UniqueSeqs(Rest + In) && snapshot >= smallestSnapshot
    requires n in In && IsNewest(Rest + In, key, snapshot, n) && n.Seq() <= smallestSnapshot
    requires Obsolete(n, smallestSnapshot, baseKeys)
    ensures Lookup(Rest + KeptSet(In, smallestSnapshot, baseKeys), key, snapshot) == Lookup(Rest, key, smallestSnapshot)
    ensures Lookup(Rest + In, key, snapshot) == None
  {
    NewestIs(Rest + In, key, snapshot, n);
    var K := KeptSet(In, smallestSnapshot, baseKeys);
    forall x ensures Candidate(Rest + K, key, snapshot, x) <==> Candidate(Rest, key, smallestSnapshot, x) {
      KeptCandidateIsOutside(Rest, In, key, snapshot, smallestSnapshot, baseKeys, n, x);
      assert Candidate(Rest, key, snapshot, x) ==> Candidate(Rest + In, key, snapshot, x);
    }
    SameReads(Rest + K, Rest, key, snapshot, smallestSnapshot);
  }

  // Below an obsolete newest entry the compaction keeps nothing of the key.
  lemma KeptCandidateIsOutside(Rest: set<Entry>, In: set<Entry>, key: UserKey, snapshot: SeqNo,
                               smallestSnapshot: SeqNo, baseKeys: iset<UserKey>, n: Entry, x: Entry)
    requires UniqueSeqs(Rest + In) && snapshot >= smallestSnapshot
    requires n in In && IsNewest(Rest + In, key, snapshot, n) && Obsolete(n, smallestSnapshot, baseKeys)
    ensures x in KeptSet(In, smallestSnapshot, baseKeys) && x.Key() == key ==> x.Seq() > snapshot
  {
    var isCandidate := Candidate(Rest + In, key, snapshot, x);
    var markerIsCandidate := Candidate(In, key, smallestSnapshot, n);
  }

  // Two sets whose candidates at two snapshots agree read alike there.
  lemma SameReads(E: set<Entry>, F: set<Entry>, key: UserKey, s: SeqNo, r: SeqNo)
    requires UniqueSeqs(E)
    requires forall x :: Candidate(E, key, s, x) <==> Candidate(F, key, r, x)
    ensures Newest(E, key, s) == Newest(F, key, r)
  {
    var e, f := Newest(E, key, s), Newest(F, key, r);
    if e.Some? {
      assert Candidate(F, key, r, e.value);
      assert Candidate(E, key, s, f.value);
    }
  }

  // Dropping never changes what a live snapshot reads, except by exposing an older value.
  lemma DropChangesOnlyExposed(Rest: set<Entry>, In: set<Entry>, key: UserKey, snapshot: SeqNo,
                               smallestSnapshot: SeqNo, baseKeys: iset<UserKey>)
    requires UniqueSeqs(Rest + In) && snapshot >= smallestSnapshot
    ensures Lookup(Rest + KeptSet(In, smallestSnapshot, baseKeys), key, snapshot) == Lookup(Rest + In, key, snapshot)
            || Exposed(Rest, In, key, smallestSnapshot, baseKeys)
  {
    var K := KeptSet(In, smallestSnapshot, baseKeys);
    var n := Newest(Rest + In, key, snapshot);
    if n.None? {
      forall x ensures !Candidate(Rest + K, key, snapshot, x) {
        assert !Candidate(Rest + In, key, snapshot, x);
      }
    } else {
      var e := n.value;
      if e in In && e !in K && e !in Rest {
        NewestKeptOrMarker(Rest, In, key, snapshot, smallestSnapshot, baseKeys, e);
        DroppedMarkerReadsRest(Rest, In, key, snapshot, smallestSnapshot, baseKeys, e);
      } else {
        assert IsNewest(Rest + K, key, snapshot, e) by {
          forall x | Candidate(Rest + K, key, snapshot, x) ensures x.Seq() <= e.Seq() {
            assert Candidate(Rest + In, key, snapshot, x);
          }
        }
        NewestIs(Rest + K, key, snapshot, e);
      }
    }
  }

  // Every key reads the same in both sets at every snapshot from the given one on.
  ghost predicate ReadsSame(E: set<Entry>, F: set<Entry>, from: SeqNo) {
    forall key, snapshot: SeqNo :: snapshot >= from ==> Lookup(E, key, snapshot) == Lookup(F, key, snapshot)
  }

  // Every read at every live snapshot is unchanged if and only if no key is exposed.
  lemma DropPreservesReadsIff(Rest: set<Entry>, In: set<Entry>, smallestSnapshot: SeqNo, baseKeys: iset<UserKey>)
    requires UniqueSeqs(Rest + In) && Rest !! In
    ensures ReadsSame(Rest + KeptSet(In, smallestSnapshot, baseKeys), Rest + In, smallestSnapshot)
       <==> (forall key :: !Exposed(Rest, In, key, smallestSnapshot, baseKeys))
  {
    var K := KeptSet(In, smallestSnapshot, baseKeys);
    forall key | Exposed(Rest, In, key, smallestSnapshot, baseKeys)
      ensures Lookup(Rest + K, key, smallestSnapshot) != Lookup(Rest + In, key, smallestSnapshot)
    {
      var d :| d in In && IsNewest(Rest + In, key, smallestSnapshot, d)
        && Obsolete(d, smallestSnapshot, baseKeys) && Lookup(Rest, key, smallestSnapshot).Some?;
      DroppedMarkerReadsRest(Rest, In, key, smallestSnapshot, smallestSnapshot, baseKeys, d);
    }
    forall key, snapshot: SeqNo | snapshot >= smallestSnapshot && !Exposed(Rest, In, key, smallestSnapshot, baseKeys)
      ensures Lookup(Rest + K, key, snapshot) == Lookup(Rest + In, key, snapshot)
    {
      DropChangesOnlyExposed(Rest, In, key, snapshot, smallestSnapshot, baseKeys);
    }
  }
}
