/** DBIter: a two-direction cursor over versioned entries that behaves like a cursor over the
    sorted map of the keys visible at its sequence number. */
module DbIter {
  import opened InternalKeys
  import opened Versions

  // The entry a reader at the sequence number sees for its key.
  predicate Live(entries: seq<Entry>, sequence: SeqNo, i: nat) {
    && i < |entries| && entries[i].Seq() <= sequence && entries[i].ikey.kind == Put
    && forall j :: 0 <= j < i && entries[j].Key() == entries[i].Key() ==> entries[j].Seq() > sequence
  }

  // ---- The map the cursor walks

  type View = seq<(UserKey, Value)>

  ghost predicate MapSorted(v: View) {
    forall i, j :: 0 <= i < j < |v| ==> v[i].0 < v[j].0
  }

  // The visible keys and values among the first n entries, in key order.
  ghost function Visible(entries: seq<Entry>, sequence: SeqNo, n: nat): View
    requires n <= |entries|
  {
    if n == 0 then [] else
    Visible(entries, sequence, n - 1)
    + if Live(entries, sequence, n - 1) then [(entries[n - 1].Key(), entries[n - 1].value)] else []
  }

  lemma LiveIsLookup(entries: seq<Entry>, sequence: SeqNo, i: nat)
    requires Sorted(entries) && UniqueSeqs(Elems(entries)) && Live(entries, sequence, i)
    ensures Lookup(Elems(entries), entries[i].Key(), sequence) == Some(entries[i].value)
  {
    var e := entries[i];
    forall x | Candidate(Elems(entries), e.Key(), sequence, x) ensures x.Seq() <= e.Seq() {
      var j :| 0 <= j < |entries| && entries[j] == x;
      assert i < j ==> Before(e.ikey, x.ikey);
    }
    NewestIs(Elems(entries), e.Key(), sequence, e);
  }

  lemma LookupIsLive(entries: seq<Entry>, sequence: SeqNo, key: UserKey) returns (i: nat)
    requires Sorted(entries) && UniqueSeqs(Elems(entries))
    requires Lookup(Elems(entries), key, sequence).Some?
    ensures Live(entries, sequence, i) && entries[i].Key() == key
  {
    var e := Newest(Elems(entries), key, sequence).value;
    i :| 0 <= i < |entries| && entries[i] == e;
    forall j | 0 <= j < i && entries[j].Key() == key ensures entries[j].Seq() > sequence {
      assert Before(entries[j].ikey, e.ikey);
      var hint := Candidate(Elems(entries), key, sequence, entries[j]);
      assert entries[j] in Elems(entries) && e in Elems(entries);
    }
  }

  lemma {:induction false} VisibleOrigin(entries: seq<Entry>, sequence: SeqNo, n: nat, k: nat) returns (i: nat)
    requires n <= |entries| && k < |Visible(entries, sequence, n)|
    ensures i < n && Live(entries, sequence, i)
    ensures Visible(entries, sequence, n)[k] == (entries[i].Key(), entries[i].value)
  {
    if k < |Visible(entries, sequence, n - 1)| {
      i := VisibleOrigin(entries, sequence, n - 1, k);
    } else {
      i := n - 1;
    }
  }

  lemma LiveKeysIncrease(entries: seq<Entry>, sequence: SeqNo, i: nat, j: nat)
    requires Sorted(entries) && i < j && Live(entries, sequence, i) && Live(entries, sequence, j)
    ensures entries[i].Key() < entries[j].Key()
  {
    assert Before(entries[i].ikey, entries[j].ikey);
  }

  lemma {:induction false} VisibleIsSorted(entries: seq<Entry>, sequence: SeqNo, n: nat)
    requires Sorted(entries) && n <= |entries|
    ensures MapSorted(Visible(entries, sequence, n))
  {
    if n > 0 {
      VisibleIsSorted(entries, sequence, n - 1);
      if Live(entries, sequence, n - 1) {
        var before := Visible(entries, sequence, n - 1);
        forall k | 0 <= k < |before| ensures before[k].0 < entries[n - 1].Key() {
          var i := VisibleOrigin(entries, sequence, n - 1, k);
          LiveKeysIncrease(entries, sequence, i, n - 1);
        }
        assert Visible(entries, sequence, n) == before + [(entries[n - 1].Key(), entries[n - 1].value)];
      } else {
        assert Visible(entries, sequence, n) == Visible(entries, sequence, n - 1);
      }
    }
  }

  // The view is the sorted map of exactly the keys a lookup finds, with the values it finds.
  lemma ViewIsTheMap(entries: seq<Entry>, sequence: SeqNo, key: UserKey, value: Value)
    requires Sorted(entries) && UniqueSeqs(Elems(entries))
    ensures var v := Visible(entries, sequence, |entries|);
            && MapSorted(v)
            && ((key, value) in v <==> Lookup(Elems(entries), key, sequence) == Some(value))
  {
    var v := Visible(entries, sequence, |entries|);
    VisibleIsSorted(entries, sequence, |entries|);
    if (key, value) in v {
      var k :| 0 <= k < |v| && v[k] == (key, value);
      var i := VisibleOrigin(entries, sequence, |entries|, k);
      LiveIsLookup(entries, sequence, i);
    }
    if Lookup(Elems(entries), key, sequence) == Some(value) {
      var i := LookupIsLive(entries, sequence, key);
      LiveIsLookup(entries, sequence, i);
      LiveHasRank(entries, sequence, i);
    }
  }

  // ---- A cursor over a sorted map

  ghost function NextIn(view: View, c: nat): Option<nat> { if c + 1 < |view| then Some(c + 1) else None }
  ghost function PrevIn(view: View, c: nat): Option<nat> { if c > 0 then Some(c - 1) else None }
  ghost function FirstIn(view: View): Option<nat> { if view != [] then Some(0) else None }
  ghost function LastIn(view: View): Option<nat> { if view != [] then Some(|view| - 1) else None }

  // The first position whose key is not below the target.
  ghost predicate IsSeek(view: View, target: UserKey, c: Option<nat>) {
    match c
    case None => forall p :: p in view ==> p.0 < target
    case Some(i) => i < |view| && view[i].0 >= target && forall j :: 0 <= j < i ==> view[j].0 < target
  }

  // How many visible keys lie before entry i: the cursor position of a live entry.
  ghost function Rank(entries: seq<Entry>, sequence: SeqNo, i: nat): nat
    requires i <= |entries|
  {
    |Visible(entries, sequence, i)|
  }

  lemma {:induction false} VisiblePrefix(entries: seq<Entry>, sequence: SeqNo, m: nat, n: nat)
    requires m <= n <= |entries|
    ensures Visible(entries, sequence, m) <= Visible(entries, sequence, n)
    ensures (forall i :: m <= i < n ==> !Live(entries, sequence, i)) ==>
              Visible(entries, sequence, m) == Visible(entries, sequence, n)
    decreases n
  {
    if m < n {
      VisiblePrefix(entries, sequence, m, n - 1);
    }
  }

  lemma LiveHasRank(entries: seq<Entry>, sequence: SeqNo, i: nat)
    requires Live(entries, sequence, i)
    ensures var v := Visible(entries, sequence, |entries|); var r := Rank(entries, sequence, i);
            r < |v| && v[r] == (entries[i].Key(), entries[i].value)
  {
    VisiblePrefix(entries, sequence, i + 1, |entries|);
  }

  ghost predicate NoneLive(entries: seq<Entry>, sequence: SeqNo, from: nat, to: nat) {
    forall i :: from <= i < to ==> !Live(entries, sequence, i)
  }

  // ---- Scanning forward

  // The first visible entry at or after an index.
  ghost predicate FirstLive(entries: seq<Entry>, sequence: SeqNo, from: nat, i: nat) {
    from <= i && Live(entries, sequence, i) && NoneLive(entries, sequence, from, i)
  }

  // The forward scan, looking for the first visible entry at or after from, stands on pos.
  ghost predicate Scanning(entries: seq<Entry>, sequence: SeqNo, from: nat, pos: nat, skipping: bool,
                           skip: Option<UserKey>)
  {
    && pos <= |entries| && from <= |entries| && (skipping ==> skip.Some?)
    // Nothing behind the scan is wanted,
    && NoneLive(entries, sequence, from, pos)
    // nothing before from will be yielded,
    && (forall i :: pos <= i < from && entries[i].Seq() <= sequence ==> skipping && entries[i].Key() <= skip.value)
    // what it passed of a key that goes on is hidden by the skip key,
    && (forall j, i | 0 <= j < pos <= i < |entries| && entries[j].Key() == entries[i].Key()
                      && entries[j].Seq() <= sequence :: skipping && entries[i].Key() <= skip.value)
    // and the skip key hides nothing that is wanted.
    && (skipping ==> forall i :: pos <= i < |entries| && entries[i].Seq() <= sequence ==>
          entries[i].Key() >= skip.value
          && (entries[i].Key() == skip.value && from <= i ==> !Live(entries, sequence, i)))
  }

  lemma SkipKeyIsSet(entries: seq<Entry>, sequence: SeqNo, from: nat, pos: nat, skipping: bool, skip: Option<UserKey>)
    requires Scanning(entries, sequence, from, pos, skipping, skip)
    ensures skipping ==> skip.Some?
  {
  }

  lemma ScanHidden(entries: seq<Entry>, sequence: SeqNo, from: nat, pos: nat, skipping: bool, skip: Option<UserKey>)
    requires Sorted(entries) && pos < |entries| && Scanning(entries, sequence, from, pos, skipping, skip)
    requires entries[pos].Seq() > sequence || (skipping && entries[pos].Key() <= skip.value)
    ensures Scanning(entries, sequence, from, pos + 1, skipping, skip)
  {
  }

  lemma ScanDeletion(entries: seq<Entry>, sequence: SeqNo, from: nat, pos: nat, skipping: bool, skip: Option<UserKey>)
    requires Sorted(entries) && pos < |entries| && Scanning(entries, sequence, from, pos, skipping, skip)
    requires entries[pos].Seq() <= sequence && entries[pos].ikey.kind == Deletion
    ensures Scanning(entries, sequence, from, pos + 1, true, Some(entries[pos].Key()))
  {
    var e := entries[pos];
    forall i | pos < i < |entries|
      ensures entries[i].Key() >= e.Key()
      ensures entries[i].Key() == e.Key() ==> !Live(entries, sequence, i)
    {
      assert Before(e.ikey, entries[i].ikey);
    }
    forall j, i | 0 <= j < pos + 1 <= i < |entries| && entries[j].Key() == entries[i].Key()
      ensures entries[i].Key() <= e.Key()
    {
      assert j < pos ==> Before(entries[j].ikey, e.ikey);
      assert Before(e.ikey, entries[i].ikey);
    }
  }

  lemma ScanYields(entries: seq<Entry>, sequence: SeqNo, from: nat, pos: nat, skipping: bool, skip: Option<UserKey>)
    requires pos < |entries| && Scanning(entries, sequence, from, pos, skipping, skip)
    requires entries[pos].Seq() <= sequence && entries[pos].ikey.kind == Put
    requires !(skipping && entries[pos].Key() <= skip.value)
    ensures FirstLive(entries, sequence, from, pos)
  {
  }

  lemma ScanEnds(entries: seq<Entry>, sequence: SeqNo, from: nat, pos: nat, skipping: bool, skip: Option<UserKey>)
    requires pos == |entries| && Scanning(entries, sequence, from, pos, skipping, skip)
    ensures NoneLive(entries, sequence, from, |entries|)
  {
  }

  // ---- Scanning backward

  // The backward scan, having looked at the entries above pos up to top, last met the entry
  // found (if any) at or below the sequence number.
  ghost predicate ScanningBack(entries: seq<Entry>, sequence: SeqNo, top: int, pos: int, found: Option<nat>)
  {
    && -1 <= pos <= top < |entries|
    && match found
       case None => forall i :: pos < i <= top ==> entries[i].Seq() > sequence
       case Some(g) =>
         && pos < g <= top && entries[g].Seq() <= sequence
         && (forall i :: pos < i < g ==> entries[i].Seq() > sequence)
         && (forall i :: g < i <= top ==> !Live(entries, sequence, i))
  }

  lemma BackStarts(entries: seq<Entry>, sequence: SeqNo, top: int)
    requires -1 <= top < |entries|
    ensures ScanningBack(entries, sequence, top, top, None)
  {
  }

  lemma BackHidden(entries: seq<Entry>, sequence: SeqNo, top: int, pos: int, found: Option<nat>)
    requires ScanningBack(entries, sequence, top, pos, found) && pos >= 0 && entries[pos].Seq() > sequence
    ensures ScanningBack(entries, sequence, top, pos - 1, found)
  {
  }

  // An entry at or below the sequence number replaces what was found, unless that was a
  // value of a larger key.
  lemma BackFinds(entries: seq<Entry>, sequence: SeqNo, top: int, pos: int, found: Option<nat>)
    requires Sorted(entries) && ScanningBack(entries, sequence, top, pos, found)
    requires pos >= 0 && entries[pos].Seq() <= sequence
    requires found.Some? && entries[found.value].ikey.kind == Put ==> entries[pos].Key() >= entries[found.value].Key()
    ensures ScanningBack(entries, sequence, top, pos - 1, Some(pos))
  {
    if found.Some? {
      var g := found.value;
      assert Before(entries[pos].ikey, entries[g].ikey);
      assert !Live(entries, sequence, g);
    }
  }

  // The last visible entry at or before an index.
  ghost predicate LastLive(entries: seq<Entry>, sequence: SeqNo, top: int, i: nat) {
    i <= top && Live(entries, sequence, i) && forall j :: i < j <= top ==> !Live(entries, sequence, j)
  }

  lemma LaterKeysAreNotSmaller(entries: seq<Entry>, i: nat, j: nat)
    requires Sorted(entries) && i < |entries| && j < |entries|
    ensures entries[i].Key() < entries[j].Key() ==> i < j
    ensures i < j ==> entries[i].Key() <= entries[j].Key()
  {
    if i < j {
      assert Before(entries[i].ikey, entries[j].ikey);
    } else if j < i {
      assert Before(entries[j].ikey, entries[i].ikey);
    }
  }

  lemma BackYields(entries: seq<Entry>, sequence: SeqNo, top: int, pos: int, g: nat)
    requires Sorted(entries) && ScanningBack(entries, sequence, top, pos, Some(g)) && entries[g].ikey.kind == Put
    requires pos >= 0 ==> entries[pos].Key() < entries[g].Key()
    ensures LastLive(entries, sequence, top, g)
    ensures forall i :: pos < i < |entries| ==> entries[i].Key() >= entries[g].Key() || entries[i].Seq() > sequence
  {
    forall j | 0 <= j < g && entries[j].Key() == entries[g].Key() ensures entries[j].Seq() > sequence {
      if pos >= 0 {
        LaterKeysAreNotSmaller(entries, j, pos);
      }
    }
    forall i | g < i < |entries| ensures entries[i].Key() >= entries[g].Key() {
      assert Before(entries[g].ikey, entries[i].ikey);
    }
  }

  lemma BackEnds(entries: seq<Entry>, sequence: SeqNo, top: int, found: Option<nat>)
    requires Sorted(entries) && ScanningBack(entries, sequence, top, -1, found)
    requires found.None? || entries[found.value].ikey.kind == Deletion
    ensures forall i :: 0 <= i <= top ==> !Live(entries, sequence, i)
  {
  }

  class DBIter {
    const entries: seq<Entry>
    const sequence: SeqNo
    // The inner iterator stands on entries[pos], or nowhere when pos == |entries|.
    var pos: nat
    var forward: bool
    var valid: bool
    var savedKey: Option<UserKey>
    var savedValue: Value
    // The entry the cursor stands on when valid.
    ghost var cur: nat

    constructor (entries: seq<Entry>, sequence: SeqNo)
      requires Sorted(entries) && UniqueSeqs(Elems(entries))
      ensures Ok() && !valid && this.entries == entries && this.sequence == sequence
    {
      this.entries, this.sequence := entries, sequence;
      pos, forward, valid, savedKey, savedValue, cur := |entries|, true, false, None, "", 0;
    }

    ghost predicate Ok()
      reads this
    {
      && Sorted(entries) && UniqueSeqs(Elems(entries)) && pos <= |entries|
      && (valid ==> Live(entries, sequence, cur))
      && (valid && forward ==> pos == cur)
      && (valid && !forward ==>
            && savedKey == Some(entries[cur].Key()) && savedValue == entries[cur].value
            && BehindKey(entries[cur].Key()))
    }

    // Moving backwards, the inner iterator stands before all entries of the key; entries it
    // may have passed without looking are above the sequence number.
    ghost predicate BehindKey(key: UserKey)
      reads this
    {
      && (pos < |entries| ==> entries[pos].Key() < key)
      && forall i :: 0 <= i < |entries| && (pos == |entries| || pos < i) ==>
           entries[i].Key() >= key || entries[i].Seq() > sequence
    }

    ghost function Map(): View {
      Visible(entries, sequence, |entries|)
    }

    // Where the cursor stands in the map.
    ghost function Cursor(): (c: Option<nat>)
      requires Ok()
      reads this
    {
      if valid then Some(Rank(entries, sequence, cur)) else None
    }

    function Key(): (k: UserKey)
      requires Ok() && valid
      reads this
      ensures Cursor().value < |Map()| && k == Map()[Cursor().value].0
    {
      LiveHasRank(entries, sequence, cur);
      if forward then entries[pos].Key() else savedKey.value
    }

    function Val(): (v: Value)
      requires Ok() && valid
      reads this
      ensures Cursor().value < |Map()| && v == Map()[Cursor().value].1
    {
      LiveHasRank(entries, sequence, cur);
      if forward then entries[pos].value else savedValue
    }

    // ---- The inner iterator

    method InnerNext()
      requires pos < |entries|
      modifies this`pos
      ensures pos == old(pos) + 1
    {
      pos := pos + 1;
    }

    method InnerPrev()
      requires pos < |entries|
      modifies this`pos
      ensures pos == if old(pos) == 0 then |entries| else old(pos) - 1
    {
      pos := if pos == 0 then |entries| else pos - 1;
    }

    // DBIter::FindNextUserEntry
    method FindNextUserEntry(skipping0: bool, skip0: Option<UserKey>, ghost from: nat)
      requires Sorted(entries) && UniqueSeqs(Elems(entries)) && forward && pos < |entries|
      requires Scanning(entries, sequence, from, pos, skipping0, skip0)
      modifies this
      ensures Ok() && forward
      ensures valid ==> FirstLive(entries, sequence, from, cur)
      ensures !valid ==> NoneLive(entries, sequence, from, |entries|)
    {
      hide Scanning;
      var skipping, skip := skipping0, skip0;
      while pos < |entries|
        invariant Sorted(entries) && UniqueSeqs(Elems(entries)) && forward && pos <= |entries|
        invariant Scanning(entries, sequence, from, pos, skipping, skip)
        decreases |entries| - pos
      {
        var e := entries[pos];
        SkipKeyIsSet(entries, sequence, from, pos, skipping, skip);
        if e.Seq() <= sequence && e.ikey.kind == Deletion {
          ScanDeletion(entries, sequence, from, pos, skipping, skip);
          skip := Some(e.Key());
          skipping := true;
        } else if e.Seq() <= sequence && !(skipping && e.Key() <= skip.value) {
          ScanYields(entries, sequence, from, pos, skipping, skip);
          valid := true;
          savedKey := None;
          cur := pos;
          return;
        } else {
          ScanHidden(entries, sequence, from, pos, skipping, skip);
        }
        InnerNext();
      }
      ScanEnds(entries, sequence, from, pos, skipping, skip);
      savedKey := None;
      valid := false;
    }

    // DBIter::FindPrevUserEntry
    method FindPrevUserEntry()
      requires Sorted(entries) && UniqueSeqs(Elems(entries)) && !forward && pos <= |entries|
      modifies this
      ensures Ok()
      ensures var top := if old(pos) < |entries| then old(pos) else -1;
              && (valid ==> !forward && LastLive(entries, sequence, top, cur))
              && (!valid ==> forward && forall i :: 0 <= i <= top ==> !Live(entries, sequence, i))
    {
      hide ScanningBack, Live, Visible, Sorted, UniqueSeqs;
      ghost var top := if pos < |entries| then pos else -1;
      ghost var found: Option<nat> := None;
      BackStarts(entries, sequence, top);
      var kind := Deletion;
      if pos < |entries| {
        while pos < |entries|
          invariant pos <= |entries| && !forward
          invariant ScanningBack(entries, sequence, top, if pos < |entries| then pos else -1, found)
          invariant found.Some? ==> found.value < |entries|
          invariant kind == if found.Some? then entries[found.value].ikey.kind else Deletion
          invariant kind == Put ==> savedKey == Some(entries[found.value].Key()) && savedValue == entries[found.value].value
          decreases if pos < |entries| then pos + 1 else 0
        {
          var e := entries[pos];
          if e.Seq() <= sequence {
            if kind != Deletion && e.Key() < savedKey.value {
              break;
            }
            BackFinds(entries, sequence, top, pos, found);
            found := Some(pos);
            kind := e.ikey.kind;
            if kind == Deletion {
              savedKey := None;
              savedValue := "";
            } else {
              savedKey := Some(e.Key());
              savedValue := e.value;
            }
          } else {
            BackHidden(entries, sequence, top, pos, found);
          }
          InnerPrev();
        }
      }
      if kind == Deletion {
        BackEnds(entries, sequence, top, found);
        valid := false;
        savedKey := None;
        savedValue := "";
        forward := true;
      } else {
        BackYields(entries, sequence, top, if pos < |entries| then pos else -1, found.value);
        valid := true;
        cur := found.value;
      }
    }

    // ---- Operations

    // DBIter::Seek
    method Seek(target: UserKey)
      requires Ok()
      modifies this
      ensures Ok() && IsSeek(Map(), target, Cursor())
    {
      forward := true;
      savedValue := "";
      savedKey := None;
      ghost var from := SeekIndex(entries, SeekKey(target, sequence));
      pos := SeekIndex(entries, SeekKey(target, sequence));
      SeekStarts(entries, sequence, target, from);
      if pos < |entries| {
        FindNextUserEntry(false, None, from);
      } else {
        valid := false;
      }
      SeekEnds(entries, sequence, target, from, if valid then Some(cur) else None);
    }

    // DBIter::SeekToFirst
    method SeekToFirst()
      requires Ok()
      modifies this
      ensures Ok() && Cursor() == FirstIn(Map())
    {
      forward := true;
      savedValue := "";
      pos := 0;
      if pos < |entries| {
        FindNextUserEntry(false, None, 0);
      } else {
        valid := false;
      }
      RankAhead(entries, sequence, 0, if valid then Some(cur) else None);
    }

    // DBIter::SeekToLast
    method SeekToLast()
      requires Ok()
      modifies this
      ensures Ok() && Cursor() == LastIn(Map())
    {
      forward := false;
      savedValue := "";
      pos := if entries == [] then 0 else |entries| - 1;
      FindPrevUserEntry();
      RankBehind(entries, sequence, |entries|, if valid then Some(cur) else None);
    }

    // DBIter::Next
    method Next()
      requires Ok() && valid
      modifies this
      ensures Ok() && Cursor() == NextIn(Map(), old(Cursor().value))
    {
      hide Scanning;
      ghost var was := cur;
      if !forward {
        forward := true;
        if pos == |entries| {
          pos := 0;
        } else {
          LaterKeysAreNotSmaller(entries, pos, cur);
          InnerNext();
        }
        if pos == |entries| {
          // The entries of key() lie ahead, so the inner iterator is valid.
          assert false;
        }
      } else {
        savedKey := Some(entries[pos].Key());
        AheadOfLive(entries, sequence, cur);
      }
      NextStarts(entries, sequence, was, pos);
      FindNextUserEntry(true, savedKey, was + 1);
      NextRank(entries, sequence, was, if valid then Some(cur) else None);
    }

    // DBIter::Prev
    method Prev()
      requires Ok() && valid
      modifies this
      ensures Ok() && Cursor() == PrevIn(Map(), old(Cursor().value))
    {
      hide LastLive, Visible, Sorted, UniqueSeqs;
      ghost var was := cur;
      if forward {
        BackToPreviousKey();
        if pos == |entries| {
          valid := false;
          savedKey := None;
          savedValue := "";
          PrevStarts(entries, sequence, was, -1);
          PrevRank(entries, sequence, was, -1, None);
          return;
        }
        forward := false;
      } else if pos < |entries| {
        LaterKeysAreNotSmaller(entries, pos, cur);
      }
      ghost var top := if pos < |entries| then pos else -1;
      PrevStarts(entries, sequence, was, top);
      FindPrevUserEntry();
      PrevRank(entries, sequence, was, top, if valid then Some(cur) else None);
    }

    // Prev, switching directions: step back until the key changes.
    method BackToPreviousKey()
      requires Ok() && valid && forward
      modifies this`pos, this`savedKey
      ensures savedKey == Some(entries[cur].Key()) && pos <= |entries|
      ensures pos < |entries| ==> pos < cur && entries[pos].Key() < entries[cur].Key()
      ensures forall i :: 0 <= i < |entries| && (pos == |entries| || pos < i) ==> entries[i].Key() >= entries[cur].Key()
    {
      AheadOfLive(entries, sequence, cur);
      savedKey := Some(entries[pos].Key());
      while true
        invariant pos <= cur && savedKey == Some(entries[cur].Key())
        invariant forall i :: pos <= i < |entries| ==> entries[i].Key() >= entries[cur].Key()
        decreases pos
      {
        InnerPrev();
        if pos == |entries| {
          return;
        }
        if entries[pos].Key() < savedKey.value {
          return;
        }
      }
    }
  }

  // ---- Where scans start, and what they mean for the map

  // Entries before a sought position are below the target or above the sequence number.
  lemma SeekStarts(entries: seq<Entry>, sequence: SeqNo, target: UserKey, pos: nat)
    requires Sorted(entries) && pos == SeekIndex(entries, SeekKey(target, sequence))
    ensures forall i :: 0 <= i < pos ==> entries[i].Key() < target || entries[i].Seq() > sequence
    ensures forall i :: pos <= i < |entries| ==> entries[i].Key() >= target
    ensures Scanning(entries, sequence, pos, pos, false, None)
  {
    forall i | 0 <= i < |entries| ensures Before(entries[i].ikey, SeekKey(target, sequence)) <==> i < pos {
      assert pos < i ==> Before(entries[pos].ikey, entries[i].ikey);
    }
  }

  lemma NextStarts(entries: seq<Entry>, sequence: SeqNo, cur: nat, pos: nat)
    requires Sorted(entries) && Live(entries, sequence, cur) && pos <= cur
    requires forall i :: pos <= i < |entries| ==> entries[i].Key() >= entries[cur].Key() || entries[i].Seq() > sequence
    ensures Scanning(entries, sequence, cur + 1, pos, true, Some(entries[cur].Key()))
  {
    forall i | 0 <= i < |entries|
      ensures i < cur ==> entries[i].Key() <= entries[cur].Key()
      ensures i > cur && entries[i].Key() == entries[cur].Key() ==> !Live(entries, sequence, i)
    {
      assert i < cur ==> Before(entries[i].ikey, entries[cur].ikey);
    }
    forall j, i | 0 <= j < pos <= i < |entries| && entries[j].Key() == entries[i].Key()
      ensures entries[i].Key() <= entries[cur].Key()
    {
      assert j < cur ==> Before(entries[j].ikey, entries[cur].ikey);
    }
  }

  // Between the scan's start and the cursor's entry nothing is visible.
  lemma PrevStarts(entries: seq<Entry>, sequence: SeqNo, cur: nat, top: int)
    requires Sorted(entries) && Live(entries, sequence, cur) && -1 <= top < cur
    requires forall i :: top < i < |entries| ==> entries[i].Key() >= entries[cur].Key() || entries[i].Seq() > sequence
    ensures forall i :: top < i < cur ==> !Live(entries, sequence, i)
  {
    forall i | top < i < cur ensures !Live(entries, sequence, i) {
      assert Before(entries[i].ikey, entries[cur].ikey);
    }
  }

  lemma AheadOfLive(entries: seq<Entry>, sequence: SeqNo, cur: nat)
    requires Sorted(entries) && Live(entries, sequence, cur)
    ensures forall i :: cur <= i < |entries| ==> entries[i].Key() >= entries[cur].Key()
  {
    forall i | cur <= i < |entries| ensures entries[i].Key() >= entries[cur].Key() {
      LaterKeysAreNotSmaller(entries, cur, i);
    }
  }

  lemma NextRank(entries: seq<Entry>, sequence: SeqNo, cur: nat, found: Option<nat>)
    requires Live(entries, sequence, cur)
    requires match found
             case None => NoneLive(entries, sequence, cur + 1, |entries|)
             case Some(i) => FirstLive(entries, sequence, cur + 1, i)
    ensures (if found.Some? then Some(Rank(entries, sequence, found.value)) else None)
         == NextIn(Visible(entries, sequence, |entries|), Rank(entries, sequence, cur))
  {
    LiveHasRank(entries, sequence, cur);
    RankAhead(entries, sequence, cur + 1, found);
  }

  lemma PrevRank(entries: seq<Entry>, sequence: SeqNo, cur: nat, top: int, found: Option<nat>)
    requires Live(entries, sequence, cur) && -1 <= top < cur && forall i :: top < i < cur ==> !Live(entries, sequence, i)
    requires match found
             case None => forall i :: 0 <= i <= top ==> !Live(entries, sequence, i)
             case Some(i) => LastLive(entries, sequence, top, i)
    ensures (if found.Some? then Some(Rank(entries, sequence, found.value)) else None)
         == PrevIn(Visible(entries, sequence, |entries|), Rank(entries, sequence, cur))
  {
    RankBehind(entries, sequence, cur, found);
  }

  lemma RankAhead(entries: seq<Entry>, sequence: SeqNo, from: nat, found: Option<nat>)
    requires from <= |entries|
    requires match found
             case None => NoneLive(entries, sequence, from, |entries|)
             case Some(i) => FirstLive(entries, sequence, from, i)
    ensures var v := Visible(entries, sequence, |entries|); var r := Rank(entries, sequence, from);
            (found.None? ==> r == |v|) && (found.Some? ==> r < |v| && Rank(entries, sequence, found.value) == r)
  {
    if found.Some? {
      VisiblePrefix(entries, sequence, from, found.value);
      LiveHasRank(entries, sequence, found.value);
    } else {
      VisiblePrefix(entries, sequence, from, |entries|);
    }
  }

  lemma RankBehind(entries: seq<Entry>, sequence: SeqNo, to: nat, found: Option<nat>)
    requires to <= |entries|
    requires match found
             case None => NoneLive(entries, sequence, 0, to)
             case Some(i) => i < to && Live(entries, sequence, i) && NoneLive(entries, sequence, i + 1, to)
    ensures (found.None? ==> Rank(entries, sequence, to) == 0)
    ensures (found.Some? ==> Rank(entries, sequence, found.value) + 1 == Rank(entries, sequence, to))
  {
    if found.Some? {
      VisiblePrefix(entries, sequence, found.value + 1, to);
    } else {
      VisiblePrefix(entries, sequence, 0, to);
    }
  }

  lemma SeekEnds(entries: seq<Entry>, sequence: SeqNo, target: UserKey, from: nat, found: Option<nat>)
    requires Sorted(entries) && UniqueSeqs(Elems(entries)) && from <= |entries|
    requires forall i :: 0 <= i < from ==> entries[i].Key() < target || entries[i].Seq() > sequence
    requires forall i :: from <= i < |entries| ==> entries[i].Key() >= target
    requires match found
             case None => NoneLive(entries, sequence, from, |entries|)
             case Some(i) => FirstLive(entries, sequence, from, i)
    ensures IsSeek(Visible(entries, sequence, |entries|), target,
                   if found.Some? then Some(Rank(entries, sequence, found.value)) else None)
  {
    var v := Visible(entries, sequence, |entries|);
    RankAhead(entries, sequence, from, found);
    VisiblePrefix(entries, sequence, from, |entries|);
    forall k | 0 <= k < Rank(entries, sequence, from) ensures v[k].0 < target {
      var i := VisibleOrigin(entries, sequence, from, k);
    }
    if found.Some? {
      LiveHasRank(entries, sequence, found.value);
    }
  }

  // ---- Any sequence of operations

  datatype Op = Seek(target: UserKey) | SeekToFirst | SeekToLast | Next | Prev

  ghost function SeekIn(view: View, target: UserKey, from: nat): Option<nat>
    requires from <= |view|
    decreases |view| - from
  {
    if from == |view| then None else if view[from].0 >= target then Some(from) else SeekIn(view, target, from + 1)
  }

  lemma {:induction false} SeekInIsSeek(view: View, target: UserKey, c: Option<nat>, from: nat)
    requires from <= |view| && MapSorted(view)
    requires IsSeek(view, target, c) && forall i :: 0 <= i < from ==> view[i].0 < target
    ensures c == SeekIn(view, target, from)
    decreases |view| - from
  {
    if from < |view| {
      assert view[from] in view;
      if view[from].0 < target {
        SeekInIsSeek(view, target, c, from + 1);
      }
    }
  }

  // A cursor over a plain sorted map. Next and Prev are only called on a valid cursor.
  ghost function MapStep(view: View, c: Option<nat>, op: Op): Option<nat> {
    match op
    case Seek(target) => SeekIn(view, target, 0)
    case SeekToFirst => FirstIn(view)
    case SeekToLast => LastIn(view)
    case Next => if c.Some? then NextIn(view, c.value) else None
    case Prev => if c.Some? then PrevIn(view, c.value) else None
  }

  ghost function MapRun(view: View, c: Option<nat>, ops: seq<Op>): Option<nat> {
    if ops == [] then c else MapStep(view, MapRun(view, c, ops[..|ops| - 1]), ops[|ops| - 1])
  }

  ghost predicate SeenAt(view: View, c: Option<nat>, seen: Option<(UserKey, Value)>) {
    match c
    case None => seen.None?
    case Some(i) => i < |view| && seen == Some(view[i])
  }

  // Whatever the operations and however often they switch direction, the iterator stands
  // where a cursor over the sorted map of visible keys would, and shows its key and value.
  method Run(it: DBIter, ops: seq<Op>) returns (seen: seq<Option<(UserKey, Value)>>)
    requires it.Ok() && !it.valid
    modifies it
    ensures it.Ok() && it.Cursor() == MapRun(it.Map(), None, ops)
    ensures |seen| == |ops|
    ensures forall k :: 0 <= k < |ops| ==> SeenAt(it.Map(), MapRun(it.Map(), None, ops[..k + 1]), seen[k])
  {
    hide Sorted, UniqueSeqs, Visible, Live, IsSeek;
    seen := [];
    ghost var view := it.Map();
    ViewIsSorted(it.entries, it.sequence);
    assert MapSorted(view);
    while |seen| < |ops|
      invariant it.Ok() && |seen| <= |ops|
      invariant it.Cursor() == MapRun(view, None, ops[..|seen|])
      invariant forall k :: 0 <= k < |seen| ==> SeenAt(view, MapRun(view, None, ops[..k + 1]), seen[k])
    {
      var k := |seen|;
      assert ops[..k + 1][..k] == ops[..k];
      match ops[k] {
        case Seek(target) =>
          it.Seek(target);
          SeekInIsSeek(view, target, it.Cursor(), 0);
        case SeekToFirst => it.SeekToFirst();
        case SeekToLast => it.SeekToLast();
        case Next => if it.valid { it.Next(); }
        case Prev => if it.valid { it.Prev(); }
      }
      seen := seen + [if it.valid then Some((it.Key(), it.Val())) else None];
    }
    assert ops[..|ops|] == ops;
  }

  lemma ViewIsSorted(entries: seq<Entry>, sequence: SeqNo)
    requires Sorted(entries)
    ensures MapSorted(Visible(entries, sequence, |entries|))
  {
    VisibleIsSorted(entries, sequence, |entries|);
  }
}
