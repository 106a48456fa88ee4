/** The circular list of live snapshots, relinked in place. */
module Snapshots {
  import opened InternalKeys

  // SnapshotImpl: a link of the ring. The list's own head is one too.
  class Snapshot {
    const sequence: SeqNo
    var prev: Snapshot?
    var next: Snapshot?

    constructor (sequence: SeqNo)
      ensures this.sequence == sequence && prev == null && next == null
    {
      this.sequence, prev, next := sequence, null, null;
    }
  }

  function After(i: nat, n: nat): nat { if i + 1 == n then 0 else i + 1 }

  function Back(i: nat, n: nat): nat
    requires n > 0
  {
    if i == 0 then n - 1 else i - 1
  }

  class SnapshotList {
    const head: Snapshot
    // The links in ring order, beginning with the head
    ghost var ring: seq<Snapshot>

    ghost predicate Valid()
      reads this, ring
    {
      && ring != [] && ring[0] == head
      && Distinct(ring) && Linked(ring)
      && (forall i, j | 0 < i < j < |ring| :: ring[i].sequence <= ring[j].sequence)
    }

    // The live snapshots, oldest first
    ghost function Live(): seq<Snapshot>
      reads this
      requires ring != []
    {
      ring[1..]
    }

    constructor ()
      ensures Valid() && Live() == [] && fresh(head)
    {
      var h := new Snapshot(0);
      head := h;
      ring := [h];
      new;
      h.prev, h.next := h, h;
    }

    method Empty() returns (empty: bool)
      requires Valid()
      ensures empty <==> Live() == []
    {
      assert LinkedAt(ring, 0);
      empty := head.next == head;
    }

    // The oldest snapshot bounds them all from below.
    method Oldest() returns (s: Snapshot)
      requires Valid() && Live() != []
      ensures s == Live()[0] && forall t | t in Live() :: s.sequence <= t.sequence
    {
      assert LinkedAt(ring, 0);
      s := head.next;
      assert forall t | t in Live() :: exists i | 1 <= i < |ring| :: ring[i] == t;
    }

    method Newest() returns (s: Snapshot)
      requires Valid() && Live() != []
      ensures s == Live()[|Live()| - 1] && forall t | t in Live() :: t.sequence <= s.sequence
    {
      assert LinkedAt(ring, 0);
      s := head.prev;
      assert forall t | t in Live() :: exists i | 1 <= i < |ring| :: ring[i] == t;
    }

    // SnapshotList::New: at the end, so callers pass sequence numbers that do not decrease.
    method New(sequence: SeqNo) returns (s: Snapshot)
      requires Valid() && forall t | t in Live() :: t.sequence <= sequence
      modifies this`ring, ring
      ensures Valid() && fresh(s) && s.sequence == sequence && Live() == old(Live()) + [s]
    {
      assert LinkedAt(ring, 0);
      s := new Snapshot(sequence);
      forall i | 0 < i < |ring|
        ensures ring[i].sequence <= sequence
      {
        assert ring[i] == Live()[i - 1];
      }
      Append(s, head, ring);
      ring := ring + [s];
    }

    // SnapshotList::Delete
    method Delete(s: Snapshot)
      requires Valid() && s in Live()
      modifies this`ring, ring
      ensures Valid()
      ensures exists k | 0 <= k < |old(Live())| :: old(Live())[k] == s && Live() == old(Live())[..k] + old(Live())[k + 1..]
    {
      ghost var k :| 0 < k < |ring| && ring[k] == s;
      ghost var was := ring;
      Unlink(s, ring, k);
      ring := ring[..k] + ring[k + 1..];
      Removed(was, k, ring);
      RemovedOrder(was, k, ring);
      hide Linked, Distinct, Bypassed;
      assert Live() == old(Live())[..k - 1] + old(Live())[k..];
    }
  }

  // What is left after link k stands in order and drops one snapshot.
  lemma RemovedOrder(was: seq<Snapshot>, k: nat, ring: seq<Snapshot>)
    requires 0 < k < |was| && ring == was[..k] + was[k + 1..]
    requires forall i, j | 0 < i < j < |was| :: was[i].sequence <= was[j].sequence
    ensures forall i, j | 0 < i < j < |ring| :: ring[i].sequence <= ring[j].sequence
    ensures ring[1..] == was[1..][..k - 1] + was[1..][k..] && ring[0] == was[0]
  {
    forall i, j | 0 < i < j < |ring|
      ensures ring[i].sequence <= ring[j].sequence
    {
      assert ring[i] == was[Former(i, k)] && ring[j] == was[Former(j, k)];
    }
  }

  ghost predicate Distinct(ring: seq<Snapshot>) {
    forall i, j | 0 <= i < j < |ring| :: ring[i] != ring[j]
  }

  ghost predicate LinkedAt(ring: seq<Snapshot>, i: nat)
    requires i < |ring|
    reads ring
  {
    ring[i].next == ring[After(i, |ring|)] && ring[i].prev == ring[Back(i, |ring|)]
  }

  ghost predicate Linked(ring: seq<Snapshot>)
    reads ring
  {
    forall i: nat | i < |ring| :: LinkedAt(ring, i)
  }

  function NextOver(i: nat, k: nat, n: nat): nat { if After(i, n) == k then After(k, n) else After(i, n) }

  function PrevOver(i: nat, k: nat, n: nat): nat
    requires n > 0
  {
    if Back(i, n) == k then Back(k, n) else Back(i, n)
  }

  // The links of the others once link k is bypassed
  ghost predicate BypassedAt(ring: seq<Snapshot>, k: nat, i: nat)
    requires 0 < k < |ring| && i < |ring|
    reads ring
  {
    ring[i].next == ring[NextOver(i, k, |ring|)] && ring[i].prev == ring[PrevOver(i, k, |ring|)]
  }

  ghost predicate Bypassed(ring: seq<Snapshot>, k: nat)
    requires 0 < k < |ring|
    reads ring
  {
    forall i: nat | i < |ring| && i != k :: BypassedAt(ring, k, i)
  }

  // The relinking of SnapshotList::New
  method Append(s: Snapshot, head: Snapshot, ghost ring: seq<Snapshot>)
    requires ring != [] && ring[0] == head && Distinct(ring) && Linked(ring) && s !in ring
    modifies s, ring
    ensures Linked(ring + [s]) && Distinct(ring + [s])
  {
    assert LinkedAt(ring, 0);
    label Start:
    s.next := head;
    s.prev := head.prev;
    s.prev.next := s;
    s.next.prev := s;
    forall i: nat | i < |ring + [s]|
      ensures LinkedAt(ring + [s], i)
    {
      if i < |ring| {
        assert old@Start(LinkedAt(ring, i));
      }
    }
  }

  method Unlink(s: Snapshot, ghost ring: seq<Snapshot>, ghost k: nat)
    requires 0 < k < |ring| && ring[k] == s && Distinct(ring) && Linked(ring)
    modifies ring
    ensures Bypassed(ring, k)
  {
    assert LinkedAt(ring, k);
    label Start:
    s.prev.next := s.next;
    s.next.prev := s.prev;
    forall i: nat | i < |ring| && i != k
      ensures BypassedAt(ring, k, i)
    {
      assert old@Start(LinkedAt(ring, i));
    }
  }

  lemma RemovedAt(was: seq<Snapshot>, k: nat, ring: seq<Snapshot>, i: nat)
    requires 0 < k < |was| && ring == was[..k] + was[k + 1..] && i < |ring|
    requires BypassedAt(was, k, Former(i, k))
    ensures LinkedAt(ring, i)
  {
    Shifted(k, |was|, i);
    FormerLink(was, k, ring, i);
    FormerLink(was, k, ring, After(i, |ring|));
    FormerLink(was, k, ring, Back(i, |ring|));
    hide After, Back, Former;
  }

  lemma FormerLink(was: seq<Snapshot>, k: nat, ring: seq<Snapshot>, i: nat)
    requires k < |was| && ring == was[..k] + was[k + 1..] && i < |ring|
    ensures Former(i, k) < |was| && Former(i, k) != k && ring[i] == was[Former(i, k)]
  {
  }

  lemma Removed(was: seq<Snapshot>, k: nat, ring: seq<Snapshot>)
    requires 0 < k < |was| && Bypassed(was, k) && Distinct(was) && ring == was[..k] + was[k + 1..]
    ensures Linked(ring) && Distinct(ring)
  {
    forall i: nat | i < |ring|
      ensures LinkedAt(ring, i)
    {
      FormerLink(was, k, ring, i);
      assert BypassedAt(was, k, Former(i, k));
      RemovedAt(was, k, ring, i);
    }
  }

  // Where a link and its neighbours stood before link k was taken out of a ring of n.
  function Former(i: nat, k: nat): nat { if i < k then i else i + 1 }

  lemma Shifted(k: nat, n: nat, i: nat)
    requires 0 < k < n && i < n - 1
    ensures Former(After(i, n - 1), k) == NextOver(Former(i, k), k, n)
    ensures Former(Back(i, n - 1), k) == PrevOver(Former(i, k), k, n)
    ensures After(i, n - 1) < n - 1 && Back(i, n - 1) < n - 1
  {
  }
}
