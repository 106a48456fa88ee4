/** Versioned entries, the internal key order, and the simple meaning of a set of
    entries: for a user key and a snapshot, the newest entry not above the snapshot. */
module InternalKeys {

  datatype Option<+T> = None | Some(value: T)

  // The user comparator is any total order on byte strings. There are countably many
  // byte strings, so every such order embeds in the reals; keys that compare equal are
  // one model key.
  type UserKey = real
  type Value = string

  const NUM_LEVELS := 7
  const L0_COMPACTION_TRIGGER := 4
  const L0_SLOWDOWN_WRITES_TRIGGER := 8
  const L0_STOP_WRITES_TRIGGER := 12
  const MAX_MEM_COMPACT_LEVEL := 2
  const MAX_SEQUENCE: nat := 0x100_0000_0000_0000 - 1

  type SeqNo = n: nat | n <= MAX_SEQUENCE

  datatype Kind = Deletion | Put

  function KindCode(k: Kind): nat {
    if k == Put then 1 else 0
  }

  const KIND_FOR_SEEK := Put

  datatype InternalKey = InternalKey(user: UserKey, seqno: SeqNo, kind: Kind)

  datatype Entry = Entry(ikey: InternalKey, value: Value)
  {
    function Key(): UserKey { ikey.user }
    function Seq(): SeqNo { ikey.seqno }
  }

  // The 64-bit trailer of an encoded internal key.
  function PackSequenceAndType(seqno: SeqNo, kind: Kind): nat {
    seqno * 256 + KindCode(kind)
  }

  // Sequence number and kind share 64 bits, the kind in the lowest eight; both can be read off.
  lemma TrailerInNumbers(seqno: SeqNo, kind: Kind)
    ensures PackSequenceAndType(seqno, kind) == 256 * seqno + (if kind == Put then 1 else 0)
    ensures PackSequenceAndType(seqno, kind) < 0x1_0000_0000_0000_0000
    ensures PackSequenceAndType(seqno, kind) / 256 == seqno && PackSequenceAndType(seqno, kind) % 256 < 2
    ensures PackSequenceAndType(MAX_SEQUENCE, Put) + 255 == 0x1_0000_0000_0000_0000
  {
  }

  // The order of encoded internal keys: user key up, packed trailer down.
  predicate Before(a: InternalKey, b: InternalKey) {
    a.user < b.user
    || (a.user == b.user && PackSequenceAndType(a.seqno, a.kind) > PackSequenceAndType(b.seqno, b.kind))
  }

  predicate NotAfter(a: InternalKey, b: InternalKey) {
    !Before(b, a)
  }

  // Before is a strict total order.
  lemma BeforeIsTotal(a: InternalKey, b: InternalKey)
    ensures Before(a, b) || Before(b, a) || a == b
    ensures !(Before(a, b) && Before(b, a)) && (a == b ==> !Before(a, b))
  {
    if a.user == b.user && PackSequenceAndType(a.seqno, a.kind) == PackSequenceAndType(b.seqno, b.kind) {
      assert a.seqno == b.seqno;
    }
  }

  // The key a lookup seeks for.
  function SeekKey(key: UserKey, snapshot: SeqNo): InternalKey {
    InternalKey(key, snapshot, KIND_FOR_SEEK)
  }

  // What a seek separates: everything of a smaller key or of the same key above the
  // snapshot lies before the seek key, everything else does not.
  lemma SeekKeySeparates(a: InternalKey, key: UserKey, snapshot: SeqNo)
    ensures Before(a, SeekKey(key, snapshot)) <==> a.user < key || (a.user == key && a.seqno > snapshot)
  {
  }

  ghost predicate Sorted(s: seq<Entry>) {
    forall i, j :: 0 <= i < j < |s| ==> Before(s[i].ikey, s[j].ikey)
  }

  ghost function Elems<T(!new)>(s: seq<T>): (r: set<T>) {
    set x | x in s
  }

  lemma Regroup<T>(a: seq<T>, b: seq<T>, c: seq<T>)
    ensures a + b + c == a + (b + c)
  {
  }

  // ---- The simple meaning of a set of entries

  ghost predicate UniqueSeqs(E: set<Entry>) {
    forall a, b :: a in E && b in E && a.Key() == b.Key() && a.Seq() == b.Seq() ==> a == b
  }

  ghost predicate Candidate(E: set<Entry>, key: UserKey, snapshot: SeqNo, e: Entry) {
    e in E && e.Key() == key && e.Seq() <= snapshot
  }

  // e is the newest entry of key not above snapshot.
  ghost predicate IsNewest(E: set<Entry>, key: UserKey, snapshot: SeqNo, e: Entry) {
    Candidate(E, key, snapshot, e)
    && forall x :: Candidate(E, key, snapshot, x) ==> x.Seq() <= e.Seq()
  }

  ghost function Newest(E: set<Entry>, key: UserKey, snapshot: SeqNo): (r: Option<Entry>)
    ensures r.Some? ==> IsNewest(E, key, snapshot, r.value)
    ensures r.None? ==> forall x :: !Candidate(E, key, snapshot, x)
  {
    NewestExists(E, key, snapshot);
    if e :| IsNewest(E, key, snapshot, e) then Some(e) else None
  }

  function Seen(o: Option<Entry>): Option<Value> {
    if o.Some? && o.value.ikey.kind == Put then Some(o.value.value) else None
  }

  // What a reader at the snapshot sees for the key.
  ghost function Lookup(E: set<Entry>, key: UserKey, snapshot: SeqNo): Option<Value> {
    Seen(Newest(E, key, snapshot))
  }

  lemma {:induction false} NewestExists(E: set<Entry>, key: UserKey, snapshot: SeqNo)
    ensures (exists e :: IsNewest(E, key, snapshot, e)) || (forall x :: !Candidate(E, key, snapshot, x))
    decreases E
  {
    if x :| Candidate(E, key, snapshot, x) {
      var rest := E - {x};
      NewestExists(rest, key, snapshot);
      if y :| IsNewest(rest, key, snapshot, y) {
        var top := if x.Seq() > y.Seq() then x else y;
        assert IsNewest(E, key, snapshot, top) by {
          forall z | Candidate(E, key, snapshot, z) ensures z.Seq() <= top.Seq() {
            assert z != x ==> Candidate(rest, key, snapshot, z);
          }
        }
      } else {
        forall z | Candidate(E, key, snapshot, z) ensures z.Seq() <= x.Seq() {
          assert z != x ==> Candidate(rest, key, snapshot, z);
        }
        assert IsNewest(E, key, snapshot, x);
      }
    }
  }

  lemma NewestIs(E: set<Entry>, key: UserKey, snapshot: SeqNo, e: Entry)
    requires UniqueSeqs(E) && IsNewest(E, key, snapshot, e)
    ensures Newest(E, key, snapshot) == Some(e)
  {
    var r := Newest(E, key, snapshot);
    assert Candidate(E, key, snapshot, e);
    assert Candidate(E, key, snapshot, r.value);
  }

  // Search a newer layer first and fall through only when it has no candidate.
  lemma LayeredNewest(A: set<Entry>, B: set<Entry>, key: UserKey, snapshot: SeqNo)
    requires UniqueSeqs(A + B)
    requires forall a, b :: a in A && b in B && a.Key() == b.Key() && a.Key() == key ==> a.Seq() > b.Seq()
    ensures Newest(A + B, key, snapshot)
         == if Newest(A, key, snapshot).Some? then Newest(A, key, snapshot) else Newest(B, key, snapshot)
  {
    var a, b := Newest(A, key, snapshot), Newest(B, key, snapshot);
    var top := if a.Some? then a else b;
    if top.Some? {
      forall x | Candidate(A + B, key, snapshot, x) ensures x.Seq() <= top.value.Seq() {
        assert Candidate(A, key, snapshot, x) || Candidate(B, key, snapshot, x);
      }
      NewestIs(A + B, key, snapshot, top.value);
    } else {
      forall x ensures !Candidate(A + B, key, snapshot, x) {
        assert !Candidate(A, key, snapshot, x) && !Candidate(B, key, snapshot, x);
      }
    }
  }
}
