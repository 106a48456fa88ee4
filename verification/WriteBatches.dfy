/** Write batches: the byte format, iteration over it, appending one batch to another, and
    insertion into a memtable under consecutive sequence numbers. */
module WriteBatches {
  import opened InternalKeys
  import opened Coding

  const BATCH_HEADER := 12
  const DELETION_TAG := 0
  const VALUE_TAG := 1

  datatype Op = PutOp(key: Bytes, value: Bytes) | DeleteOp(key: Bytes)

  ghost predicate Short(op: Op) {
    |op.key| < WORD_LIMIT && (op.PutOp? ==> |op.value| < WORD_LIMIT)
  }

  function EncodeOp(op: Op): (r: Bytes)
    requires Short(op)
    ensures r != []
  {
    match op
    case PutOp(key, value) => [VALUE_TAG] + Prefixed(key) + Prefixed(value)
    case DeleteOp(key) => [DELETION_TAG] + Prefixed(key)
  }

  // One byte for the kind of operation, then the key, and for a put the value, each behind its length
  lemma OpBytes(op: Op)
    requires Short(op)
    ensures op.DeleteOp? ==> EncodeOp(op) == [0] + (Varint(|op.key|) + op.key)
    ensures op.PutOp? ==>
              EncodeOp(op) == [1] + (Varint(|op.key|) + op.key) + (Varint(|op.value|) + op.value)
  {
  }

  ghost predicate AllShort(ops: seq<Op>) {
    forall i | 0 <= i < |ops| :: Short(ops[i])
  }

  function EncodeOps(ops: seq<Op>): Bytes
    requires AllShort(ops)
  {
    if ops == [] then [] else EncodeOp(ops[0]) + EncodeOps(ops[1..])
  }

  lemma {:induction false} EncodeConcat(a: seq<Op>, b: seq<Op>)
    requires AllShort(a) && AllShort(b)
    ensures EncodeOps(a + b) == EncodeOps(a) + EncodeOps(b)
  {
    if a == [] {
      assert a + b == b;
    } else {
      assert (a + b)[0] == a[0] && (a + b)[1..] == a[1..] + b;
      EncodeConcat(a[1..], b);
    }
  }

  // One record off the front.
  function TakeOp(b: Bytes): (r: Option<(Op, Bytes)>)
    ensures r.Some? ==> |r.value.1| < |b|
  {
    if b == [] then None
    else if b[0] == VALUE_TAG then
      var key := GetPrefixed(b[1..]);
      if key.None? then None else
      var value := GetPrefixed(key.value.1);
      if value.None? then None else Some((PutOp(key.value.0, value.value.0), value.value.1))
    else if b[0] == DELETION_TAG then
      var key := GetPrefixed(b[1..]);
      if key.None? then None else Some((DeleteOp(key.value.0), key.value.1))
    else None
  }

  lemma TakeOpRoundTrip(op: Op, rest: Bytes)
    requires Short(op)
    ensures TakeOp(EncodeOp(op) + rest) == Some((op, rest))
  {
    hide Prefixed, GetPrefixed;
    var b := EncodeOp(op) + rest;
    if op.PutOp? {
      assert b[1..] == Prefixed(op.key) + (Prefixed(op.value) + rest);
      PrefixedRoundTrip(op.key, Prefixed(op.value) + rest);
      PrefixedRoundTrip(op.value, rest);
    } else {
      assert b[1..] == Prefixed(op.key) + rest;
      PrefixedRoundTrip(op.key, rest);
    }
  }

  // The operations delivered before the end or the first malformed record.
  function Delivered(b: Bytes): (r: (seq<Op>, bool))
    decreases |b|
  {
    if b == [] then ([], true) else
    var t := TakeOp(b);
    if t.None? then ([], false) else
    var rest := Delivered(t.value.1);
    ([t.value.0] + rest.0, rest.1)
  }

  lemma {:induction false} DeliveredRoundTrip(ops: seq<Op>)
    requires AllShort(ops)
    ensures Delivered(EncodeOps(ops)) == (ops, true)
  {
    hide EncodeOp, TakeOp;
    if ops != [] {
      assert EncodeOps(ops) == EncodeOp(ops[0]) + EncodeOps(ops[1..]);
      TakeOpRoundTrip(ops[0], EncodeOps(ops[1..]));
      DeliveredRoundTrip(ops[1..]);
      assert [ops[0]] + ops[1..] == ops;
    }
  }

  // ---- Malformed batches

  // Whatever follows whole records is looked at after them.
  lemma {:induction false} DeliveredBefore(ops: seq<Op>, rest: Bytes)
    requires AllShort(ops)
    ensures Delivered(EncodeOps(ops) + rest) == (ops + Delivered(rest).0, Delivered(rest).1)
  {
    hide EncodeOp, TakeOp;
    if ops == [] {
      assert [] + rest == rest && [] + Delivered(rest).0 == Delivered(rest).0;
    } else {
      assert EncodeOps(ops) + rest == EncodeOp(ops[0]) + (EncodeOps(ops[1..]) + rest);
      TakeOpRoundTrip(ops[0], EncodeOps(ops[1..]) + rest);
      DeliveredBefore(ops[1..], rest);
      assert [ops[0]] + (ops[1..] + Delivered(rest).0) == ops + Delivered(rest).0;
    }
  }

  // A record of another kind ends the delivery with an error.
  lemma UnknownKind(ops: seq<Op>, rest: Bytes)
    requires AllShort(ops) && rest != [] && rest[0] > 1
    ensures Delivered(EncodeOps(ops) + rest) == (ops, false)
  {
    assert Delivered(rest) == ([], false) by {
      hide GetPrefixed;
    }
    hide *;
    DeliveredBefore(ops, rest);
    assert ops + [] == ops;
  }

  lemma CutOp(op: Op, k: nat)
    requires Short(op) && 0 < k < |EncodeOp(op)|
    ensures TakeOp(EncodeOp(op)[..k]).None?
  {
    hide Prefixed, GetPrefixed;
    var b := EncodeOp(op)[..k];
    var key := Prefixed(op.key);
    if k - 1 < |key| {
      assert b[1..] == key[..k - 1];
      CutPrefixed(op.key, k - 1);
    } else {
      assert b[1..] == key + Prefixed(op.value)[..k - 1 - |key|];
      PrefixedRoundTrip(op.key, Prefixed(op.value)[..k - 1 - |key|]);
      CutPrefixed(op.value, k - 1 - |key|);
    }
  }

  // Cut anywhere, a batch delivers the records that lie wholly before the cut; it is an error
  // unless the cut lies between two records.
  lemma {:induction false} CutBatch(ops: seq<Op>, n: nat) returns (m: nat)
    requires AllShort(ops) && n <= |EncodeOps(ops)|
    ensures m <= |ops| && |EncodeOps(ops[..m])| <= n && (m < |ops| ==> n < |EncodeOps(ops[..m + 1])|)
    ensures Delivered(EncodeOps(ops)[..n]) == (ops[..m], n == |EncodeOps(ops[..m])|)
  {
    hide EncodeOp, TakeOp;
    if ops == [] {
      return 0;
    }
    var (head, tail) := (EncodeOp(ops[0]), EncodeOps(ops[1..]));
    assert EncodeOps(ops) == head + tail;
    if n < |head| {
      assert EncodeOps(ops)[..n] == head[..n] && ops[..1] == [ops[0]] && ops[..0] == [];
      OneOp(ops[0]);
      if n > 0 {
        CutOp(ops[0], n);
      }
      return 0;
    }
    assert EncodeOps(ops)[..n] == head + tail[..n - |head|];
    TakeOpRoundTrip(ops[0], tail[..n - |head|]);
    var k := CutBatch(ops[1..], n - |head|);
    PrefixOps(ops, k);
    if k < |ops| - 1 {
      PrefixOps(ops, k + 1);
    }
    assert [ops[0]] + ops[1..][..k] == ops[..k + 1];
    return k + 1;
  }

  lemma PrefixOps(ops: seq<Op>, k: nat)
    requires AllShort(ops) && k < |ops|
    ensures EncodeOps(ops[..k + 1]) == EncodeOp(ops[0]) + EncodeOps(ops[1..][..k])
  {
    hide EncodeOp;
    assert ops[..k + 1][0] == ops[0] && ops[..k + 1][1..] == ops[1..][..k];
  }

  lemma DeliveredStep(b: Bytes, calls: seq<Op>)
    requires b != []
    ensures var t := TakeOp(b);
            && Delivered(b).1 == (t.Some? && Delivered(t.value.1).1)
            && calls + Delivered(b).0
               == if t.None? then calls else calls + [t.value.0] + Delivered(t.value.1).0
  {
    hide TakeOp;
    var t := TakeOp(b);
    if t.Some? {
      assert calls + ([t.value.0] + Delivered(t.value.1).0) == calls + [t.value.0] + Delivered(t.value.1).0;
    } else {
      assert calls + [] == calls;
    }
  }

  lemma NumberedStep(mem: seq<(nat, Op)>, first: nat, ops: seq<Op>, i: nat)
    requires i < |ops|
    ensures mem + Numbered(first, ops[..i]) + [(first + i, ops[i])] == mem + Numbered(first, ops[..i + 1])
  {
  }

  // Consecutive sequence numbers from the first one on.
  function Numbered(first: nat, ops: seq<Op>): (r: seq<(nat, Op)>)
    ensures |r| == |ops| && forall i | 0 <= i < |ops| :: r[i] == (first + i, ops[i])
  {
    seq(|ops|, i requires 0 <= i < |ops| => (first + i, ops[i]))
  }

  class WriteBatch {
    var rep: Bytes

    // The batch holds these operations; its count is kept modulo 2^32.
    ghost predicate Holds(ops: seq<Op>)
      reads this
    {
      && AllShort(ops) && |rep| >= BATCH_HEADER
      && DecodeFixed32(rep[8..BATCH_HEADER]) == |ops| % WORD_LIMIT
      && rep[BATCH_HEADER..] == EncodeOps(ops)
    }

    constructor ()
      ensures Holds([])
    {
      rep := seq(BATCH_HEADER, _ => 0);
      new;
      NoOps(rep);
    }

    method Clear()
      modifies this
      ensures Holds([])
    {
      rep := seq(BATCH_HEADER, _ => 0);
      NoOps(rep);
    }

    function Count(): (n: nat)
      requires |rep| >= BATCH_HEADER
      reads this
    {
      DecodeFixed32(rep[8..BATCH_HEADER])
    }

    function Sequence(): nat
      requires |rep| >= BATCH_HEADER
      reads this
    {
      DecodeFixed64(rep[..8])
    }

    method SetCount(n: nat)
      requires |rep| >= BATCH_HEADER
      modifies this
      ensures |rep| == |old(rep)| && rep[..8] == old(rep)[..8] && rep[BATCH_HEADER..] == old(rep)[BATCH_HEADER..]
      ensures Count() == n % WORD_LIMIT
    {
      Fixed32RoundTrip(n % WORD_LIMIT);
      rep := rep[..8] + Fixed32(n % WORD_LIMIT) + rep[BATCH_HEADER..];
      assert rep[8..BATCH_HEADER] == Fixed32(n % WORD_LIMIT);
    }

    method SetSequence(first: Long)
      requires |rep| >= BATCH_HEADER
      modifies this
      ensures |rep| == |old(rep)| && rep[8..] == old(rep)[8..] && Sequence() == first
      ensures forall ops | old(Holds(ops)) :: Holds(ops)
    {
      Fixed64RoundTrip(first);
      rep := Fixed64(first) + rep[8..];
      assert rep[..8] == Fixed64(first) && rep[8..] == old(rep)[8..];
      assert rep[BATCH_HEADER..] == rep[8..][4..] && rep[8..BATCH_HEADER] == rep[8..][..4];
      assert old(rep)[BATCH_HEADER..] == old(rep)[8..][4..] && old(rep)[8..BATCH_HEADER] == old(rep)[8..][..4];
    }

    method Put(key: Bytes, value: Bytes, ghost ops: seq<Op>)
      requires Holds(ops) && Short(PutOp(key, value))
      modifies this
      ensures Holds(ops + [PutOp(key, value)])
    {
      hide Fixed32, DecodeFixed32, Prefixed, EncodeOps, AllShort;
      SetCount(Count() + 1);
      ghost var grown := rep;
      rep := rep + [VALUE_TAG];
      rep := rep + Prefixed(key);
      rep := rep + Prefixed(value);
      OneOp(PutOp(key, value));
      assert rep == grown + EncodeOp(PutOp(key, value));
      Grown(rep, grown, old(rep), ops, [PutOp(key, value)]);
    }

    method Delete(key: Bytes, ghost ops: seq<Op>)
      requires Holds(ops) && Short(DeleteOp(key))
      modifies this
      ensures Holds(ops + [DeleteOp(key)])
    {
      hide Fixed32, DecodeFixed32, Prefixed, EncodeOps, AllShort;
      SetCount(Count() + 1);
      ghost var grown := rep;
      rep := rep + [DELETION_TAG];
      rep := rep + Prefixed(key);
      OneOp(DeleteOp(key));
      assert rep == grown + EncodeOp(DeleteOp(key));
      Grown(rep, grown, old(rep), ops, [DeleteOp(key)]);
    }

    // WriteBatchInternal::Append
    method Append(source: WriteBatch, ghost ops: seq<Op>, ghost more: seq<Op>)
      requires source != this && Holds(ops) && source.Holds(more)
      modifies this
      ensures Holds(ops + more)
    {
      hide Fixed32, DecodeFixed32, EncodeOps, AllShort;
      SetCount(Count() + source.Count());
      ghost var grown := rep;
      rep := rep + source.rep[BATCH_HEADER..];
      Grown(rep, grown, old(rep), ops, more);
    }

    // WriteBatch::Iterate, with the handler's calls as the result.
    method Iterate() returns (ok: bool, calls: seq<Op>)
      ensures |rep| < BATCH_HEADER ==> !ok && calls == []
      ensures |rep| >= BATCH_HEADER ==> calls == Delivered(rep[BATCH_HEADER..]).0
      ensures |rep| >= BATCH_HEADER ==> ok == (Delivered(rep[BATCH_HEADER..]).1 && |calls| == Count())
    {
      calls := [];
      if |rep| < BATCH_HEADER {
        return false, [];
      }
      var input := rep[BATCH_HEADER..];
      var found := 0;
      assert calls + Delivered(input).0 == Delivered(input).0;
      hide GetPrefixed, Delivered;
      while input != []
        invariant found == |calls|
        invariant Delivered(rep[BATCH_HEADER..]).0 == calls + Delivered(input).0
        invariant Delivered(rep[BATCH_HEADER..]).1 == Delivered(input).1
        decreases |input|
      {
        found := found + 1;
        var tag := input[0];
        DeliveredStep(input, calls);
        if tag == VALUE_TAG {
          var key := GetPrefixed(input[1..]);
          if key.None? {
            return false, calls;
          }
          var value := GetPrefixed(key.value.1);
          if value.None? {
            return false, calls;
          }
          calls := calls + [PutOp(key.value.0, value.value.0)];
          input := value.value.1;
        } else if tag == DELETION_TAG {
          var key := GetPrefixed(input[1..]);
          if key.None? {
            return false, calls;
          }
          calls := calls + [DeleteOp(key.value.0)];
          input := key.value.1;
        } else {
          return false, calls;
        }
      }
      ok := found == Count();
    }

    // WriteBatchInternal::InsertInto: one memtable entry per operation, numbered on from the
    // batch's sequence number.
    method InsertInto(mem: seq<(nat, Op)>, ghost ops: seq<Op>) returns (ok: bool, mem': seq<(nat, Op)>)
      requires Holds(ops) && |ops| < WORD_LIMIT
      ensures ok && mem' == mem + Numbered(Sequence(), ops)
    {
      WholeBatch(rep, ops);
      NotWrapped(|ops|);
      hide *;
      var calls;
      ok, calls := Iterate();
      mem' := AddAll(mem, Sequence(), calls);
    }
  }

  lemma NoOps(rep: Bytes)
    requires rep == seq(BATCH_HEADER, _ => 0)
    ensures AllShort([]) && DecodeFixed32(rep[8..BATCH_HEADER]) == 0 && rep[BATCH_HEADER..] == EncodeOps([])
  {
    assert rep[8..BATCH_HEADER] == [0, 0, 0, 0];
  }

  // Eight bytes of sequence number, four of count, and the operations one after the other
  lemma BatchBytes(batch: WriteBatch, ops: seq<Op>)
    requires batch.Holds(ops)
    ensures |batch.rep| >= 12
    ensures LittleEndian(batch.rep[..8]) == batch.Sequence()
    ensures LittleEndian(batch.rep[8..12]) == |ops| % 0x1_0000_0000
    ensures batch.rep[12..] == EncodeOps(ops)
  {
    FourBytes(batch.rep[8..12]);
    EightBytes(batch.rep[..8]);
  }

  lemma WholeBatch(rep: Bytes, ops: seq<Op>)
    requires AllShort(ops) && |rep| >= BATCH_HEADER && rep[BATCH_HEADER..] == EncodeOps(ops)
    ensures Delivered(rep[BATCH_HEADER..]) == (ops, true)
  {
    DeliveredRoundTrip(ops);
  }

  lemma NotWrapped(n: nat)
    requires n < WORD_LIMIT
    ensures n % WORD_LIMIT == n
  {
  }

  // The memtable inserter's calls.
  method AddAll(mem: seq<(nat, Op)>, first: nat, calls: seq<Op>) returns (mem': seq<(nat, Op)>)
    ensures mem' == mem + Numbered(first, calls)
  {
    mem' := mem;
    var sequence := first;
    var i := 0;
    while i < |calls|
      invariant 0 <= i <= |calls| && sequence == first + i
      invariant mem' == mem + Numbered(first, calls[..i])
    {
      NumberedStep(mem, first, calls, i);
      mem' := mem' + [(sequence, calls[i])];
      sequence := sequence + 1;
      i := i + 1;
    }
    assert calls[..i] == calls;
  }

  lemma OneOp(op: Op)
    requires Short(op)
    ensures AllShort([op]) && EncodeOps([op]) == EncodeOp(op)
  {
    var ops := [op];
    assert ops[1..] == [];
  }

  lemma TailOfAppend(a: Bytes, b: Bytes)
    requires |a| >= BATCH_HEADER
    ensures (a + b)[BATCH_HEADER..] == a[BATCH_HEADER..] + b
    ensures (a + b)[8..BATCH_HEADER] == a[8..BATCH_HEADER]
  {
  }

  lemma Grown(now: Bytes, grown: Bytes, was: Bytes, ops: seq<Op>, more: seq<Op>)
    requires AllShort(ops) && AllShort(more) && |grown| == |was| >= BATCH_HEADER
    requires grown[BATCH_HEADER..] == was[BATCH_HEADER..] == EncodeOps(ops) && now == grown + EncodeOps(more)
    ensures AllShort(ops + more) && now[BATCH_HEADER..] == EncodeOps(ops + more)
    ensures now[8..BATCH_HEADER] == grown[8..BATCH_HEADER]
  {
    EncodeConcat(ops, more);
    TailOfAppend(grown, EncodeOps(more));
  }
}
