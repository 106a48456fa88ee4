/** The queue of writers: one thread at a time leads, commits a group of waiting batches, and
    wakes the rest. Each step is what a thread does between two releases of the mutex. */
module WriteQueues {
  import opened InternalKeys
  import opened Coding
  import opened WriteBatches

  // A null batch only asks for a memtable switch.
  datatype Request = Request(batch: Option<seq<Op>>, sync: bool)

  datatype Waiter = Waiter(id: nat, request: Request)

  // ---- What a group is

  ghost predicate ShortRequest(r: Request) {
    r.batch.Some? ==> AllShort(r.batch.value)
  }

  ghost predicate AllShortRequests(q: seq<Waiter>) {
    forall i | 0 <= i < |q| :: ShortRequest(q[i].request)
  }

  ghost function OpsOf(r: Request): seq<Op> {
    if r.batch.Some? then r.batch.value else []
  }

  ghost function GroupOps(q: seq<Waiter>): seq<Op> {
    if q == [] then [] else GroupOps(q[..|q| - 1]) + OpsOf(q[|q| - 1].request)
  }

  ghost function SizeOf(r: Request): nat
    requires ShortRequest(r)
  {
    if r.batch.Some? then 12 + |EncodeOps(r.batch.value)| else 0
  }

  ghost function GroupSize(q: seq<Waiter>): nat
    requires AllShortRequests(q)
  {
    if q == [] then 0 else GroupSize(q[..|q| - 1]) + SizeOf(q[|q| - 1].request)
  }

  const SMALL_WRITE := 131072
  const LARGEST_GROUP := 1048576

  function MaxSize(first: nat): nat {
    if first <= SMALL_WRITE then first + SMALL_WRITE else LARGEST_GROUP
  }

  // The waiter behind a group of i may join it: no sync write behind a leader that does not
  // sync, and no batch that makes the group too big.
  ghost predicate Joins(q: seq<Waiter>, i: nat)
    requires 0 < i < |q| && AllShortRequests(q)
  {
    && (q[i].request.sync ==> q[0].request.sync)
    && (q[i].request.batch.Some? ==>
          var first := SizeOf(q[0].request);
          GroupSize(q[..i + 1]) <= if first <= 131072 then first + 131072 else 1048576)
  }

  // The group takes everyone up to the first waiter that may not join.
  ghost predicate IsGroup(q: seq<Waiter>, n: nat)
    requires AllShortRequests(q)
  {
    && 1 <= n <= |q|
    && (forall i | 1 <= i < n :: Joins(q, i))
    && (n < |q| ==> !Joins(q, n))
  }

  lemma GroupSyncs(q: seq<Waiter>, n: nat)
    requires AllShortRequests(q) && IsGroup(q, n)
    ensures forall i | 0 <= i < n :: q[i].request.sync ==> q[0].request.sync
  {
    forall i | 0 <= i < n
      ensures q[i].request.sync ==> q[0].request.sync
    {
      if i > 0 {
        assert Joins(q, i);
      }
    }
  }

  lemma {:induction false} GroupOpsConcat(a: seq<Waiter>, b: seq<Waiter>)
    ensures GroupOps(a + b) == GroupOps(a) + GroupOps(b)
    decreases |b|
  {
    if b == [] {
      assert a + b == a;
    } else {
      assert (a + b)[..|a + b| - 1] == a + b[..|b| - 1];
      GroupOpsConcat(a, b[..|b| - 1]);
    }
  }

  // ---- BuildBatchGroup

  class Writer {
    const batch: WriteBatch?
    const sync: bool

    constructor (batch: WriteBatch?, sync: bool)
      ensures this.batch == batch && this.sync == sync
    {
      this.batch, this.sync := batch, sync;
    }
  }

  ghost predicate Describes(w: Writer, r: Request)
    reads w.batch
  {
    && w.sync == r.sync && (w.batch == null <==> r.batch.None?)
    && (w.batch != null ==> w.batch.Holds(r.batch.value))
  }

  ghost predicate DescribesAll(writers: seq<Writer>, q: seq<Waiter>)
    reads set w | w in writers :: w.batch
  {
    |writers| == |q| && forall i | 0 <= i < |q| :: Describes(writers[i], q[i].request)
  }

  // The batches of the writers stay as they are: with more than one batch the group is built in
  // the spare batch.
  method BuildBatchGroup(writers: seq<Writer>, tmp: WriteBatch, ghost q: seq<Waiter>)
      returns (count: nat, result: WriteBatch)
    requires DescribesAll(writers, q) && q != [] && q[0].request.batch.Some? && AllShortRequests(q)
    requires tmp.Holds([]) && forall i | 0 <= i < |writers| :: writers[i].batch != tmp
    modifies tmp
    ensures IsGroup(q, count)
    ensures result.Holds(GroupOps(q[..count]))
    ensures result == tmp || (result == writers[0].batch && tmp.Holds([]))
  {
    hide *;
    WriterAt(writers, q, 0);
    FirstGroup(q);
    var first := writers[0];
    result := first.batch;
    var size := |first.batch.rep|;
    var maxSize := MaxSize(size);
    count := 1;
    while count < |writers|
      invariant 1 <= count <= |writers| == |q| && DescribesAll(writers, q)
      invariant forall i | 1 <= i < count :: Joins(q, i)
      invariant AllShortRequests(q[..count]) && size == GroupSize(q[..count])
      invariant result.Holds(GroupOps(q[..count]))
      invariant result == tmp || (result == first.batch && tmp.Holds([]))
    {
      var w := writers[count];
      WriterAt(writers, q, count);
      GroupStep(q, count);
      JoinTest(q, count, size);
      if w.sync && !first.sync {
        break;
      }
      if w.batch != null {
        size := size + |w.batch.rep|;
        if size > maxSize {
          break;
        }
        result := ExtendGroup(result, writers, count, tmp, q);
      }
      count := count + 1;
    }
    GroupFound(q, count);
  }

  lemma GroupIsFront(q: seq<Waiter>, n: nat)
    requires AllShortRequests(q) && IsGroup(q, n)
    ensures 1 <= n <= |q|
  {
  }

  lemma GroupFound(q: seq<Waiter>, n: nat)
    requires AllShortRequests(q) && 1 <= n <= |q| && (forall i | 1 <= i < n :: Joins(q, i)) && (n < |q| ==> !Joins(q, n))
    ensures IsGroup(q, n)
  {
  }

  // The next waiter's batch joins the group. The first time, the leader's own batch is copied
  // rather than disturbed.
  method ExtendGroup(group: WriteBatch, writers: seq<Writer>, n: nat, tmp: WriteBatch, ghost q: seq<Waiter>)
      returns (result: WriteBatch)
    requires DescribesAll(writers, q) && 0 < n < |q| && AllShortRequests(q)
    requires q[0].request.batch.Some? && q[n].request.batch.Some?
    requires forall i | 0 <= i < |writers| :: writers[i].batch != tmp
    requires group.Holds(GroupOps(q[..n]))
    requires group == tmp || (group == writers[0].batch && tmp.Holds([]))
    modifies tmp
    ensures result == tmp && result.Holds(GroupOps(q[..n + 1])) && DescribesAll(writers, q)
  {
    GroupStep(q, n);
    assert Describes(writers[n], q[n].request);
    hide GroupOps, EncodeOps, AllShort, DecodeFixed32, WriteBatch.Holds, AllShortRequests;
    ghost var ops := GroupOps(q[..n]);
    result := group;
    if result == writers[0].batch {
      result := tmp;
      assert [] + ops == ops;
      result.Append(group, [], ops);
    }
    result.Append(writers[n].batch, ops, q[n].request.batch.value);
  }

  lemma WriterAt(writers: seq<Writer>, q: seq<Waiter>, i: nat)
    requires DescribesAll(writers, q) && i < |q| && AllShortRequests(q)
    ensures |writers| == |q| && writers[i].sync == q[i].request.sync
    ensures writers[i].batch == null <==> q[i].request.batch.None?
    ensures ShortRequest(q[i].request)
    ensures writers[i].batch != null ==>
              && |writers[i].batch.rep| == SizeOf(q[i].request)
              && writers[i].batch.Holds(OpsOf(q[i].request))
  {
    var w := writers[i];
    assert Describes(w, q[i].request);
    if w.batch != null {
      HeldSize(w.batch, q[i].request.batch.value);
    }
  }

  lemma HeldSize(b: WriteBatch, ops: seq<Op>)
    requires b.Holds(ops)
    ensures |b.rep| == BATCH_HEADER + |EncodeOps(ops)|
  {
    assert |b.rep[BATCH_HEADER..]| == |b.rep| - BATCH_HEADER;
  }

  lemma FirstGroup(q: seq<Waiter>)
    requires q != [] && AllShortRequests(q)
    ensures AllShortRequests(q[..1])
    ensures GroupSize(q[..1]) == SizeOf(q[0].request) && GroupOps(q[..1]) == OpsOf(q[0].request)
  {
    assert q[..1][..0] == [] && q[..1][0] == q[0];
  }

  lemma JoinTest(q: seq<Waiter>, n: nat, size: nat)
    requires 0 < n < |q| && AllShortRequests(q) && size == GroupSize(q[..n])
    ensures var (r, first) := (q[n].request, q[0].request);
            Joins(q, n) <==> && !(r.sync && !first.sync)
                             && (r.batch.Some? ==> size + SizeOf(r) <= MaxSize(SizeOf(first)))
  {
    GroupStep(q, n);
  }

  lemma GroupStep(q: seq<Waiter>, n: nat)
    requires n < |q| && AllShortRequests(q)
    ensures AllShortRequests(q[..n]) && AllShortRequests(q[..n + 1])
    ensures GroupSize(q[..n + 1]) == GroupSize(q[..n]) + SizeOf(q[n].request)
    ensures GroupOps(q[..n + 1]) == GroupOps(q[..n]) + OpsOf(q[n].request)
    ensures q[n].request.batch.None? ==>
              GroupOps(q[..n + 1]) == GroupOps(q[..n]) && GroupSize(q[..n + 1]) == GroupSize(q[..n])
  {
    assert q[..n + 1][..n] == q[..n] && q[..n + 1][n] == q[n];
  }
}
