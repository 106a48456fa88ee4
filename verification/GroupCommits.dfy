/** Group commit over any interleaving of writer threads: every batch reaches the log and the
    memtable once and in queue order, under consecutive sequence numbers, and every writer is
    completed once and never sleeps through its turn. */
module GroupCommits {
  import opened InternalKeys
  import opened Coding
  import opened WriteBatches
  import opened WriteQueues

  // A leader's progress through its group.
  datatype Stage = Grouped | Logged | Flushed | Inserted

  // Where a queued writer's thread is.
  datatype Pc =
    // About to look whether it is at the front
    | Checking
    // Waiting on its condition variable
    | Asleep
    // Leading, in MakeRoomForWrite
    | Preparing
    | Committing(stage: Stage, n: nat, ops: seq<Op>, first: nat)

  datatype Record = Record(first: nat, ops: seq<Op>)

  // A writer off the queue, with its status and the one that completed it. Unless it led, its
  // thread is awake and has yet to return.
  datatype Finish = Finish(waiter: Waiter, ok: bool, leader: Waiter, returned: bool)

  // `pcs` runs beside `queue`; `durable` counts the log records covered by the last sync.
  datatype State = State(
    queue: seq<Waiter>, pcs: seq<Pc>, arrivals: seq<Waiter>, finished: seq<Finish>,
    log: seq<Record>, durable: nat, mem: seq<(nat, Op)>, base: nat, lastSequence: nat)

  datatype Step =
    | Arrive(waiter: Waiter)
    // A queued thread looks at the loop condition and leads or sleeps
    | Check(i: nat)
    // A completed thread returns its status
    | Return(k: nat)
    // The leader's MakeRoomForWrite fails
    | Fail
    // The leader's batch is null
    | Pass
    | Group(n: nat)
    | AddRecord
    | Sync
    | Insert
    | Complete

  ghost predicate Active(pc: Pc) { pc.Preparing? || pc.Committing? }

  ghost predicate Leads(s: State) {
    s.pcs != [] && s.queue != [] && s.pcs[0].Preparing?
  }

  ghost predicate At(s: State, stage: Stage) {
    s.pcs != [] && s.queue != [] && s.pcs[0].Committing? && s.pcs[0].stage == stage
  }

  ghost predicate Enabled(s: State, step: Step) {
    match step
    case Arrive(w) => ShortRequest(w.request)
    case Check(i) => i < |s.pcs| && s.pcs[i].Checking?
    case Return(k) => k < |s.finished| && !s.finished[k].returned
    case Fail => Leads(s)
    case Pass => Leads(s) && s.queue[0].request.batch.None?
    case Group(n) => Leads(s) && s.queue[0].request.batch.Some? && AllShortRequests(s.queue) && IsGroup(s.queue, n)
    case AddRecord => At(s, Grouped)
    case Sync => At(s, Logged)
    case Insert => At(s, Flushed)
    case Complete => At(s, Inserted)
  }

  ghost function Finishes(q: seq<Waiter>, ok: bool): (r: seq<Finish>)
    ensures |r| == |q| && forall i | 0 <= i < |q| :: r[i] == Finish(q[i], ok, q[0], i == 0)
  {
    seq(|q|, i requires 0 <= i < |q| => Finish(q[i], ok, q[0], i == 0))
  }

  function Woken(pc: Pc): Pc { if pc.Asleep? then Checking else pc }

  // The leader takes the first n writers off the queue as done, wakes the new front and returns.
  ghost function Popped(s: State, n: nat, ok: bool): State
    requires 1 <= n <= |s.queue| == |s.pcs|
  {
    s.(queue := s.queue[n..], finished := s.finished + Finishes(s.queue[..n], ok),
       pcs := if n < |s.pcs| then [Woken(s.pcs[n])] + s.pcs[n + 1..] else [])
  }

  // The loop at the end of DBImpl::Write, from the front through the last writer of the group
  method CompleteWriters(queue0: seq<Waiter>, finished0: seq<Finish>, last: nat, ok: bool)
      returns (queue: seq<Waiter>, finished: seq<Finish>)
    requires last < |queue0|
    ensures queue == queue0[last + 1..] && finished == finished0 + Finishes(queue0[..last + 1], ok)
  {
    queue, finished := queue0, finished0;
    var leader := queue0[0];
    ghost var all := Finishes(queue0[..last + 1], ok);
    var i := 0;
    while true
      invariant 0 <= i <= last && queue == queue0[i..] && finished == finished0 + all[..i]
      decreases last - i
    {
      var ready := queue[0];
      queue := queue[1..];
      finished := finished + [Finish(ready, ok, leader, i == 0)];
      assert all[..i] + [all[i]] == all[..i + 1];
      if i == last {
        break;
      }
      i := i + 1;
    }
    assert all[..last + 1] == all;
  }

  // What the bytes of a log record say: its sequence number and its operations, as many as it counts
  function Said(record: Bytes): Option<Record> {
    if |record| < BATCH_HEADER || !Delivered(record[BATCH_HEADER..]).1 then None
    else if DecodeFixed32(record[8..BATCH_HEADER]) != |Delivered(record[BATCH_HEADER..]).0| then None
    else Some(Record(DecodeFixed64(record[..8]), Delivered(record[BATCH_HEADER..]).0))
  }

  lemma GroupIsPart(q: seq<Waiter>, n: nat)
    requires n <= |q|
    ensures |GroupOps(q[..n])| <= |GroupOps(q)|
  {
    GroupOpsConcat(q[..n], q[n..]);
    assert q[..n] + q[n..] == q;
  }

  // What the leader does in DBImpl::Write once there is room: number the group, add it to the
  // log, insert it into the memtable. This is the work of the steps Group, AddRecord and Insert:
  // one record, one run of memtable entries, both from the first free sequence number on.
  method CommitGroup(writers: seq<Writer>, tmp: WriteBatch, mem0: seq<(nat, Op)>, lastSequence0: nat, ghost q: seq<Waiter>)
      returns (count: nat, record: Bytes, mem: seq<(nat, Op)>, lastSequence: nat)
    requires DescribesAll(writers, q) && q != [] && q[0].request.batch.Some? && AllShortRequests(q)
    requires tmp.Holds([]) && forall i | 0 <= i < |writers| :: writers[i].batch != tmp
    requires |GroupOps(q)| < WORD_LIMIT && lastSequence0 + 1 + |GroupOps(q)| < LONG_LIMIT
    modifies tmp, writers[0].batch
    ensures IsGroup(q, count) && tmp.Holds([])
    ensures var ops := GroupOps(q[..count]);
            && Said(record) == Some(Record(lastSequence0 + 1, ops))
            && mem == mem0 + Numbered(lastSequence0 + 1, ops)
            && lastSequence == lastSequence0 + |ops|
  {
    hide *;
    var updates;
    count, updates := BuildBatchGroup(writers, tmp, q);
    GroupIsFront(q, count);
    GroupIsPart(q, count);
    record, mem, lastSequence := CommitBatch(updates, mem0, lastSequence0, GroupOps(q[..count]));
    if updates == tmp {
      tmp.Clear();
    }
  }

  method CommitBatch(updates: WriteBatch, mem0: seq<(nat, Op)>, lastSequence0: nat, ghost ops: seq<Op>)
      returns (record: Bytes, mem: seq<(nat, Op)>, lastSequence: nat)
    requires updates.Holds(ops) && |ops| < WORD_LIMIT && lastSequence0 + 1 < LONG_LIMIT
    modifies updates
    ensures Said(record) == Some(Record(lastSequence0 + 1, ops))
    ensures mem == mem0 + Numbered(lastSequence0 + 1, ops) && lastSequence == lastSequence0 + |ops|
  {
    CountIs(updates, ops);
    updates.SetSequence(lastSequence0 + 1);
    CountIs(updates, ops);
    hide *;
    lastSequence := lastSequence0 + updates.Count();
    record := updates.rep;
    BatchSays(updates, ops);
    var ok;
    ok, mem := updates.InsertInto(mem0, ops);
  }

  lemma CountIs(b: WriteBatch, ops: seq<Op>)
    requires b.Holds(ops) && |ops| < WORD_LIMIT
    ensures |b.rep| >= BATCH_HEADER && b.Count() == |ops|
  {
  }

  lemma BatchSays(b: WriteBatch, ops: seq<Op>)
    requires b.Holds(ops) && |b.rep| >= BATCH_HEADER && |ops| < WORD_LIMIT
    ensures Said(b.rep) == Some(Record(b.Sequence(), ops))
  {
    WholeBatch(b.rep, ops);
    NotWrapped(|ops|);
  }

  function AtStage(s: State, stage: Stage): State
    requires s.pcs != [] && s.pcs[0].Committing?
  {
    s.(pcs := s.pcs[0 := s.pcs[0].(stage := stage)])
  }

  ghost function Next(s: State, step: Step): State
    requires QueueInv(s) && GroupInv(s) && Enabled(s, step)
  {
    match step
    case Arrive(w) => s.(queue := s.queue + [w], arrivals := s.arrivals + [w], pcs := s.pcs + [Checking])
    case Check(i) => s.(pcs := s.pcs[i := if i == 0 then Preparing else Asleep])
    case Return(k) => s.(finished := s.finished[k := s.finished[k].(returned := true)])
    case Fail => Popped(s, 1, false)
    case Pass => Popped(s, 1, true)
    case Group(n) => s.(pcs := s.pcs[0 := Committing(Grouped, n, GroupOps(s.queue[..n]), s.lastSequence + 1)])
    case AddRecord => AtStage(s, Logged).(log := s.log + [Record(s.pcs[0].first, s.pcs[0].ops)])
    case Sync => AtStage(s, Flushed).(durable := if s.queue[0].request.sync then |s.log| else s.durable)
    case Insert => AtStage(s, Inserted).(mem := s.mem + Numbered(s.pcs[0].first, s.pcs[0].ops))
    case Complete => Popped(s, s.pcs[0].n, true).(lastSequence := s.lastSequence + |s.pcs[0].ops|)
  }

  // ---- The invariant

  // What the completed writers have committed, in order.
  ghost function Committed(f: seq<Finish>): seq<Op> {
    if f == [] then [] else
    var last := f[|f| - 1];
    Committed(f[..|f| - 1]) + if last.ok then OpsOf(last.waiter.request) else []
  }

  ghost function LogOps(log: seq<Record>): seq<Op> {
    if log == [] then [] else LogOps(log[..|log| - 1]) + log[|log| - 1].ops
  }

  ghost function Waiters(f: seq<Finish>): (r: seq<Waiter>)
    ensures |r| == |f| && forall i | 0 <= i < |f| :: r[i] == f[i].waiter
  {
    seq(|f|, i requires 0 <= i < |f| => f[i].waiter)
  }

  // Only the front of the queue leads, and the front never sleeps.
  ghost predicate QueueInv(s: State) {
    && |s.pcs| == |s.queue| && AllShortRequests(s.queue)
    && s.arrivals == Waiters(s.finished) + s.queue
    && (forall i | 0 <= i < |s.pcs| :: Active(s.pcs[i]) ==> i == 0)
    && (s.pcs != [] ==> !s.pcs[0].Asleep?)
  }

  ghost function FrontPc(s: State): Pc {
    if s.pcs == [] then Checking else s.pcs[0]
  }

  ghost predicate GroupInv(s: State) {
    var pc := FrontPc(s);
    pc.Committing? ==>
      && 1 <= pc.n <= |s.queue| && pc.ops == GroupOps(s.queue[..pc.n]) && pc.first == s.lastSequence + 1
      && (forall i | 0 <= i < pc.n :: s.queue[i].request.sync ==> s.queue[0].request.sync)
      && (s.queue[0].request.sync && (pc.stage == Flushed || pc.stage == Inserted) ==> s.durable == |s.log|)
  }

  // What the leader has put into the log, and into the memtable, beyond the completed writes.
  ghost function InLog(pc: Pc): seq<Op> {
    if pc.Committing? && pc.stage != Grouped then pc.ops else []
  }

  ghost function InMem(pc: Pc): seq<Op> {
    if pc.Committing? && pc.stage == Inserted then pc.ops else []
  }

  ghost predicate LogRight(log: seq<Record>, base: nat) {
    forall i | 0 <= i < |log| :: log[i].first == base + 1 + |LogOps(log[..i])|
  }

  // The memtable's entries are these operations, numbered on from the first free number.
  ghost predicate MemIs(mem: seq<(nat, Op)>, base: nat, ops: seq<Op>) {
    mem == Numbered(base + 1, ops)
  }

  ghost predicate DataInv(s: State) {
    DataRight(s.log, s.mem, s.base, s.lastSequence, Committed(s.finished), InLog(FrontPc(s)), InMem(FrontPc(s)))
  }

  // Log and memtable hold what was committed, and what the leader has added to each.
  ghost predicate DataRight(log: seq<Record>, mem: seq<(nat, Op)>, base: nat, lastSequence: nat,
                            done: seq<Op>, inLog: seq<Op>, inMem: seq<Op>) {
    && LogOps(log) == done + inLog && MemIs(mem, base, done + inMem)
    && lastSequence == base + |done| && LogRight(log, base)
  }

  // A sync write was completed by a sync leader, and the sync covers it.
  ghost predicate SyncRight(f: seq<Finish>, k: nat, synced: nat)
    requires k < |f|
  {
    f[k].ok && f[k].waiter.request.sync ==>
      && f[k].leader.request.sync
      && (f[k].waiter.request.batch.Some? ==> |Committed(f[..k + 1])| <= synced)
  }

  ghost predicate SyncInv(s: State) {
    && s.durable <= |s.log|
    && forall k | 0 <= k < |s.finished| :: SyncRight(s.finished, k, |LogOps(s.log[..s.durable])|)
  }

  ghost predicate Inv(s: State) {
    QueueInv(s) && GroupInv(s) && DataInv(s) && SyncInv(s)
  }

  lemma {:induction false} LogOpsGrow(log: seq<Record>, a: nat, b: nat)
    requires a <= b <= |log|
    ensures |LogOps(log[..a])| <= |LogOps(log[..b])|
    decreases b
  {
    if a < b {
      LogOpsGrow(log, a, b - 1);
      assert log[..b][..b - 1] == log[..b - 1];
    }
  }

  lemma SameSyncs(s: State, t: State)
    requires SyncInv(s) && t.finished == s.finished && s.durable <= t.durable <= |t.log|
    requires |s.log| <= |t.log| && t.log[..|s.log|] == s.log
    ensures SyncInv(t)
  {
    LogOpsGrow(t.log, s.durable, t.durable);
    assert t.log[..s.durable] == s.log[..s.durable];
    hide LogOps;
    forall k | 0 <= k < |s.finished|
      ensures SyncRight(t.finished, k, |LogOps(t.log[..t.durable])|)
    {
      assert SyncRight(s.finished, k, |LogOps(s.log[..s.durable])|);
    }
  }

  // ---- Each step

  lemma ArriveKeepsInv(s: State, w: Waiter)
    requires Inv(s) && Enabled(s, Arrive(w))
    ensures Inv(Next(s, Arrive(w)))
  {
    var t := Next(s, Arrive(w));
    SyncsStay(s, t);
    ArrivesBehind(s, w);
    var pc := FrontPc(s);
    assert pc.Committing? ==> t.queue[..pc.n] == s.queue[..pc.n];
    hide GroupOps, Committed, LogOps, Numbered, MemIs, LogRight, SyncInv, QueueInv;
  }

  lemma SyncsStay(s: State, t: State)
    requires SyncInv(s) && t.finished == s.finished && t.durable == s.durable && t.log == s.log
    ensures SyncInv(t)
  {
  }

  lemma ArrivesBehind(s: State, w: Waiter)
    requires QueueInv(s) && ShortRequest(w.request)
    ensures QueueInv(s.(queue := s.queue + [w], arrivals := s.arrivals + [w], pcs := s.pcs + [Checking]))
  {
    Regroup(Waiters(s.finished), s.queue, [w]);
    hide ShortRequest;
  }

  lemma CheckKeepsInv(s: State, i: nat)
    requires Inv(s) && Enabled(s, Check(i))
    ensures Inv(Next(s, Check(i)))
  {
    var t := Next(s, Check(i));
    SyncsStay(s, t);
    hide GroupOps, Committed, LogOps, Numbered, MemIs, LogRight, SyncInv;
  }

  lemma {:induction false} SameCommitted(f: seq<Finish>, k: nat, j: nat)
    requires k < |f| && j <= |f|
    ensures Committed(f[k := f[k].(returned := true)][..j]) == Committed(f[..j])
    decreases j
  {
    if j > 0 {
      var g := f[k := f[k].(returned := true)];
      SameCommitted(f, k, j - 1);
      assert f[..j][..j - 1] == f[..j - 1] && g[..j][..j - 1] == g[..j - 1];
    }
  }

  lemma ReturnKeepsInv(s: State, k: nat)
    requires Inv(s) && Enabled(s, Return(k))
    ensures Inv(Next(s, Return(k)))
  {
    var f := s.finished;
    var t := Next(s, Return(k));
    SameCommitted(f, k, |f|);
    assert f[..|f|] == f && t.finished[..|f|] == t.finished;
    assert Waiters(t.finished) == Waiters(f);
    hide GroupOps, Committed, LogOps, Numbered, MemIs, LogRight, SyncRight;
    var synced := |LogOps(s.log[..s.durable])|;
    forall j | 0 <= j < |f|
      ensures SyncRight(t.finished, j, synced)
    {
      assert SyncRight(f, j, synced);
      ReturnedSync(f, k, j, synced);
    }
  }

  lemma ReturnedSync(f: seq<Finish>, k: nat, j: nat, synced: nat)
    requires k < |f| && j < |f| && SyncRight(f, j, synced)
    ensures SyncRight(f[k := f[k].(returned := true)], j, synced)
  {
    SameCommitted(f, k, j + 1);
  }

  lemma GroupKeepsInv(s: State, n: nat)
    requires Inv(s) && Enabled(s, Group(n))
    ensures Inv(Next(s, Group(n)))
  {
    var t := Next(s, Group(n));
    GroupSyncs(s.queue, n);
    GroupIsFront(s.queue, n);
    SyncsStay(s, t);
    LeadsOn(s, Committing(Grouped, n, GroupOps(s.queue[..n]), s.lastSequence + 1));
    hide GroupOps, Committed, LogOps, Numbered, MemIs, LogRight, SyncInv, IsGroup, QueueInv;
  }

  lemma LeadsOn(s: State, pc: Pc)
    requires QueueInv(s) && s.pcs != [] && Active(pc)
    ensures QueueInv(s.(pcs := s.pcs[0 := pc]))
  {
    hide ShortRequest;
  }

  lemma AddRecordKeepsLog(s: State)
    requires Inv(s) && Enabled(s, AddRecord)
    ensures var t := Next(s, AddRecord);
            LogOps(t.log) == LogOps(s.log) + s.pcs[0].ops && LogRight(t.log, t.base)
  {
    var t := Next(s, AddRecord);
    var n := |s.log|;
    assert t.log[..n] == s.log;
    assert LogOps(s.log) == Committed(s.finished) + [];
    hide GroupOps, Committed, LogOps, Numbered, MemIs, SyncInv, QueueInv;
    forall i | 0 <= i < |t.log|
      ensures t.log[i].first == t.base + 1 + |LogOps(t.log[..i])|
    {
      assert t.log[..i] == s.log[..i] && s.log[..n] == s.log;
    }
  }

  lemma Unpadded(before: seq<Op>, ops: seq<Op>, log: seq<Op>)
    requires log == before + []
    ensures log + ops == before + ops
  {
  }

  lemma AddRecordKeepsData(s: State, log: seq<Record>)
    requires DataInv(s) && At(s, Grouped)
    requires LogOps(log) == LogOps(s.log) + s.pcs[0].ops && LogRight(log, s.base)
    ensures DataInv(AtStage(s, Logged).(log := log))
  {
    Unpadded(Committed(s.finished), s.pcs[0].ops, LogOps(s.log));
    hide Committed, LogOps, Numbered, MemIs, LogRight;
  }

  lemma AddRecordKeepsInv(s: State)
    requires Inv(s) && Enabled(s, AddRecord)
    ensures Inv(Next(s, AddRecord))
  {
    var t := Next(s, AddRecord);
    assert t.log[..|s.log|] == s.log && |t.log| == |s.log| + 1;
    hide GroupOps, Committed, LogOps, Numbered, MemIs, LogRight, SyncInv, DataInv, QueueInv;
    SameSyncs(s, t);
    AddRecordKeepsLog(s);
    AddRecordKeepsData(s, t.log);
    StageKept(s, Logged);
    assert QueueInv(t) by {
      QueueOnly(AtStage(s, Logged), t);
    }
  }

  // A stage is a matter of the front alone.
  lemma StageKept(s: State, stage: Stage)
    requires QueueInv(s) && s.pcs != [] && s.pcs[0].Committing?
    ensures QueueInv(AtStage(s, stage))
  {
    LeadsOn(s, s.pcs[0].(stage := stage));
    hide QueueInv;
  }

  lemma QueueOnly(s: State, t: State)
    requires QueueInv(s) && t.queue == s.queue && t.pcs == s.pcs && t.arrivals == s.arrivals && t.finished == s.finished
    ensures QueueInv(t)
  {
  }

  lemma SyncKeepsInv(s: State)
    requires Inv(s) && Enabled(s, Sync)
    ensures Inv(Next(s, Sync))
  {
    var t := Next(s, Sync);
    assert t.log[..|s.log|] == s.log && s.durable <= |s.log|;
    hide GroupOps, Committed, LogOps, Numbered, MemIs, LogRight, SyncInv, QueueInv;
    SameSyncs(s, t);
    StageKept(s, Flushed);
    assert QueueInv(t) by {
      QueueOnly(AtStage(s, Flushed), t);
    }
  }

  lemma NumberedConcat(first: nat, a: seq<Op>, b: seq<Op>)
    ensures Numbered(first, a + b) == Numbered(first, a) + Numbered(first + |a|, b)
  {
  }

  lemma MemAfterInsert(base: nat, before: seq<Op>, ops: seq<Op>, mem: seq<(nat, Op)>)
    requires MemIs(mem, base, before + [])
    ensures MemIs(mem + Numbered(base + |before| + 1, ops), base, before + ops)
  {
    assert before + [] == before;
    NumberedConcat(base + 1, before, ops);
    hide Numbered;
  }

  lemma InsertKeepsData(s: State)
    requires DataInv(s) && At(s, Flushed) && s.pcs[0].first == s.lastSequence + 1
    ensures DataInv(AtStage(s, Inserted).(mem := s.mem + Numbered(s.pcs[0].first, s.pcs[0].ops)))
  {
    var before := Committed(s.finished);
    var ops := s.pcs[0].ops;
    hide Committed;
    assert InLog(FrontPc(s)) == ops && InMem(FrontPc(s)) == [];
    InsertedData(s.log, s.mem, s.base, s.lastSequence, before, ops);
    hide DataRight;
  }

  lemma InsertedData(log: seq<Record>, mem: seq<(nat, Op)>, base: nat, lastSequence: nat, done: seq<Op>, ops: seq<Op>)
    requires DataRight(log, mem, base, lastSequence, done, ops, [])
    ensures DataRight(log, mem + Numbered(lastSequence + 1, ops), base, lastSequence, done, ops, ops)
  {
    MemAfterInsert(base, done, ops, mem);
    hide LogOps, Numbered, MemIs, LogRight;
  }

  lemma InsertKeepsInv(s: State)
    requires Inv(s) && Enabled(s, Insert)
    ensures Inv(Next(s, Insert))
  {
    var t := Next(s, Insert);
    hide GroupOps, Committed, LogOps, Numbered, MemIs, LogRight, SyncInv, DataInv, QueueInv;
    SyncsStay(s, t);
    InsertKeepsData(s);
    StageKept(s, Inserted);
    assert QueueInv(t) by {
      QueueOnly(AtStage(s, Inserted), t);
    }
  }

  // ---- Completion

  lemma Snoc(f: seq<Finish>, x: Finish, q: seq<Waiter>, w: Waiter)
    ensures Committed(f + [x]) == Committed(f) + if x.ok then OpsOf(x.waiter.request) else []
    ensures GroupOps(q + [w]) == GroupOps(q) + OpsOf(w.request)
  {
    assert (f + [x])[..|f|] == f && (q + [w])[..|q|] == q;
  }

  lemma {:induction false} CommittedGroup(f: seq<Finish>, q: seq<Waiter>, g: seq<Finish>, ok: bool)
    requires |g| == |q| && forall i | 0 <= i < |q| :: g[i].waiter == q[i] && g[i].ok == ok
    ensures Committed(f + g) == Committed(f) + if ok then GroupOps(q) else []
    decreases |q|
  {
    if q == [] {
      assert f + g == f;
    } else {
      var n := |q| - 1;
      CommittedGroup(f, q[..n], g[..n], ok);
      Snoc(f + g[..n], g[n], q[..n], q[n]);
      LastOf(f, g);
      LastOf([], q);
      Regroup(Committed(f), GroupOps(q[..n]), OpsOf(q[n].request));
      hide *;
      assert [] + q[..n] == q[..n] && [] + q == q;
    }
  }

  lemma LastOf<T>(a: seq<T>, b: seq<T>)
    requires b != []
    ensures a + b[..|b| - 1] + [b[|b| - 1]] == a + b
  {
  }

  lemma {:induction false} CommittedGrows(f: seq<Finish>, a: nat, b: nat)
    requires a <= b <= |f|
    ensures |Committed(f[..a])| <= |Committed(f[..b])|
    decreases b
  {
    if a < b {
      CommittedGrows(f, a, b - 1);
      assert f[..b][..b - 1] == f[..b - 1];
    }
  }

  lemma PoppedQueue(s: State, n: nat, ok: bool)
    requires QueueInv(s) && 1 <= n <= |s.queue|
    ensures QueueInv(Popped(s, n, ok)) && !FrontPc(Popped(s, n, ok)).Committing?
  {
    var t := Popped(s, n, ok);
    assert Waiters(t.finished) + t.queue == s.arrivals by {
      assert s.queue == s.queue[..n] + s.queue[n..];
      assert Waiters(t.finished) == Waiters(s.finished) + s.queue[..n];
    }
  }

  lemma PoppedSyncs(s: State, n: nat, ok: bool)
    requires SyncInv(s) && 1 <= n <= |s.queue| == |s.pcs|
    requires ok ==>
               && (forall i | 0 <= i < n :: s.queue[i].request.sync ==> s.queue[0].request.sync)
               && (s.queue[0].request.sync ==>
                     s.durable == |s.log| && |Committed(Popped(s, n, ok).finished)| <= |LogOps(s.log)|)
    ensures SyncInv(Popped(s, n, ok))
  {
    var t := Popped(s, n, ok);
    var f := s.finished;
    assert s.log[..|s.log|] == s.log;
    assert t.finished[..|t.finished|] == t.finished;
    forall k | 0 <= k < |t.finished|
      ensures SyncRight(t.finished, k, |LogOps(t.log[..t.durable])|)
    {
      if k < |f| {
        assert t.finished[..k + 1] == f[..k + 1];
        assert SyncRight(f, k, |LogOps(s.log[..s.durable])|);
      } else {
        CommittedGrows(t.finished, k + 1, |t.finished|);
      }
    }
  }

  lemma AbandonKeepsInv(s: State)
    requires Inv(s) && Leads(s)
    ensures Inv(Popped(s, 1, false))
  {
    var t := Popped(s, 1, false);
    PoppedQueue(s, 1, false);
    PoppedSyncs(s, 1, false);
    CommittedGroup(s.finished, s.queue[..1], Finishes(s.queue[..1], false), false);
    assert Committed(s.finished) + [] == Committed(s.finished);
    hide GroupOps, Committed, LogOps, Numbered, MemIs, LogRight, SyncInv, QueueInv;
  }

  lemma PassCommits(s: State)
    requires QueueInv(s) && Enabled(s, Pass)
    ensures Committed(Popped(s, 1, true).finished) == Committed(s.finished)
  {
    var q := s.queue[..1];
    FirstGroup(s.queue);
    assert GroupOps(q) == [];
    hide GroupOps, Committed, QueueInv;
    CommittedGroup(s.finished, q, Finishes(q, true), true);
    assert Committed(s.finished) + [] == Committed(s.finished);
  }

  // A leader without a batch leaves log and memtable as they are.
  lemma PassedData(s: State)
    requires QueueInv(s) && DataInv(s) && Enabled(s, Pass)
    ensures DataInv(Popped(s, 1, true))
  {
    var t := Popped(s, 1, true);
    PassCommits(s);
    PoppedQueue(s, 1, true);
    hide DataRight, Committed, QueueInv;
    assert InLog(FrontPc(t)) == InLog(FrontPc(s)) == [] && InMem(FrontPc(t)) == InMem(FrontPc(s)) == [];
  }

  lemma PassKeepsInv(s: State)
    requires Inv(s) && Enabled(s, Pass)
    ensures Inv(Popped(s, 1, true))
  {
    PoppedQueue(s, 1, true);
    PassSyncs(s);
    PassedData(s);
    hide GroupOps, Committed, LogOps, Numbered, MemIs, LogRight, SyncInv, QueueInv, DataInv, SyncRight;
  }

  lemma PassSyncs(s: State)
    requires SyncInv(s) && Enabled(s, Pass) && QueueInv(s)
    ensures SyncInv(Popped(s, 1, true))
  {
    var t := Popped(s, 1, true);
    forall k | 0 <= k < |t.finished|
      ensures SyncRight(t.finished, k, |LogOps(t.log[..t.durable])|)
    {
      if k < |s.finished| {
        assert t.finished[..k + 1] == s.finished[..k + 1];
        assert SyncRight(s.finished, k, |LogOps(s.log[..s.durable])|);
      }
    }
  }

  lemma CompletedData(s: State)
    requires Inv(s) && Enabled(s, Complete)
    ensures var t := Next(s, Complete);
            DataInv(t) && LogOps(s.log) == Committed(t.finished)
  {
    var n := s.pcs[0].n;
    var q := s.queue[..n];
    var t := Next(s, Complete);
    CommittedGroup(s.finished, q, Finishes(q, true), true);
    PoppedQueue(s, n, true);
    hide GroupOps, Committed, LogOps, Numbered, MemIs, LogRight, SyncInv, QueueInv;
    assert Committed(t.finished) == Committed(s.finished) + s.pcs[0].ops;
    DataAtRest(t);
  }

  lemma DataAtRest(t: State)
    requires !FrontPc(t).Committing? && LogOps(t.log) == Committed(t.finished)
    requires MemIs(t.mem, t.base, Committed(t.finished)) && LogRight(t.log, t.base)
    requires t.lastSequence == t.base + |Committed(t.finished)|
    ensures DataInv(t)
  {
    hide Committed, LogOps, LogRight, Numbered, MemIs;
    assert Committed(t.finished) + [] == Committed(t.finished);
  }

  lemma CompleteKeepsInv(s: State)
    requires Inv(s) && Enabled(s, Complete)
    ensures Inv(Next(s, Complete))
  {
    var n := s.pcs[0].n;
    CompletedData(s);
    hide GroupOps, Committed, LogOps, Numbered, MemIs, LogRight, SyncInv, QueueInv, DataInv, SyncRight;
    PoppedQueue(s, n, true);
    PoppedSyncs(s, n, true);
    LastSequenceFree(Popped(s, n, true), s.lastSequence + |s.pcs[0].ops|);
  }

  lemma LastSequenceFree(s: State, last: nat)
    requires QueueInv(s) && SyncInv(s)
    ensures QueueInv(s.(lastSequence := last)) && SyncInv(s.(lastSequence := last))
  {
    assert forall k | 0 <= k < |s.finished| :: SyncRight(s.finished, k, |LogOps(s.log[..s.durable])|);
  }

  lemma StepKeepsInv(s: State, step: Step)
    requires Inv(s) && Enabled(s, step)
    ensures Inv(Next(s, step))
  {
    hide Inv, QueueInv, GroupInv, DataInv, SyncInv;
    match step
    case Arrive(w) => ArriveKeepsInv(s, w);
    case Check(i) => CheckKeepsInv(s, i);
    case Return(k) => ReturnKeepsInv(s, k);
    case Fail => AbandonKeepsInv(s);
    case Pass => PassKeepsInv(s);
    case Group(n) => GroupKeepsInv(s, n);
    case AddRecord => AddRecordKeepsInv(s);
    case Sync => SyncKeepsInv(s);
    case Insert => InsertKeepsInv(s);
    case Complete => CompleteKeepsInv(s);
  }

  // ---- Runs

  ghost predicate CanRun(s: State, steps: seq<Step>)
    requires Inv(s)
    decreases |steps|
  {
    steps != [] ==>
      && Enabled(s, steps[0])
      && (StepKeepsInv(s, steps[0]); CanRun(Next(s, steps[0]), steps[1..]))
  }

  ghost function Run(s: State, steps: seq<Step>): (r: State)
    requires Inv(s) && CanRun(s, steps)
    ensures Inv(r)
    decreases |steps|
  {
    if steps == [] then s else
    StepKeepsInv(s, steps[0]);
    Run(Next(s, steps[0]), steps[1..])
  }

  // An open database that continues after a sequence number.
  ghost function Fresh(base: nat): (s: State)
    ensures Inv(s)
  {
    State([], [], [], [], [], 0, [], base, base)
  }

  // In every reachable state: writers are completed once, in arrival order; their batches, and
  // at most the leading group's after them, make up the log and the memtable, each operation
  // once and in queue order, numbered from the first free sequence number without a gap.
  lemma EveryBatchOnceInOrder(base: nat, steps: seq<Step>)
    requires CanRun(Fresh(base), steps)
    ensures var s := Run(Fresh(base), steps);
            && s.arrivals == Waiters(s.finished) + s.queue
            && Committed(s.finished) <= LogOps(s.log)
            && LogOps(s.log) <= Committed(s.finished) + InLog(FrontPc(s))
            && (!FrontPc(s).Committing? ==>
                  && LogOps(s.log) == Committed(s.finished)
                  && MemIs(s.mem, base, Committed(s.finished))
                  && s.lastSequence == base + |s.mem|)
            && LogRight(s.log, base)
    decreases |steps|
  {
    var s := Run(Fresh(base), steps);
    BaseStays(Fresh(base), steps);
    assert Committed(s.finished) + [] == Committed(s.finished);
  }

  lemma StepKeepsBase(s: State, step: Step)
    requires QueueInv(s) && GroupInv(s) && Enabled(s, step)
    ensures Next(s, step).base == s.base
  {
    hide GroupOps, Numbered, Finishes;
  }

  lemma {:induction false} BaseStays(s: State, steps: seq<Step>)
    requires Inv(s) && CanRun(s, steps)
    ensures Run(s, steps).base == s.base
    decreases |steps|
  {
    if steps != [] {
      StepKeepsInv(s, steps[0]);
      StepKeepsBase(s, steps[0]);
      hide Inv, Next, Enabled;
      BaseStays(Next(s, steps[0]), steps[1..]);
    }
  }

  // Only the head of the queue runs the log phase, and whoever sleeps is behind a front that is
  // awake, so a later completion will wake it.
  lemma OnlyTheHeadLeads(base: nat, steps: seq<Step>, i: nat)
    requires CanRun(Fresh(base), steps) && i < |Run(Fresh(base), steps).queue|
    ensures var s := Run(Fresh(base), steps);
            && |s.pcs| == |s.queue|
            && (Active(s.pcs[i]) ==> i == 0)
            && (s.pcs[i].Asleep? ==> i > 0 && !s.pcs[0].Asleep?)
  {
  }

  // A sync write that succeeded was completed by a sync leader, and everything up to and
  // including its batch was in the log at the last sync.
  lemma SyncWritesAreDurable(base: nat, steps: seq<Step>, k: nat)
    requires CanRun(Fresh(base), steps) && k < |Run(Fresh(base), steps).finished|
    ensures var s := Run(Fresh(base), steps);
            var f := s.finished[k];
            f.ok && f.waiter.request.sync ==>
              && f.leader.request.sync && s.durable <= |s.log|
              && (f.waiter.request.batch.Some? ==> |Committed(s.finished[..k + 1])| <= |LogOps(s.log[..s.durable])|)
  {
    var s := Run(Fresh(base), steps);
    assert SyncRight(s.finished, k, |LogOps(s.log[..s.durable])|);
  }
}
