/** The database as a state machine over its atomic steps between mutex release points:
    group log writes, memtable switches, flushes, compactions, manifest commits, deletion of
    obsolete files, crashes and reopening. */
module Store {
  import opened InternalKeys
  import opened Versions
  import opened Picking
  import opened DropRule
  import opened Compactions
  import opened TreeUpdates
  import opened Flushes

  // ---- What survives a crash

  // The state a reader of the manifest reconstructs.
  datatype Manifest = Manifest(tree: Tree, logNumber: nat, nextFile: nat, lastSeq: SeqNo)

  datatype Disk = Disk(tables: map<nat, seq<Entry>>, logs: map<nat, seq<Entry>>, manifest: Manifest)

  // The entries of all logs not older than a number.
  ghost function LogEntries(logs: map<nat, seq<Entry>>, from: nat): set<Entry> {
    set n, e | n in logs && n >= from && e in logs[n] :: e
  }

  ghost function Durable(d: Disk): set<Entry> {
    TreeEntries(d.manifest.tree) + LogEntries(d.logs, d.manifest.logNumber)
  }

  // ---- What a crash loses

  datatype FlushRun = NoFlush | NothingToFlush | Built(file: File)

  datatype Job = Job(level: nat, in0: set<File>, in1: set<File>, smallestSnapshot: SeqNo, baseKeys: iset<UserKey>,
                     manual: bool, outs: set<File>)

  datatype CommitKind = FlushCommit | CompactionCommit | MoveCommit | OpenCommit

  // A LogAndApply between building the new version and installing it.
  datatype Commit = Commit(kind: CommitKind, target: Tree, logNumber: nat, nextFile: nat, lastSeq: SeqNo,
                           horizon: SeqNo, exposes: bool, written: bool)

  datatype Phase = Down | Opening | Up

  datatype State = State(
    disk: Disk,
    phase: Phase,
    mem: set<Entry>, imm: Option<set<Entry>>,
    logFile: nat,
    tree: Tree, logNumber: nat, lastSeq: SeqNo, nextFile: nat,
    inflight: seq<Entry>,
    snapshots: multiset<SeqNo>,
    pins: set<Tree>,
    flush: FlushRun, job: Option<Job>, commit: Option<Commit>, pending: set<nat>,
    // For the specification: every entry acknowledged or recovered so far; the largest
    // smallest_snapshot of a committed compaction; whether no compaction exposed a key.
    history: set<Entry>, horizon: SeqNo, clean: bool)
  {
    ghost function Imm(): set<Entry> { if imm.Some? then imm.value else {} }
    ghost function Inflight(): set<Entry> { Elems(inflight) }

    // Everything readable, and everything written so far.
    ghost function Contents(): set<Entry> { TreeEntries(tree) + Imm() + mem }
    ghost function Written(): set<Entry> { history + Inflight() }

    // A snapshot a reader may use now.
    ghost predicate Live(snapshot: SeqNo) { snapshot == lastSeq || snapshot in snapshots }
  }

  ghost predicate IsOldest(s: State, oldest: SeqNo) {
    if s.snapshots == multiset{} then oldest == s.lastSeq
    else oldest in s.snapshots && forall x :: x in s.snapshots ==> oldest <= x
  }

  // ---- Writes

  ghost predicate Numbered(batch: seq<Entry>, lastSeq: SeqNo) {
    lastSeq + |batch| < MAX_SEQUENCE && forall i :: 0 <= i < |batch| ==> batch[i].Seq() == lastSeq + 1 + i
  }

  // The writer at the head of the queue appends its group to the log.
  ghost predicate LogStep(s: State, s': State, batch: seq<Entry>) {
    && s.phase == Up && s.inflight == [] && batch != [] && Numbered(batch, s.lastSeq)
    && s.logFile in s.disk.logs
    && s' == s.(disk := s.disk.(logs := s.disk.logs[s.logFile := s.disk.logs[s.logFile] + batch]), inflight := batch)
  }

  // One entry of the group reaches the memtable.
  ghost predicate InsertStep(s: State, s': State, e: Entry) {
    && s.phase == Up && e in s.inflight
    && s' == s.(mem := s.mem + {e})
  }

  // The new last sequence is published and the group's writers return.
  ghost predicate AckStep(s: State, s': State) {
    && s.phase == Up && s.Inflight() <= s.mem && s.lastSeq + |s.inflight| < MAX_SEQUENCE
    && s' == s.(inflight := [], lastSeq := s.lastSeq + |s.inflight|, history := s.history + s.Inflight())
  }

  // MakeRoomForWrite opens a new log and freezes the memtable.
  ghost predicate SwitchStep(s: State, s': State) {
    && s.phase == Up && s.inflight == [] && s.imm.None? && |s.tree[0]| < L0_STOP_WRITES_TRIGGER
    && s' == s.(disk := s.disk.(logs := s.disk.logs[s.nextFile := []]),
                logFile := s.nextFile, nextFile := s.nextFile + 1, imm := Some(s.mem), mem := {})
  }

  // ---- Flushes

  ghost predicate BuildStep(s: State, s': State, f: File) {
    && s.phase == Up && s.imm.Some? && s.flush.NoFlush? && s.commit.None?
    && f.number == s.nextFile && Elems(f.entries) == s.imm.value
    && s' == s.(disk := s.disk.(tables := s.disk.tables[s.nextFile := f.entries]),
                nextFile := s.nextFile + 1, flush := Built(f))
  }

  ghost predicate BuildNothingStep(s: State, s': State) {
    && s.phase == Up && s.imm == Some({}) && s.flush.NoFlush? && s.commit.None?
    && s' == s.(flush := NothingToFlush)
  }

  // Place the table on the level chosen for it.
  ghost predicate PrepareFlushStep(s: State, s': State, level: nat) {
    && s.phase == Up && s.commit.None? && !s.flush.NoFlush?
    && (s.flush.Built? ==> MayPlace(s.tree, level, s.flush.file))
    && s' == s.(commit := Some(Commit(FlushCommit,
                  if s.flush.Built? && level < NUM_LEVELS then AddFile(s.tree, level, s.flush.file) else s.tree,
                  s.logFile, s.nextFile, s.lastSeq, 0, false, false)))
  }

  // ---- Compactions

  ghost predicate StartJobStep(s: State, s': State, job: Job) {
    && s.phase == Up && s.imm.None? && s.flush.NoFlush? && s.job.None? && s.commit.None?
    && WellChosen(s.tree, job.level, job.in0, job.in1)
    && (job.manual || GapFree(job.in0 + job.in1))
    && IsOldest(s, job.smallestSnapshot)
    && job.baseKeys == BaseKeys(s.tree, job.level) && job.outs == {}
    && s' == s.(job := Some(job))
  }

  ghost predicate ProduceStep(s: State, s': State, o: File) {
    && s.phase == Up && s.job.Some? && s.flush.NoFlush? && s.commit.None?
    && o.number == s.nextFile
    && s' == s.(disk := s.disk.(tables := s.disk.tables[s.nextFile := o.entries]),
                nextFile := s.nextFile + 1, pending := s.pending + {s.nextFile},
                job := Some(s.job.value.(outs := s.job.value.outs + {o})))
  }

  // What the merge keeps of the job's inputs.
  ghost function JobKept(job: Job): set<Entry> {
    KeptSet(FilesEntries(job.in0 + job.in1), job.smallestSnapshot, job.baseKeys)
  }

  ghost function Outside(s: State, job: Job): set<Entry>
    requires job.level + 1 < NUM_LEVELS
  {
    TreeEntries(Without(s.tree, job.level, job.in0, job.in1))
  }

  ghost predicate ExposesSome(s: State, job: Job)
    requires job.level + 1 < NUM_LEVELS
  {
    exists key: UserKey ::
      Exposed(Outside(s, job), FilesEntries(job.in0 + job.in1), key, job.smallestSnapshot, job.baseKeys)
  }

  ghost predicate PrepareCompactionStep(s: State, s': State) {
    && s.phase == Up && s.job.Some? && s.flush.NoFlush? && s.commit.None?
    && var job := s.job.value;
    && job.level + 1 < NUM_LEVELS
    && Disjoint(job.outs)
    && FilesEntries(job.outs) == JobKept(job)
    && s' == s.(commit := Some(Commit(CompactionCommit, Install(s.tree, job.level, job.in0, job.in1, job.outs),
                  s.logNumber, s.nextFile, s.lastSeq, job.smallestSnapshot, ExposesSome(s, job), false)))
  }

  ghost predicate PrepareMoveStep(s: State, s': State, level: nat, f: File) {
    && s.phase == Up && s.imm.None? && s.flush.NoFlush? && s.job.None? && s.commit.None?
    && WellChosen(s.tree, level, {f}, {})
    && s' == s.(commit := Some(Commit(MoveCommit, Install(s.tree, level, {f}, {}, {f}),
                  s.logNumber, s.nextFile, s.lastSeq, 0, false, false)))
  }

  // ---- Commits

  function Max(a: SeqNo, b: SeqNo): SeqNo { if a < b then b else a }

  // The edit reaches the manifest while the mutex is released.
  ghost predicate WriteManifestStep(s: State, s': State) {
    && s.phase != Down && s.commit.Some? && !s.commit.value.written
    && var c := s.commit.value;
    && s' == s.(disk := s.disk.(manifest := Manifest(c.target, c.logNumber, c.nextFile, c.lastSeq)),
                commit := Some(c.(written := true)),
                horizon := Max(s.horizon, c.horizon), clean := s.clean && !c.exposes)
  }

  // The version is installed in memory.
  ghost predicate InstallStep(s: State, s': State) {
    && s.phase != Down && s.commit.Some? && s.commit.value.written
    && var c := s.commit.value;
    && var t := s.(tree := c.target, logNumber := c.logNumber, commit := None);
    && s' == match c.kind
             case FlushCommit => t.(imm := None, flush := NoFlush)
             case CompactionCommit => t.(job := None, pending := {})
             case MoveCommit => t
             case OpenCommit => t.(phase := Up)
  }

  // ---- Obsolete files

  ghost function Numbers(t: Tree): set<nat> {
    set l, f | 0 <= l < NUM_LEVELS && f in t[l] :: f.number
  }

  // DeleteObsoleteFiles runs on the background thread, outside flushes and commits.
  ghost predicate DeleteTableStep(s: State, s': State, n: nat) {
    && s.phase == Up && s.flush.NoFlush? && s.commit.None?
    && n !in s.pending && n !in Numbers(s.tree) && (forall t :: t in s.pins ==> n !in Numbers(t))
    && s' == s.(disk := s.disk.(tables := s.disk.tables - {n}))
  }

  ghost predicate DeleteLogStep(s: State, s': State, n: nat) {
    && s.phase == Up && s.flush.NoFlush? && s.commit.None? && n < s.logNumber
    && s' == s.(disk := s.disk.(logs := s.disk.logs - {n}))
  }

  // ---- Readers

  ghost predicate SnapshotStep(s: State, s': State) {
    s.phase == Up && s' == s.(snapshots := s.snapshots + multiset{s.lastSeq})
  }

  ghost predicate ReleaseStep(s: State, s': State, snapshot: SeqNo) {
    s.phase == Up && s' == s.(snapshots := s.snapshots - multiset{snapshot})
  }

  ghost predicate PinStep(s: State, s': State) {
    s.phase == Up && s' == s.(pins := s.pins + {s.tree})
  }

  ghost predicate UnpinStep(s: State, s': State, t: Tree) {
    s.phase == Up && s' == s.(pins := s.pins - {t})
  }

  // ---- Crash and reopening

  // Only the disk survives; a group already in the log survives unacknowledged.
  ghost predicate CrashStep(s: State, s': State) {
    && s.phase != Down
    && s' == s.(phase := Down, mem := {}, imm := None, inflight := [], snapshots := multiset{}, pins := {},
                flush := NoFlush, job := None, commit := None, pending := {},
                history := s.history + s.Inflight())
  }

  // The replayed entries, cut into tables in log order.
  ghost predicate Replayed(parts: seq<File>, entries: set<Entry>) {
    && FilesEntries(Elems(parts)) == entries
    && (forall i, j, e, x :: 0 <= i < j < |parts| && e in parts[i].entries && x in parts[j].entries ==>
          e.Seq() < x.Seq())
    && (forall i, j :: 0 <= i < j < |parts| ==> parts[i].number < parts[j].number)
  }

  ghost function WithTables(tables: map<nat, seq<Entry>>, parts: seq<File>): map<nat, seq<Entry>> {
    if parts == [] then tables
    else WithTables(tables, parts[..|parts| - 1])[parts[|parts| - 1].number := parts[|parts| - 1].entries]
  }

  // The edit that records the recovered tables and makes the replayed logs obsolete.
  ghost function Reopened(s: State, parts: seq<File>, newLog: nat, lastSeq: SeqNo): State {
    var m := s.disk.manifest;
    s.(phase := Opening,
       disk := s.disk.(tables := WithTables(s.disk.tables, parts), logs := s.disk.logs[newLog := []]),
       mem := {}, imm := None, inflight := [], snapshots := multiset{}, pins := {},
       flush := NoFlush, job := None, pending := {},
       logFile := newLog, tree := m.tree, logNumber := m.logNumber,
       lastSeq := lastSeq, nextFile := newLog + 1,
       commit := Some(Commit(OpenCommit, m.tree[0 := m.tree[0] + Elems(parts)],
                             newLog, newLog + 1, lastSeq, 0, false, false)))
  }

  // What recovery computes: tables holding every entry of the logs still needed, a fresh log
  // number, and a last sequence number covering the manifest's and every replayed entry.
  ghost predicate Recovered(d: Disk, parts: seq<File>, newLog: nat, lastSeq: SeqNo) {
    var m := d.manifest;
    && Replayed(parts, LogEntries(d.logs, m.logNumber))
    && (forall i :: 0 <= i < |parts| ==> m.nextFile < parts[i].number < newLog)
    && m.nextFile < newLog && (forall n :: n in d.logs ==> n < newLog)
    && m.lastSeq <= lastSeq && (forall e :: e in LogEntries(d.logs, m.logNumber) ==> e.Seq() <= lastSeq)
    && (lastSeq == m.lastSeq || exists e :: e in LogEntries(d.logs, m.logNumber) && e.Seq() == lastSeq)
  }

  // Recovery: read the manifest, replay the logs it still needs into level-0 tables, open a
  // fresh log, and prepare the edit that records all this.
  ghost predicate OpenStep(s: State, s': State, parts: seq<File>, newLog: nat, lastSeq: SeqNo) {
    s.phase == Down && Recovered(s.disk, parts, newLog, lastSeq) && s' == Reopened(s, parts, newLog, lastSeq)
  }

  // ---- Runs

  datatype Step =
    | Log(batch: seq<Entry>) | Insert(e: Entry) | Ack | Switch
    | Build(f: File) | BuildNothing | PrepareFlush(level: nat)
    | StartJob(newJob: Job) | Produce(o: File) | PrepareCompaction | PrepareMove(from: nat, moved: File)
    | WriteManifest | InstallVersion
    | DeleteTable(table: nat) | DeleteLog(log: nat)
    | TakeSnapshot | ReleaseSnapshot(snapshot: SeqNo) | Pin | Unpin(version: Tree)
    | Crash | Open(parts: seq<File>, newLog: nat, openSeq: SeqNo)

  ghost predicate NextStep(s: State, s': State, step: Step) {
    match step
    case Log(batch) => LogStep(s, s', batch)
    case Insert(e) => InsertStep(s, s', e)
    case Ack => AckStep(s, s')
    case Switch => SwitchStep(s, s')
    case Build(f) => BuildStep(s, s', f)
    case BuildNothing => BuildNothingStep(s, s')
    case PrepareFlush(level) => PrepareFlushStep(s, s', level)
    case StartJob(job) => StartJobStep(s, s', job)
    case Produce(o) => ProduceStep(s, s', o)
    case PrepareCompaction => PrepareCompactionStep(s, s')
    case PrepareMove(level, f) => PrepareMoveStep(s, s', level, f)
    case WriteManifest => WriteManifestStep(s, s')
    case InstallVersion => InstallStep(s, s')
    case DeleteTable(n) => DeleteTableStep(s, s', n)
    case DeleteLog(n) => DeleteLogStep(s, s', n)
    case TakeSnapshot => SnapshotStep(s, s')
    case ReleaseSnapshot(x) => ReleaseStep(s, s', x)
    case Pin => PinStep(s, s')
    case Unpin(t) => UnpinStep(s, s', t)
    case Crash => CrashStep(s, s')
    case Open(parts, newLog, openSeq) => OpenStep(s, s', parts, newLog, openSeq)
  }

  // A new database: NewDB has written an empty manifest and nothing else exists.
  ghost predicate Init(s: State) {
    && s.phase == Down
    && s.disk == Disk(map[], map[], Manifest([{}, {}, {}, {}, {}, {}, {}], 0, 2, 0))
    && s.mem == {} && s.imm.None? && s.inflight == [] && s.history == {}
    && s.horizon == 0 && s.clean
  }

  ghost predicate IsRun(run: seq<State>, steps: seq<Step>) {
    && |run| == |steps| + 1 && Init(run[0])
    && forall i :: 0 <= i < |steps| ==> NextStep(run[i], run[i + 1], steps[i])
  }

  // ---- The two conditions the code does not establish

  // The flushed table does not separate entries that a running compaction keeps for the same
  // level. Inputs of a manual compaction may have the gap in which it would.
  ghost predicate SparesJob(s: State, step: Step) {
    step.PrepareFlush? && s.flush.Built? && s.job.Some? && step.level == s.job.value.level + 1 ==>
      !Splits(JobKept(s.job.value), s.flush.file)
  }

  // A compaction starts with lower inputs behind which its level holds nothing older.
  ghost predicate ClosesInputs(s: State, step: Step) {
    step.StartJob? && step.newJob.level + 1 < NUM_LEVELS ==>
      LeavesNoOlder(s.tree[step.newJob.level + 1], step.newJob.in1)
  }

  ghost predicate SafeRun(run: seq<State>, steps: seq<Step>) {
    IsRun(run, steps) && forall i :: 0 <= i < |steps| ==> SparesJob(run[i], steps[i])
  }

  ghost predicate ClosedRun(run: seq<State>, steps: seq<Step>) {
    SafeRun(run, steps) && forall i :: 0 <= i < |steps| ==> ClosesInputs(run[i], steps[i])
  }
}
