/** What every reachable state of the database satisfies. */
module StoreInvariant {
  import opened InternalKeys
  import opened Versions
  import opened Picking
  import opened DropRule
  import opened Compactions
  import opened Flushes
  import opened Store

  ghost predicate SeqBelow(A: set<Entry>, B: set<Entry>) {
    forall a, b :: a in A && b in B ==> a.Seq() < b.Seq()
  }

  ghost predicate AtMost(A: set<Entry>, bound: SeqNo) {
    forall a :: a in A ==> a.Seq() <= bound
  }

  ghost predicate FileStored(tables: map<nat, seq<Entry>>, f: File, limit: nat) {
    f.number in tables && tables[f.number] == f.entries && f.number < limit
  }

  // The tables of a version are on disk with their contents.
  ghost predicate TreeStored(tables: map<nat, seq<Entry>>, t: Tree, limit: nat) {
    forall l, f :: 0 <= l < NUM_LEVELS && f in t[l] ==> FileStored(tables, f, limit)
  }

  // ---- The disk alone: what a crash at this moment would leave

  ghost predicate DiskFiles(d: Disk) {
    && TreeInv(d.manifest.tree)
    && TreeStored(d.tables, d.manifest.tree, d.manifest.nextFile)
    && d.manifest.logNumber < d.manifest.nextFile
  }

  ghost predicate DiskContents(d: Disk, written: set<Entry>, horizon: SeqNo, clean: bool) {
    var logged := LogEntries(d.logs, d.manifest.logNumber);
    && UniqueSeqs(written) && Durable(d) <= written
    && d.manifest.lastSeq < MAX_SEQUENCE && (forall e :: e in written ==> e.Seq() < MAX_SEQUENCE)
    && SeqBelow(TreeEntries(d.manifest.tree), logged)
    // A reopened database numbers new writes above everything written before.
    && (forall e :: e in written && e !in logged ==> e.Seq() <= d.manifest.lastSeq)
    && (clean ==> ReadsSame(Durable(d), written, horizon))
    && horizon <= d.manifest.lastSeq
  }

  // Every later log entry, in the same or a later log, has a larger sequence number.
  // (Kept by every step as well; see StoreTheorems.)
  ghost predicate LogOrder(logs: map<nat, seq<Entry>>) {
    forall n, m, i, j | n in logs && m in logs && 0 <= i < |logs[n]| && 0 <= j < |logs[m]|
                        && (n < m || (n == m && i < j)) :: logs[n][i].Seq() < logs[m][j].Seq()
  }

  ghost predicate DiskLogs(d: Disk, written: set<Entry>) {
    LogOrder(d.logs) && LogEntries(d.logs, 0) <= written
  }

  ghost predicate DiskInv(s: State) {
    DiskFiles(s.disk) && DiskContents(s.disk, s.Written(), s.horizon, s.clean)
  }

  // ---- The running database

  ghost predicate FilesInv(s: State) {
    && TreeInv(s.tree) && TreeStored(s.disk.tables, s.tree, s.nextFile)
    && s.disk.manifest.nextFile <= s.nextFile
    && forall t :: t in s.pins ==> TreeStored(s.disk.tables, t, s.nextFile)
  }

  // The current log holds the memtable and the group being written; with the older logs not
  // yet superseded it holds everything that is not in a table.
  ghost predicate LogsInv(s: State) {
    && s.logFile in s.disk.logs && (forall n :: n in s.disk.logs ==> n <= s.logFile)
    && s.logNumber <= s.logFile < s.nextFile
    && LogEntries(s.disk.logs, s.logFile) == s.mem + s.Inflight()
    && LogEntries(s.disk.logs, s.logNumber) == s.Imm() + (s.mem + s.Inflight())
  }

  // Tables are older than the frozen memtable, which is older than the memtable.
  ghost predicate OrderInv(s: State) {
    && SeqBelow(TreeEntries(s.tree), s.Imm() + (s.mem + s.Inflight()))
    && SeqBelow(s.Imm(), s.mem + s.Inflight())
    && AtMost(s.history, s.lastSeq) && AtMost(s.Imm(), s.lastSeq)
    && Numbered(s.inflight, s.lastSeq)
    && s.Contents() <= s.Written()
  }

  ghost predicate ReadsInv(s: State) {
    && (s.clean ==> ReadsSame(s.Contents() + s.Inflight(), s.Written(), s.horizon))
    && s.horizon <= s.lastSeq && s.disk.manifest.lastSeq <= s.lastSeq
    && forall x :: x in s.snapshots ==> s.horizon <= x <= s.lastSeq
  }

  ghost predicate ManifestInv(s: State) {
    var m := s.disk.manifest;
    if s.commit.Some? && s.commit.value.written then
      m.tree == s.commit.value.target && m.logNumber == s.commit.value.logNumber
    else
      m.tree == s.tree && m.logNumber == s.logNumber
  }

  ghost predicate FlushInv(s: State) {
    match s.flush
    case NoFlush => true
    case NothingToFlush => s.imm == Some({})
    case Built(f) =>
      && s.imm == Some(Elems(f.entries)) && FileStored(s.disk.tables, f, s.nextFile)
      && forall g :: g in s.tree[0] ==> g.number < f.number
  }

  ghost predicate JobFits(t: Tree, job: Job) {
    StillFits(t, job.level, job.in0, job.in1, JobKept(job), job.baseKeys)
  }

  ghost predicate JobInv(s: State) {
    s.job.Some? ==>
      var job := s.job.value;
      && JobFits(s.tree, job)
      && (job.manual || GapFree(job.in0 + job.in1))
      && job.smallestSnapshot <= s.lastSeq && (forall x :: x in s.snapshots ==> job.smallestSnapshot <= x)
      && (forall o :: o in job.outs ==> FileStored(s.disk.tables, o, s.nextFile) && o.number in s.pending)
  }

  // The version being committed, whatever the kind of commit.
  ghost predicate CommitInv(s: State) {
    s.commit.Some? ==>
      var c := s.commit.value;
      && TreeInv(c.target) && TreeStored(s.disk.tables, c.target, c.nextFile)
      && c.logNumber < c.nextFile <= s.nextFile
      && s.disk.manifest.lastSeq <= c.lastSeq <= s.lastSeq
      && c.horizon <= c.lastSeq && c.horizon <= s.lastSeq
      && (forall x :: x in s.snapshots ==> c.horizon <= x)
      && (c.written ==> c.horizon <= s.horizon)
      && CommitKindInv(s, c)
  }

  ghost predicate CommitKindInv(s: State, c: Commit) {
    match c.kind
    case FlushCommit =>
      && s.imm.Some? && !s.flush.NoFlush? && c.logNumber == s.logFile && !c.exposes
      && TreeEntries(c.target) == TreeEntries(s.tree) + s.Imm()
      && AtMost(s.Imm(), c.lastSeq)
      && (s.job.Some? ==> JobFits(c.target, s.job.value))
    case CompactionCommit =>
      && s.job.Some? && s.flush.NoFlush? && c.logNumber == s.logNumber
      && TreeEntries(c.target) <= TreeEntries(s.tree)
      && (!c.exposes ==> ReadsSame(TreeEntries(c.target), TreeEntries(s.tree), c.horizon))
      && (c.written && s.clean ==> !c.exposes)
    case MoveCommit =>
      && s.job.None? && s.flush.NoFlush? && c.logNumber == s.logNumber && !c.exposes
      && TreeEntries(c.target) == TreeEntries(s.tree)
    case OpenCommit => false
  }

  ghost predicate UpInv(s: State) {
    && FilesInv(s) && LogsInv(s) && OrderInv(s) && ReadsInv(s)
    && ManifestInv(s) && FlushInv(s) && JobInv(s) && CommitInv(s)
  }

  // ---- A database being opened: nobody writes, and the edit holds all that was recovered

  ghost predicate OpeningInv(s: State) {
    && s.mem == {} && s.imm.None? && s.inflight == [] && s.snapshots == multiset{} && s.pins == {}
    && s.flush.NoFlush? && s.job.None? && s.commit.Some?
    && s.logFile in s.disk.logs && s.disk.logs[s.logFile] == [] && (forall n :: n in s.disk.logs ==> n <= s.logFile)
    && s.logFile < s.nextFile
    && var c := s.commit.value;
    && c.kind.OpenCommit? && c.logNumber == s.logFile && c.nextFile == s.nextFile && c.lastSeq == s.lastSeq
    && c.horizon == 0 && !c.exposes
    && TreeInv(c.target) && TreeStored(s.disk.tables, c.target, c.nextFile)
    && s.disk.manifest.nextFile <= c.nextFile
    && TreeEntries(c.target) == Durable(s.disk)
    && AtMost(s.history, s.lastSeq) && s.lastSeq < MAX_SEQUENCE && s.horizon <= s.lastSeq
    && (c.written ==> s.disk.manifest == Manifest(c.target, c.logNumber, c.nextFile, c.lastSeq))
  }

  ghost predicate Inv(s: State) {
    && DiskInv(s)
    && match s.phase
       case Down => s.mem == {} && s.imm.None? && s.inflight == []
       case Opening => OpeningInv(s)
       case Up => UpInv(s)
  }
}
