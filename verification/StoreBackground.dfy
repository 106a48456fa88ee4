/** The background thread keeps the store's invariant: building and placing flushed tables,
    starting compactions, writing their outputs, and preparing the version edits. */
module StoreBackground {
  import opened InternalKeys
  import opened Versions
  import opened Picking
  import opened DropRule
  import opened Compactions
  import opened TreeUpdates
  import opened Flushes
  import opened Store
  import opened StoreInvariant
  import opened StoreSets

  // ---- New tables

  // The parts of the invariant a new table on disk touches.
  ghost predicate NewTable(s: State, s': State, entries: seq<Entry>) {
    && s'.disk == s.disk.(tables := s.disk.tables[s.nextFile := entries])
    && s'.nextFile == s.nextFile + 1 && s'.tree == s.tree && s'.pins == s.pins
    && s'.phase == s.phase
  }

  lemma NewTableKeepsFiles(s: State, s': State, entries: seq<Entry>)
    requires Inv(s) && s.phase == Up && NewTable(s, s', entries)
    ensures DiskFiles(s'.disk) && FilesInv(s')
  {
    StoredAfterNewTable(s.disk.tables, s.disk.manifest.tree, s.disk.manifest.nextFile, s.nextFile, entries,
                        s.disk.manifest.nextFile);
    StoredAfterNewTable(s.disk.tables, s.tree, s.nextFile, s.nextFile, entries, s'.nextFile);
    forall t | t in s.pins ensures TreeStored(s'.disk.tables, t, s'.nextFile) {
      StoredAfterNewTable(s.disk.tables, t, s.nextFile, s.nextFile, entries, s'.nextFile);
    }
  }

  lemma NewTableKeepsData(s: State, s': State, entries: seq<Entry>)
    requires Inv(s) && s.phase == Up && NewTable(s, s', entries)
    requires s'.mem == s.mem && s'.imm == s.imm && s'.inflight == s.inflight && s'.history == s.history
    requires s'.logFile == s.logFile && s'.logNumber == s.logNumber && s'.lastSeq == s.lastSeq
    requires s'.snapshots == s.snapshots && s'.clean == s.clean && s'.horizon == s.horizon
    ensures DiskContents(s'.disk, s'.Written(), s'.horizon, s'.clean)
    ensures LogsInv(s') && OrderInv(s') && ReadsInv(s')
  {
    assert s'.Written() == s.Written() && s'.Inflight() == s.Inflight() && s'.Imm() == s.Imm();
    assert s'.Contents() == s.Contents() && Durable(s'.disk) == Durable(s.disk);
  }

  lemma BuildKeepsInv(s: State, s': State, f: File)
    requires Inv(s) && BuildStep(s, s', f)
    ensures s'.phase == Up && DiskInv(s') && UpInv(s')
  {
    NewTableKeepsFiles(s, s', f.entries);
    NewTableKeepsData(s, s', f.entries);
    forall g | g in s.tree[0] ensures g.number < f.number {
      assert FileStored(s.disk.tables, g, s.nextFile);
    }
    if s.job.Some? {
      forall o | o in s.job.value.outs ensures FileStored(s'.disk.tables, o, s'.nextFile) {
        assert FileStored(s.disk.tables, o, s.nextFile);
      }
    }
  }

  lemma BuildNothingKeepsInv(s: State, s': State)
    requires Inv(s) && BuildNothingStep(s, s')
    ensures s'.phase == Up && DiskInv(s') && UpInv(s')
  {
  }

  lemma ProduceKeepsInv(s: State, s': State, o: File)
    requires Inv(s) && ProduceStep(s, s', o)
    ensures s'.phase == Up && DiskInv(s') && UpInv(s')
  {
    NewTableKeepsFiles(s, s', o.entries);
    NewTableKeepsData(s, s', o.entries);
    forall p | p in s'.job.value.outs
      ensures FileStored(s'.disk.tables, p, s'.nextFile) && p.number in s'.pending
    {
      assert p != o ==> FileStored(s.disk.tables, p, s.nextFile);
    }
  }

  // ---- Starting a compaction

  lemma StartJobKeepsInv(s: State, s': State, job: Job)
    requires Inv(s) && StartJobStep(s, s', job)
    ensures s'.phase == Up && DiskInv(s') && UpInv(s')
  {
    ChosenIsInstallable(s.tree, job.level, job.in0, job.in1, JobKept(job));
    assert JobFits(s.tree, job);
  }

  // ---- Preparing edits

  // Preparing an edit changes nothing but the pending commit.
  lemma PreparingKeepsRest(s: State, s': State, c: Commit)
    requires Inv(s) && s.phase == Up && s.commit.None? && !c.written && s' == s.(commit := Some(c))
    ensures DiskInv(s') && FilesInv(s') && LogsInv(s') && OrderInv(s') && ReadsInv(s')
    ensures ManifestInv(s') && FlushInv(s') && JobInv(s')
  {
    assert s'.Written() == s.Written() && s'.Inflight() == s.Inflight() && s'.Imm() == s.Imm();
    assert s'.Contents() == s.Contents();
  }

  lemma PlacedTable(s: State, level: nat)
    requires Inv(s) && s.phase == Up && s.flush.Built? && MayPlace(s.tree, level, s.flush.file)
    requires SparesJob(s, PrepareFlush(level))
    ensures var t := AddFile(s.tree, level, s.flush.file);
            && TreeInv(t) && TreeStored(s.disk.tables, t, s.nextFile)
            && TreeEntries(t) == TreeEntries(s.tree) + s.Imm()
            && (s.job.Some? ==> JobFits(t, s.job.value))
  {
    var f := s.flush.file;
    assert SeqBelow(TreeEntries(s.tree), Elems(f.entries));
    LaterTableIsNewer(s.tree, f);
    FlushKeepsTreeInv(s.tree, level, f);
    AddFileEntries(s.tree, level, f);
    if s.job.Some? {
      var job := s.job.value;
      FlushDuringCompaction(s.tree, job.level, job.in0, job.in1, JobKept(job), job.baseKeys, f, level);
    }
    forall l, g | 0 <= l < NUM_LEVELS && g in AddFile(s.tree, level, f)[l] ensures FileStored(s.disk.tables, g, s.nextFile) {
      assert g == f || g in s.tree[l];
    }
  }

  lemma PrepareFlushKeepsInv(s: State, s': State, level: nat)
    requires Inv(s) && PrepareFlushStep(s, s', level) && SparesJob(s, PrepareFlush(level))
    ensures s'.phase == Up && DiskInv(s') && UpInv(s')
  {
    var c := s'.commit.value;
    PreparingKeepsRest(s, s', c);
    if s.flush.Built? {
      PlacedTable(s, level);
    } else {
      assert TreeEntries(s.tree) + s.Imm() == TreeEntries(s.tree);
    }
    assert s'.Imm() == s.Imm();
  }

  // The job's outputs are complete.
  ghost predicate OutputsDone(job: Job) {
    && Disjoint(job.outs)
    && FilesEntries(job.outs) == JobKept(job)
  }

  lemma OutputsAreMade(job: Job)
    requires OutputsDone(job)
    ensures MadeFrom(job.outs, job.in0 + job.in1)
  {
    forall o, e | o in job.outs && e in o.entries ensures e in FilesEntries(job.in0 + job.in1) {
      assert e in FilesEntries(job.outs);
    }
  }

  lemma OutputsStored(s: State, job: Job)
    requires job.level + 1 < NUM_LEVELS && TreeStored(s.disk.tables, s.tree, s.nextFile)
    requires forall o :: o in job.outs ==> FileStored(s.disk.tables, o, s.nextFile)
    ensures TreeStored(s.disk.tables, Install(s.tree, job.level, job.in0, job.in1, job.outs), s.nextFile)
  {
    var t := Install(s.tree, job.level, job.in0, job.in1, job.outs);
    forall l, g | 0 <= l < NUM_LEVELS && g in t[l] ensures FileStored(s.disk.tables, g, s.nextFile) {
      assert g in s.tree[l] || g in job.outs;
    }
  }

  lemma OutputsRead(t: Tree, job: Job, rest: set<Entry>)
    requires TreeInv(t) && UniqueSeqs(TreeEntries(t)) && OutputsDone(job)
    requires Installable(t, job.level, job.in0, job.in1, JobKept(job))
    requires rest == TreeEntries(Without(t, job.level, job.in0, job.in1))
    ensures var t' := Install(t, job.level, job.in0, job.in1, job.outs);
            && TreeEntries(t') <= TreeEntries(t)
            && ((forall key: UserKey :: !Exposed(rest, FilesEntries(job.in0 + job.in1), key, job.smallestSnapshot,
                                                 job.baseKeys)) ==>
                  ReadsSame(TreeEntries(t'), TreeEntries(t), job.smallestSnapshot))
  {
    SplitEntries(t, job.level, job.in0, job.in1, job.outs);
    CompactionPreservesReadsIff(t, job.level, job.in0, job.in1, job.outs, job.smallestSnapshot, job.baseKeys);
  }

  lemma InstalledTables(s: State)
    requires Inv(s) && s.phase == Up && s.job.Some? && s.job.value.level + 1 < NUM_LEVELS
    requires OutputsDone(s.job.value)
    ensures var job := s.job.value; var t := Install(s.tree, job.level, job.in0, job.in1, job.outs);
            && TreeInv(t) && TreeStored(s.disk.tables, t, s.nextFile)
            && TreeEntries(t) <= TreeEntries(s.tree)
            && (!ExposesSome(s, job) ==> ReadsSame(TreeEntries(t), TreeEntries(s.tree), job.smallestSnapshot))
  {
    hide TreeInv, ReadsSame, UniqueSeqs, Exposed;
    var job := s.job.value;
    OutputsAreMade(job);
    InstallKeepsTreeInv(s.tree, job.level, job.in0, job.in1, job.outs);
    OutputsStored(s, job);
    UniqueSubset(TreeEntries(s.tree), s.Written());
    OutputsRead(s.tree, job, Outside(s, job));
  }

  lemma PrepareCompactionKeepsInv(s: State, s': State)
    requires Inv(s) && PrepareCompactionStep(s, s')
    ensures s'.phase == Up && DiskInv(s') && UpInv(s')
  {
    PreparingKeepsRest(s, s', s'.commit.value);
    assert OutputsDone(s.job.value);
    InstalledTables(s);
  }

  lemma PrepareMoveKeepsInv(s: State, s': State, level: nat, f: File)
    requires Inv(s) && PrepareMoveStep(s, s', level, f)
    ensures s'.phase == Up && DiskInv(s') && UpInv(s')
  {
    PreparingKeepsRest(s, s', s'.commit.value);
    TrivialMoveKeepsTreeInv(s.tree, level, f);
    var t := Install(s.tree, level, {f}, {}, {f});
    forall l, g | 0 <= l < NUM_LEVELS && g in t[l] ensures FileStored(s.disk.tables, g, s.nextFile) {
      assert g in s.tree[l] || (g == f && f in s.tree[level]);
    }
  }
}
