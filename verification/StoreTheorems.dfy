/** The store's guarantees over every run. */
module StoreTheorems {
  import opened InternalKeys
  import opened Versions
  import opened Picking
  import opened DropRule
  import opened TreeUpdates
  import opened Flushes
  import opened Store
  import opened StoreInvariant
  import opened StoreSets
  import StoreWrites
  import StoreBackground
  import StoreCommits

  lemma InitInv(s: State)
    requires Init(s)
    ensures Inv(s)
  {
  }

  lemma StepKeepsInv(s: State, s': State, step: Step)
    requires Inv(s) && NextStep(s, s', step) && SparesJob(s, step)
    ensures Inv(s')
  {
    hide DiskInv, UpInv, OpeningInv, LogStep, InsertStep, AckStep, SwitchStep, BuildStep, BuildNothingStep,
      PrepareFlushStep, StartJobStep, ProduceStep, PrepareCompactionStep, PrepareMoveStep, WriteManifestStep,
      InstallStep, DeleteTableStep, DeleteLogStep, SnapshotStep, ReleaseStep, PinStep, UnpinStep, CrashStep, OpenStep;
    match step
    case Log(batch) => StoreWrites.LogKeepsInv(s, s', batch);
    case Insert(e) => StoreWrites.InsertKeepsInv(s, s', e);
    case Ack => StoreWrites.AckKeepsInv(s, s');
    case Switch => StoreWrites.SwitchKeepsInv(s, s');
    case Build(f) => StoreBackground.BuildKeepsInv(s, s', f);
    case BuildNothing => StoreBackground.BuildNothingKeepsInv(s, s');
    case PrepareFlush(level) => StoreBackground.PrepareFlushKeepsInv(s, s', level);
    case StartJob(job) => StoreBackground.StartJobKeepsInv(s, s', job);
    case Produce(o) => StoreBackground.ProduceKeepsInv(s, s', o);
    case PrepareCompaction => StoreBackground.PrepareCompactionKeepsInv(s, s');
    case PrepareMove(level, f) => StoreBackground.PrepareMoveKeepsInv(s, s', level, f);
    case WriteManifest => StoreCommits.WriteManifestKeepsInv(s, s');
    case InstallVersion => StoreCommits.InstallKeepsInv(s, s');
    case DeleteTable(n) => StoreCommits.DeleteTableKeepsInv(s, s', n);
    case DeleteLog(n) => StoreCommits.DeleteLogKeepsInv(s, s', n);
    case TakeSnapshot => StoreWrites.SnapshotKeepsInv(s, s', 0);
    case ReleaseSnapshot(x) => StoreWrites.SnapshotKeepsInv(s, s', x);
    case Pin => StoreWrites.PinKeepsInv(s, s', s.tree);
    case Unpin(t) => StoreWrites.PinKeepsInv(s, s', t);
    case Crash => StoreCommits.CrashKeepsInv(s, s');
    case Open(parts, newLog, openSeq) => StoreCommits.OpenKeepsInv(s, s', parts, newLog, openSeq);
  }

  lemma {:induction false} RunKeepsInv(run: seq<State>, steps: seq<Step>, i: nat)
    requires SafeRun(run, steps) && i < |run|
    ensures Inv(run[i])
  {
    hide Inv, Init, NextStep, SparesJob;
    if i == 0 {
      InitInv(run[0]);
    } else {
      RunKeepsInv(run, steps, i - 1);
      StepKeepsInv(run[i - 1], run[i], steps[i - 1]);
    }
  }

  // ---- Where the condition on flushes holds

  ghost predicate Automatic(steps: seq<Step>) {
    forall i :: 0 <= i < |steps| && steps[i].StartJob? ==> !steps[i].newJob.manual
  }

  lemma AutomaticStep(s: State, s': State, step: Step)
    requires NextStep(s, s', step) && (step.StartJob? ==> !step.newJob.manual)
    requires s.phase != Down && s.job.Some? ==> !s.job.value.manual
    ensures s'.phase != Down && s'.job.Some? ==> !s'.job.value.manual
  {
  }

  // A table placed beside a running compaction that PickCompaction chose separates nothing.
  lemma PickedJobIsSpared(s: State, s': State, step: Step)
    requires Inv(s) && NextStep(s, s', step) && (s.phase != Down && s.job.Some? ==> !s.job.value.manual)
    ensures SparesJob(s, step)
  {
    if step.PrepareFlush? && s.flush.Built? && s.job.Some? && step.level == s.job.value.level + 1 {
      var job := s.job.value;
      JobIsInstallable(s);
      PlacedBesideInputs(s.tree, job.level, job.in0, job.in1, s.flush.file);
      GapFreeInputsRepelFlush(job.in0, job.in1, JobKept(job), s.flush.file);
    }
  }

  // Without manual compactions every run is safe.
  lemma AutomaticRunIsSafe(run: seq<State>, steps: seq<Step>)
    requires IsRun(run, steps) && Automatic(steps)
    ensures SafeRun(run, steps)
  {
    AutomaticPrefixIsSafe(run, steps, |steps|);
    assert run[..|steps| + 1] == run && steps[..|steps|] == steps;
  }

  lemma {:induction false} AutomaticPrefixIsSafe(run: seq<State>, steps: seq<Step>, n: nat)
    requires IsRun(run, steps) && Automatic(steps) && n <= |steps|
    ensures SafeRun(run[..n + 1], steps[..n])
    ensures run[n].phase != Down && run[n].job.Some? ==> !run[n].job.value.manual
  {
    hide Inv, Init, NextStep, SparesJob;
    if n == 0 {
      assert run[..1] == [run[0]] && steps[..0] == [];
      InitIsDown(run[0]);
    } else {
      AutomaticPrefixIsSafe(run, steps, n - 1);
      RunKeepsInv(run[..n], steps[..n - 1], n - 1);
      AutomaticStep(run[n - 1], run[n], steps[n - 1]);
      PickedJobIsSpared(run[n - 1], run[n], steps[n - 1]);
      forall i | 0 <= i < n ensures SparesJob(run[i], steps[i]) {
        if i < n - 1 {
          assert SparesJob(run[..n][i], steps[..n - 1][i]);
        }
      }
    }
  }

  lemma InitIsDown(s: State)
    requires Init(s)
    ensures s.phase == Down
  {
  }

  // The condition is exact: where it fails, some cut of what the compaction keeps into tables
  // breaks the order of the output level; where it holds, none does.
  lemma SparedIff(s: State, job: Job, f: File, kept: seq<Entry>)
    requires Inv(s) && s.phase == Up && s.flush == Built(f) && s.job == Some(job)
    requires Sorted(kept) && Elems(kept) == JobKept(job)
    requires MayPlace(s.tree, job.level + 1, f)
    ensures job.level + 1 < NUM_LEVELS
    ensures SparesJob(s, PrepareFlush(job.level + 1)) <==>
              forall outs :: CutOf(outs, JobKept(job)) ==>
                TreeInv(Install(AddFile(s.tree, job.level + 1, f), job.level, job.in0, job.in1, outs))
  {
    hide TreeInv, Inv, Installable, MayPlace, NewerThanTree, JobKept, CutOf, Splits, Sorted;
    JobIsInstallable(s);
    FlushedIsNewest(s);
    PlacedBesideInputs(s.tree, job.level, job.in0, job.in1, f);
    InputsHoldKept(job);
    FlushIntoOutputLevelIff(s.tree, job.level, job.in0, job.in1, kept, f);
  }

  lemma JobIsInstallable(s: State)
    requires Inv(s) && s.phase == Up && s.job.Some?
    ensures var job := s.job.value;
            && StillFits(s.tree, job.level, job.in0, job.in1, JobKept(job), job.baseKeys)
            && job.level + 1 < NUM_LEVELS && job.in0 <= s.tree[job.level] && job.in1 <= s.tree[job.level + 1]
  {
    assert JobFits(s.tree, s.job.value);
  }

  lemma PlacedBesideInputs(t: Tree, level: nat, in0: set<File>, in1: set<File>, f: File)
    requires level + 1 < NUM_LEVELS && in0 <= t[level] && in1 <= t[level + 1] && MayPlace(t, level + 1, f)
    ensures forall g :: g in in0 + in1 ==> !Meets(g, Lo(f), Hi(f))
  {
    forall g | g in in0 + in1 ensures g in t[level] || g in t[level + 1] {
    }
  }

  lemma InputsHoldKept(job: Job)
    ensures JobKept(job) <= FilesEntries(job.in0 + job.in1)
  {
  }

  lemma FlushedIsNewest(s: State)
    requires Inv(s) && s.phase == Up && s.flush.Built?
    ensures NewerThanTree(s.flush.file, s.tree) && TreeInv(s.tree)
  {
    assert SeqBelow(TreeEntries(s.tree), Elems(s.flush.file.entries));
    LaterTableIsNewer(s.tree, s.flush.file);
  }

  // ---- Where no key is exposed

  // Closed inputs stay closed until the compaction's outputs are installed.
  ghost predicate StaysClosed(s: State) {
    && s.clean
    && (s.phase == Up && s.job.Some? && s.job.value.level + 1 < NUM_LEVELS ==>
          LeavesNoOlder(s.tree[s.job.value.level + 1], s.job.value.in1))
    && (s.phase != Down && s.commit.Some? ==>
          && !s.commit.value.exposes
          && (s.commit.value.kind.MoveCommit? || s.commit.value.kind.OpenCommit? ==> s.job.None?)
          && (s.commit.value.kind.FlushCommit? && s.job.Some? && s.job.value.level + 1 < NUM_LEVELS ==>
                LeavesNoOlder(s.commit.value.target[s.job.value.level + 1], s.job.value.in1)))
  }

  lemma FlushStaysClosed(s: State, s': State, step: Step)
    requires Inv(s) && NextStep(s, s', step) && SparesJob(s, step) && StaysClosed(s) && step.PrepareFlush?
    ensures StaysClosed(s')
  {
    if s.flush.Built? && s.job.Some? {
      var job := s.job.value;
      assert JobFits(s.tree, job);
      FlushedIsNewest(s);
      LaterTableIsNewer(s.tree, s.flush.file);
      FlushDuringCompaction(s.tree, job.level, job.in0, job.in1, JobKept(job), job.baseKeys, s.flush.file, step.level);
    }
  }

  lemma CompactionStaysClosed(s: State, s': State)
    requires Inv(s) && PrepareCompactionStep(s, s') && StaysClosed(s)
    ensures StaysClosed(s')
  {
    JobIsInstallable(s);
    ClosedExposesNothing(s, s.job.value);
  }

  lemma ClosedExposesNothing(s: State, job: Job)
    requires job.level + 1 < NUM_LEVELS && TreeInv(s.tree) && StillFits(s.tree, job.level, job.in0, job.in1, JobKept(job), job.baseKeys)
    requires LeavesNoOlder(s.tree[job.level + 1], job.in1)
    ensures !ExposesSome(s, job)
  {
    hide TreeInv, Exposed, Installable;
    forall key: UserKey
      ensures !Exposed(Outside(s, job), FilesEntries(job.in0 + job.in1), key, job.smallestSnapshot, job.baseKeys)
    {
      ClosedNextLevelExposesNothing(s.tree, job.level, job.in0, job.in1, JobKept(job), key, job.smallestSnapshot,
                                    job.baseKeys);
    }
  }

  lemma StepStaysClosed(s: State, s': State, step: Step)
    requires Inv(s) && NextStep(s, s', step) && SparesJob(s, step) && ClosesInputs(s, step) && StaysClosed(s)
    ensures StaysClosed(s')
  {
    if step.PrepareFlush? {
      FlushStaysClosed(s, s', step);
    } else if step.PrepareCompaction? {
      CompactionStaysClosed(s, s');
    } else {
      if TouchesClosing(step) {
        CommittingStaysClosed(s, s', step);
      } else {
        QuietStaysClosed(s, s', step);
      }
    }
  }

  predicate TouchesClosing(step: Step) {
    step.StartJob? || step.PrepareMove? || step.WriteManifest? || step.InstallVersion? || step.Crash? || step.Open?
  }

  lemma CommittingStaysClosed(s: State, s': State, step: Step)
    requires NextStep(s, s', step) && ClosesInputs(s, step) && StaysClosed(s) && TouchesClosing(step)
    ensures StaysClosed(s')
  {
    hide LeavesNoOlder, Recovered, IsOldest, GapFree, WellChosen;
  }

  lemma QuietStaysClosed(s: State, s': State, step: Step)
    requires NextStep(s, s', step) && StaysClosed(s) && !TouchesClosing(step)
    requires !step.PrepareFlush? && !step.PrepareCompaction?
    ensures StaysClosed(s')
  {
    hide LeavesNoOlder, Numbered, Numbers;
  }

  lemma {:induction false} ClosedRunStaysClean(run: seq<State>, steps: seq<Step>, i: nat)
    requires ClosedRun(run, steps) && i < |run|
    ensures run[i].clean && StaysClosed(run[i])
  {
    hide Inv, NextStep, SparesJob, ClosesInputs, StaysClosed, ExposesSome;
    if i == 0 {
      InitStaysClosed(run[0]);
    } else {
      ClosedRunStaysClean(run, steps, i - 1);
      RunKeepsInv(run, steps, i - 1);
      StepStaysClosed(run[i - 1], run[i], steps[i - 1]);
    }
    ClosedIsClean(run[i]);
  }

  lemma InitStaysClosed(s: State)
    requires Init(s)
    ensures StaysClosed(s)
  {
  }

  lemma ClosedIsClean(s: State)
    requires StaysClosed(s)
    ensures s.clean
  {
  }

  // Lower inputs are closed exactly if no file left on their level starts with the user key at
  // which a chosen file before it ends.
  lemma ClosesInputsIff(run: seq<State>, steps: seq<Step>, i: nat)
    requires SafeRun(run, steps) && i < |steps| && steps[i].StartJob?
    ensures steps[i].newJob.level + 1 < NUM_LEVELS
    ensures ClosesInputs(run[i], steps[i])
       <==> SharesNoBoundary(run[i].tree[steps[i].newJob.level + 1], steps[i].newJob.in1)
  {
    RunKeepsInv(run, steps, i);
    var s, job := run[i], steps[i].newJob;
    assert NextStep(s, run[i + 1], steps[i]);
    forall e | e in FilesEntries(s.tree[job.level + 1]) ensures e in TreeEntries(s.tree) {
    }
    UniqueSubset(FilesEntries(s.tree[job.level + 1]), s.Written());
    BoundaryClosedIff(s.tree[job.level + 1], job.in1);
  }

  // ---- The order of the logs

  lemma LoggingKeepsOrder(s: State, s': State, batch: seq<Entry>)
    requires Inv(s) && DiskLogs(s.disk, s.Written()) && LogStep(s, s', batch)
    ensures DiskLogs(s'.disk, s'.Written())
  {
    hide LogOrder, DiskInv, FilesInv, ReadsInv, ManifestInv, FlushInv, JobInv, CommitInv;
    assert s.Inflight() == {} && s.Written() == s.history;
    LogOrderAppend(s.disk.logs, s.logFile, batch, s.lastSeq);
    LogEntriesAppend(s.disk.logs, s.logFile, batch, 0);
  }

  lemma SwitchingKeepsOrder(s: State, s': State)
    requires Inv(s) && DiskLogs(s.disk, s.Written()) && SwitchStep(s, s')
    ensures DiskLogs(s'.disk, s'.Written())
  {
    hide LogOrder, ReadsInv, ManifestInv, FlushInv, JobInv, CommitInv;
    FreshLogKeepsOrder(s.disk.logs, s.nextFile);
    LogEntriesFresh(s.disk.logs, s.nextFile, 0);
  }

  lemma DeletingKeepsOrder(s: State, s': State, n: nat)
    requires DiskLogs(s.disk, s.Written()) && DeleteLogStep(s, s', n)
    ensures DiskLogs(s'.disk, s'.Written())
  {
    hide LogOrder;
    DeleteLogKeepsOrder(s.disk.logs, n);
  }

  lemma OpeningKeepsOrder(s: State, s': State, parts: seq<File>, newLog: nat, lastSeq: SeqNo)
    requires Inv(s) && DiskLogs(s.disk, s.Written()) && OpenStep(s, s', parts, newLog, lastSeq)
    ensures DiskLogs(s'.disk, s'.Written())
  {
    hide LogOrder, ReadsInv, ManifestInv, FlushInv, JobInv, CommitInv;
    FreshLogKeepsOrder(s.disk.logs, newLog);
    LogEntriesFresh(s.disk.logs, newLog, 0);
  }

  // The steps that touch no log file
  lemma LogsStay(s: State, s': State, step: Step)
    requires NextStep(s, s', step)
    requires !step.Log? && !step.Switch? && !step.DeleteLog? && !step.Open?
    ensures s'.disk.logs == s.disk.logs && s.Written() <= s'.Written()
  {
  }

  lemma StepKeepsLogOrder(s: State, s': State, step: Step)
    requires Inv(s) && DiskLogs(s.disk, s.Written()) && NextStep(s, s', step)
    ensures DiskLogs(s'.disk, s'.Written())
  {
    hide LogOrder, LogStep, SwitchStep, DeleteLogStep, OpenStep, Inv;
    match step
    case Log(batch) => LoggingKeepsOrder(s, s', batch);
    case Switch => SwitchingKeepsOrder(s, s');
    case DeleteLog(n) => DeletingKeepsOrder(s, s', n);
    case Open(parts, newLog, lastSeq) => OpeningKeepsOrder(s, s', parts, newLog, lastSeq);
    case _ =>
      LogsStay(s, s', step);
      hide NextStep;
  }

  lemma FreshLogKeepsOrder(logs: map<nat, seq<Entry>>, n: nat)
    requires LogOrder(logs)
    ensures LogOrder(logs[n := []])
  {
  }

  lemma DeleteLogKeepsOrder(logs: map<nat, seq<Entry>>, n: nat)
    requires LogOrder(logs)
    ensures LogOrder(logs - {n}) && LogEntries(logs - {n}, 0) <= LogEntries(logs, 0)
  {
  }

  lemma {:induction false} RunKeepsLogOrder(run: seq<State>, steps: seq<Step>, i: nat)
    requires SafeRun(run, steps) && i < |run|
    ensures DiskLogs(run[i].disk, run[i].Written())
  {
    hide Inv, NextStep, LogOrder;
    if i == 0 {
      NoLogsInOrder(run[0].disk);
    } else {
      RunKeepsInv(run, steps, i - 1);
      RunKeepsLogOrder(run, steps, i - 1);
      StepKeepsLogOrder(run[i - 1], run[i], steps[i - 1]);
    }
  }

  lemma NoLogsInOrder(d: Disk)
    requires d.logs == map[]
    ensures LogOrder(d.logs)
  {
  }

  // ---- Reads

  // Entries of a group still being written lie above every live snapshot.
  lemma InflightIsInvisible(s: State, E: set<Entry>, key: UserKey, snapshot: SeqNo)
    requires Numbered(s.inflight, s.lastSeq) && snapshot <= s.lastSeq && UniqueSeqs(E + s.Inflight())
    ensures Lookup(E + s.Inflight(), key, snapshot) == Lookup(E, key, snapshot)
  {
    forall x ensures Candidate(E + s.Inflight(), key, snapshot, x) <==> Candidate(E, key, snapshot, x) {
      assert x in s.Inflight() ==> exists i :: 0 <= i < |s.inflight| && s.inflight[i] == x;
    }
    SameReads(E + s.Inflight(), E, key, snapshot, snapshot);
  }

  // In every reachable state that has exposed no key, what is present reads at every live
  // snapshot as what was written: the newest acknowledged entry not above it.
  lemma CleanReads(run: seq<State>, steps: seq<Step>, i: nat, key: UserKey, snapshot: SeqNo)
    requires SafeRun(run, steps) && i < |run|
    requires run[i].phase == Up && run[i].clean && run[i].Live(snapshot)
    ensures Lookup(run[i].Contents(), key, snapshot) == Lookup(run[i].history, key, snapshot)
  {
    RunKeepsInv(run, steps, i);
    var s := run[i];
    assert s.horizon <= snapshot <= s.lastSeq;
    UniqueSubset(s.Contents() + s.Inflight(), s.Written());
    InflightIsInvisible(s, s.Contents(), key, snapshot);
    InflightIsInvisible(s, s.history, key, snapshot);
  }

  // If every compaction starts with closed inputs, every reachable state reads at every live
  // snapshot the newest acknowledged entry not above it. (StoreReads: this is what Get returns.)
  lemma ReadsSeeHistory(run: seq<State>, steps: seq<Step>, i: nat, key: UserKey, snapshot: SeqNo)
    requires ClosedRun(run, steps) && i < |run| && run[i].phase == Up && run[i].Live(snapshot)
    ensures Lookup(run[i].Contents(), key, snapshot) == Lookup(run[i].history, key, snapshot)
  {
    ClosedRunStaysClean(run, steps, i);
    CleanReads(run, steps, i, key, snapshot);
  }

  // ---- Durability

  lemma {:induction false} HistoryGrows(run: seq<State>, steps: seq<Step>, i: nat, j: nat)
    requires SafeRun(run, steps) && i <= j < |run|
    ensures run[i].history <= run[j].history
  {
    if i < j {
      HistoryGrows(run, steps, i, j - 1);
      StepGrowsHistory(run[j - 1], run[j], steps[j - 1]);
    }
  }

  lemma StepGrowsHistory(s: State, s': State, step: Step)
    requires NextStep(s, s', step)
    ensures s.history <= s'.history
  {
  }

  // No acknowledged write is lost: whatever crashes and reopenings lie between, an entry that
  // was the visible one when acknowledged stays the visible one until its key is written again.
  lemma AcknowledgedWritesSurvive(run: seq<State>, steps: seq<Step>, i: nat, j: nat, e: Entry)
    requires ClosedRun(run, steps) && i <= j < |run| && run[j].phase == Up
    requires e in run[i].history
    requires forall x :: x in run[j].history && x.Key() == e.Key() ==> x.Seq() <= e.Seq()
    ensures Lookup(run[j].Contents(), e.Key(), run[j].lastSeq) == Seen(Some(e))
  {
    HistoryGrows(run, steps, i, j);
    ReadsSeeHistory(run, steps, j, e.Key(), run[j].lastSeq);
    RunKeepsInv(run, steps, j);
    UniqueSubset(run[j].history, run[j].Written());
    NewestIs(run[j].history, e.Key(), run[j].lastSeq, e);
  }

  // After reopening, new writes are numbered above everything ever written.
  lemma NewSequencesAreFresh(run: seq<State>, steps: seq<Step>, i: nat, e: Entry)
    requires SafeRun(run, steps) && i < |run| && run[i].phase == Up
    requires e in run[i].history || e in run[i].Contents()
    ensures e.Seq() <= run[i].lastSeq + |run[i].inflight|
    ensures e in run[i].history ==> e.Seq() <= run[i].lastSeq
  {
    RunKeepsInv(run, steps, i);
    var s := run[i];
    if e in s.Inflight() {
      var k :| 0 <= k < |s.inflight| && s.inflight[k] == e;
    }
  }

  // Every table of a version is on disk with its contents.
  ghost predicate OnDisk(d: Disk, t: Tree) {
    forall l, f :: 0 <= l < NUM_LEVELS && f in t[l] ==> f.number in d.tables && d.tables[f.number] == f.entries
  }

  lemma StoredIsOnDisk(d: Disk, t: Tree, limit: nat)
    requires TreeStored(d.tables, t, limit)
    ensures OnDisk(d, t)
  {
    forall l, f | 0 <= l < NUM_LEVELS && f in t[l] ensures f.number in d.tables && d.tables[f.number] == f.entries {
      assert FileStored(d.tables, f, limit);
    }
  }

  // Everything a restart or a reader needs is on disk at every moment of every run, whatever
  // was deleted: the manifest's tables and those of every live version, every entry that is in
  // memory only, and logs enough to read as everything written reads.
  lemma NothingNeededIsDeleted(run: seq<State>, steps: seq<Step>, i: nat, version: Tree)
    requires SafeRun(run, steps) && i < |run|
    ensures TreeInv(run[i].disk.manifest.tree) && OnDisk(run[i].disk, run[i].disk.manifest.tree)
    ensures run[i].Imm() + run[i].mem + run[i].Inflight() <= Durable(run[i].disk)
    ensures run[i].clean ==> ReadsSame(Durable(run[i].disk), run[i].Written(), run[i].horizon)
    ensures run[i].phase == Up && (version == run[i].tree || version in run[i].pins) ==> OnDisk(run[i].disk, version)
  {
    RunKeepsInv(run, steps, i);
    var s := run[i];
    StoredIsOnDisk(s.disk, s.disk.manifest.tree, s.disk.manifest.nextFile);
    if s.phase == Up && (version == s.tree || version in s.pins) {
      StoredIsOnDisk(s.disk, version, s.nextFile);
    }
  }
}
