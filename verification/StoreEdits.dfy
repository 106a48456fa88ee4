/** The edits of the store's runs: what the code records at every commit is the change the step
    makes, no file returns to a level it was on, and replaying the manifest restores it. */
module StoreEdits {
  import opened InternalKeys
  import opened Versions
  import opened Picking
  import opened TreeUpdates
  import opened Flushes
  import opened Store
  import opened StoreInvariant
  import opened StoreTheorems
  import opened Manifest

  // ---- What an edit says

  // What applying one edit makes of a level.
  ghost function Edited(files: set<File>, e: VersionEdit, level: nat): set<File> {
    Save(files, Collect(Pending({}, {}), e, level))
  }

  // The edit adds and deletes exactly what changes between two versions.
  ghost predicate Describes(e: VersionEdit, t: Tree, t': Tree) {
    EditOk(e) && forall l :: 0 <= l < NUM_LEVELS ==>
      Added(e, l) == t'[l] - t[l] && Deleted(e, l) == FileNumbers(t[l] - t'[l])
  }

  // In a stored version a file number identifies the file and its level.
  lemma NumberIdentifiesFile(tables: map<nat, seq<Entry>>, t: Tree, limit: nat, l: nat, m: nat, f: File, g: File)
    requires TreeInv(t) && TreeStored(tables, t, limit) && l < NUM_LEVELS && m < NUM_LEVELS
    requires f in t[l] && g in t[m] && f.number == g.number
    ensures l == m && f == g
  {
    assert FileStored(tables, f, limit) && FileStored(tables, g, limit);
    DistinctFilesShareNothing(t, l, m, f, g, f.entries[0]);
  }

  // Applying it then makes the one version of the other.
  lemma DescribedApplies(tables: map<nat, seq<Entry>>, t: Tree, limit: nat, e: VersionEdit, t': Tree, l: nat)
    requires TreeInv(t) && TreeStored(tables, t, limit) && l < NUM_LEVELS && Describes(e, t, t')
    requires forall f, g :: f in t[l] && g in t'[l] && g !in t[l] ==> f.number != g.number
    ensures Edited(t[l], e, l) == t'[l]
  {
    var gone := t[l] - t'[l];
    forall f | f in t[l] ensures f.number in FileNumbers(gone) <==> f in gone {
      if f.number in FileNumbers(gone) {
        var g :| g in gone && g.number == f.number;
        NumberIdentifiesFile(tables, t, limit, l, l, f, g);
      }
    }
    forall f | f in t'[l] && f !in t[l] ensures f.number in FileNumbers(Added(e, l)) {
      assert f in Added(e, l);
    }
    forall f ensures f in Edited(t[l], e, l) <==> f in t'[l] {
    }
  }

  // ---- The numbers a manifest has used

  ghost function Pairs(t: Tree): set<(nat, nat)> {
    set l: nat, f | 0 <= l < NUM_LEVELS && f in t[l] :: (l, f.number)
  }

  // Every level and number under which the manifest has listed a file so far.
  ghost function Ever(run: seq<State>, i: nat): set<(nat, nat)>
    requires i < |run|
  {
    Pairs(run[i].disk.manifest.tree) + if i == 0 then {} else Ever(run, i - 1)
  }

  ghost predicate Unused(ever: set<(nat, nat)>, n: nat) {
    forall p :: p in ever ==> p.1 != n
  }

  // A file the commit adds to a level is new or comes from a level above.
  ghost predicate Arrives(ever: set<(nat, nat)>, t: Tree, l: nat, f: File) {
    l < NUM_LEVELS && (Unused(ever, f.number) || exists m :: 0 <= m < l && f in t[m])
  }

  ghost predicate TraceInv(s: State, ever: set<(nat, nat)>) {
    var t := s.disk.manifest.tree;
    && Pairs(t) <= ever
    && (forall p :: p in ever ==> p.1 < s.disk.manifest.nextFile)
    // No file lies above a level it was on.
    && (forall p, l, f :: p in ever && 0 <= l < NUM_LEVELS && f in t[l] && f.number == p.1 ==> p.0 <= l)
    && (s.phase != Down ==> PendingInv(s, ever))
  }

  ghost predicate PendingInv(s: State, ever: set<(nat, nat)>) {
    && (s.flush.Built? && !(s.commit.Some? && s.commit.value.written) ==> Unused(ever, s.flush.file.number))
    && (s.job.Some? && !(s.commit.Some? && s.commit.value.written && s.commit.value.kind.CompactionCommit?) ==>
          forall o :: o in s.job.value.outs ==> Unused(ever, o.number))
    && (s.flush.Built? && s.job.Some? ==> forall o :: o in s.job.value.outs ==> o.number != s.flush.file.number)
    && (s.commit.Some? && !s.commit.value.written ==>
          && s.disk.manifest.nextFile <= s.commit.value.nextFile
          && forall l, f :: 0 <= l < NUM_LEVELS && f in s.commit.value.target[l] && f !in s.disk.manifest.tree[l] ==>
               Arrives(ever, s.disk.manifest.tree, l, f))
    && (s.commit.Some? && s.commit.value.kind.FlushCommit? ==>
          forall l, f :: 0 <= l < NUM_LEVELS && f in s.commit.value.target[l] && f !in s.tree[l] ==>
            s.flush == Built(f))
  }

  // A number allocated now was never in the manifest.
  lemma NextIsUnused(s: State, ever: set<(nat, nat)>)
    requires Inv(s) && s.phase == Up && TraceInv(s, ever)
    ensures Unused(ever, s.nextFile)
  {
  }

  lemma NotYetWritten(s: State)
    requires Inv(s) && s.phase == Up && !(s.commit.Some? && s.commit.value.written)
    ensures s.disk.manifest.tree == s.tree && s.disk.manifest.nextFile <= s.nextFile
  {
  }

  lemma NewTableKeepsTrace(s: State, s': State, step: Step, ever: set<(nat, nat)>)
    requires Inv(s) && NextStep(s, s', step) && TraceInv(s, ever) && (step.Build? || step.Produce?)
    ensures TraceInv(s', ever)
  {
    NextIsUnused(s, ever);
    if s.job.Some? {
      forall o | o in s.job.value.outs ensures o.number < s.nextFile {
        assert FileStored(s.disk.tables, o, s.nextFile);
      }
    }
  }

  // Preparing a commit keeps the trace if what it adds is new or comes from above.
  lemma PreparedKeepsTrace(s: State, c: Commit, ever: set<(nat, nat)>)
    requires TraceInv(s, ever) && s.phase == Up && s.commit.None? && !c.written
    requires s.disk.manifest.tree == s.tree && s.disk.manifest.nextFile <= c.nextFile
    requires forall l, f :: 0 <= l < NUM_LEVELS && f in c.target[l] && f !in s.tree[l] ==>
               Arrives(ever, s.tree, l, f) && (c.kind.FlushCommit? ==> s.flush == Built(f))
    ensures TraceInv(s.(commit := Some(c)), ever)
  {
    hide Pairs, Unused, Arrives;
  }

  lemma FlushPrepared(s: State, s': State, step: Step, ever: set<(nat, nat)>)
    requires Inv(s) && NextStep(s, s', step) && step.PrepareFlush? && TraceInv(s, ever)
    ensures TraceInv(s', ever)
  {
    NotYetWritten(s);
    hide Inv, MayPlace, Unused;
    PreparedKeepsTrace(s, s'.commit.value, ever);
  }

  lemma CompactionPrepared(s: State, s': State, step: Step, ever: set<(nat, nat)>)
    requires Inv(s) && NextStep(s, s', step) && step.PrepareCompaction? && TraceInv(s, ever)
    ensures TraceInv(s', ever)
  {
    NotYetWritten(s);
    hide Inv, Disjoint, JobKept, ExposesSome, Unused;
    var c, job := s'.commit.value, s.job.value;
    forall l, f | 0 <= l < NUM_LEVELS && f in c.target[l] && f !in s.tree[l] ensures f in job.outs {
    }
    PreparedKeepsTrace(s, c, ever);
  }

  lemma MovedArrives(t: Tree, level: nat, f: File, l: nat, g: File, ever: set<(nat, nat)>)
    requires level + 1 < NUM_LEVELS && l < NUM_LEVELS && f in t[level]
    requires g in Install(t, level, {f}, {}, {f})[l] && g !in t[l]
    ensures Arrives(ever, t, l, g)
  {
    assert g == f && l == level + 1;
  }

  lemma MovePrepared(s: State, s': State, step: Step, ever: set<(nat, nat)>)
    requires Inv(s) && NextStep(s, s', step) && step.PrepareMove? && TraceInv(s, ever)
    ensures TraceInv(s', ever)
  {
    NotYetWritten(s);
    hide Inv, LeavesNoOlder, TakesWhatItMeets, Unused, Arrives, Install, Pairs;
    var level, f := step.from, step.moved;
    forall l, g | 0 <= l < NUM_LEVELS && g in s'.commit.value.target[l] && g !in s.tree[l]
      ensures Arrives(ever, s.tree, l, g)
    {
      MovedArrives(s.tree, level, f, l, g, ever);
    }
    PreparedKeepsTrace(s, s'.commit.value, ever);
  }

  lemma OpenPrepared(s: State, s': State, step: Step, ever: set<(nat, nat)>)
    requires Inv(s) && NextStep(s, s', step) && step.Open? && TraceInv(s, ever)
    ensures TraceInv(s', ever)
  {
    var t, parts := s.disk.manifest.tree, step.parts;
    forall l, f | 0 <= l < NUM_LEVELS && f in s'.commit.value.target[l] && f !in t[l] ensures Unused(ever, f.number) {
      var i :| 0 <= i < |parts| && parts[i] == f;
    }
  }

  // What the commit lists for the first time was never listed there.
  lemma NewPairsAreNew(s: State, s': State, ever: set<(nat, nat)>, l: nat, f: File)
    requires Inv(s) && WriteManifestStep(s, s') && TraceInv(s, ever) && l < NUM_LEVELS
    requires f in s'.disk.manifest.tree[l] && f !in s.disk.manifest.tree[l]
    ensures (l, f.number) !in ever
  {
    assert Arrives(ever, s.disk.manifest.tree, l, f);
  }

  lemma CommittedStored(s: State)
    requires Inv(s) && s.phase != Down && s.commit.Some?
    ensures var c := s.commit.value; TreeInv(c.target) && TreeStored(s.disk.tables, c.target, c.nextFile)
  {
  }

  lemma WrittenPairs(s: State, s': State, ever: set<(nat, nat)>, p: (nat, nat), l: nat, f: File)
    requires Inv(s) && WriteManifestStep(s, s') && TraceInv(s, ever)
    requires p in ever + Pairs(s'.disk.manifest.tree) && l < NUM_LEVELS && f in s'.disk.manifest.tree[l]
    ensures p.1 < s'.disk.manifest.nextFile
    ensures f.number == p.1 ==> p.0 <= l
  {
    var t, c := s.disk.manifest.tree, s.commit.value;
    CommittedStored(s);
    if p in Pairs(c.target) {
      var g :| g in c.target[p.0] && g.number == p.1;
      assert FileStored(s.disk.tables, g, c.nextFile);
      if f.number == p.1 {
        NumberIdentifiesFile(s.disk.tables, c.target, c.nextFile, p.0, l, g, f);
      }
    } else if f.number == p.1 && f !in t[l] {
      assert Arrives(ever, t, l, f);
    }
  }

  lemma WriteKeepsPending(s: State, s': State, ever: set<(nat, nat)>)
    requires Inv(s) && WriteManifestStep(s, s') && TraceInv(s, ever)
    ensures PendingInv(s', ever + Pairs(s'.disk.manifest.tree))
  {
    var c := s.commit.value;
    if s.phase == Up && c.kind.FlushCommit? && s.job.Some? {
      forall o, p | o in s.job.value.outs && p in Pairs(c.target) ensures p.1 != o.number {
        OutputsStayUnused(s, ever, o, p);
      }
    }
  }

  // A flush committed beside a compaction takes no number of the compaction's outputs.
  lemma OutputsStayUnused(s: State, ever: set<(nat, nat)>, o: File, p: (nat, nat))
    requires Inv(s) && s.phase == Up && TraceInv(s, ever) && s.commit.Some? && !s.commit.value.written
    requires s.commit.value.kind.FlushCommit? && s.job.Some? && o in s.job.value.outs
    requires p in Pairs(s.commit.value.target)
    ensures p.1 != o.number
  {
    NotYetWritten(s);
    hide Inv;
    var l: nat, f :| l < NUM_LEVELS && f in s.commit.value.target[l] && p == (l, f.number);
    if f in s.tree[l] {
      assert p in Pairs(s.disk.manifest.tree) && Unused(ever, o.number);
    } else {
      assert s.flush == Built(f);
    }
  }

  lemma WriteKeepsTrace(s: State, s': State, step: Step, ever: set<(nat, nat)>)
    requires Inv(s) && NextStep(s, s', step) && step.WriteManifest? && TraceInv(s, ever)
    ensures TraceInv(s', ever + Pairs(s'.disk.manifest.tree))
  {
    WriteKeepsPending(s, s', ever);
    var ever', t' := ever + Pairs(s'.disk.manifest.tree), s'.disk.manifest.tree;
    forall p, l, f | p in ever' && 0 <= l < NUM_LEVELS && f in t'[l] && f.number == p.1 ensures p.0 <= l {
      WrittenPairs(s, s', ever, p, l, f);
    }
    forall p | p in ever' ensures p.1 < s'.disk.manifest.nextFile {
      if p in Pairs(t') {
        var g :| g in t'[p.0] && g.number == p.1;
        WrittenPairs(s, s', ever, p, p.0, g);
      }
    }
  }

  lemma StepKeepsTrace(s: State, s': State, step: Step, ever: set<(nat, nat)>)
    requires Inv(s) && NextStep(s, s', step) && TraceInv(s, ever)
    ensures TraceInv(s', ever + Pairs(s'.disk.manifest.tree))
  {
    hide Inv, NextStep, TraceInv;
    if step.WriteManifest? {
      WriteKeepsTrace(s, s', step, ever);
    } else {
      SameManifest(s, s', step, ever);
      match step
      case Build(_) => NewTableKeepsTrace(s, s', step, ever);
      case Produce(_) => NewTableKeepsTrace(s, s', step, ever);
      case PrepareFlush(_) => FlushPrepared(s, s', step, ever);
      case PrepareCompaction => CompactionPrepared(s, s', step, ever);
      case PrepareMove(_, _) => MovePrepared(s, s', step, ever);
      case Open(_, _, _) => OpenPrepared(s, s', step, ever);
      case Crash => CrashKeepsTrace(s, s', step, ever);
      case InstallVersion => InstallKeepsTrace(s, s', step, ever);
      case StartJob(_) => StartingKeepsTrace(s, s', step, ever);
      case BuildNothing => StartingKeepsTrace(s, s', step, ever);
      case _ =>
        QuietStep(s, s', step);
        QuietKeepsTrace(s, s', ever);
    }
  }

  lemma QuietKeepsTrace(s: State, s': State, ever: set<(nat, nat)>)
    requires TraceInv(s, ever) && s'.disk.manifest == s.disk.manifest && s'.tree == s.tree && s'.phase == s.phase
    requires s'.flush == s.flush && s'.job == s.job && s'.commit == s.commit
    ensures TraceInv(s', ever)
  {
  }

  lemma SameManifest(s: State, s': State, step: Step, ever: set<(nat, nat)>)
    requires NextStep(s, s', step) && !step.WriteManifest? && TraceInv(s, ever)
    ensures s'.disk.manifest == s.disk.manifest && ever + Pairs(s'.disk.manifest.tree) == ever
  {
  }

  // The steps that touch neither the manifest nor what is pending for it
  lemma QuietStep(s: State, s': State, step: Step)
    requires NextStep(s, s', step)
    requires step.Log? || step.Insert? || step.Ack? || step.Switch? || step.DeleteTable? || step.DeleteLog?
             || step.TakeSnapshot? || step.ReleaseSnapshot? || step.Pin? || step.Unpin?
    ensures s'.disk.manifest == s.disk.manifest && s'.tree == s.tree && s'.phase == s.phase
    ensures s'.flush == s.flush && s'.job == s.job && s'.commit == s.commit
  {
    hide Numbered, Numbers;
  }

  lemma CrashKeepsTrace(s: State, s': State, step: Step, ever: set<(nat, nat)>)
    requires NextStep(s, s', step) && step.Crash? && TraceInv(s, ever)
    ensures TraceInv(s', ever)
  {
    hide Pairs, PendingInv;
  }

  lemma InstallKeepsTrace(s: State, s': State, step: Step, ever: set<(nat, nat)>)
    requires Inv(s) && NextStep(s, s', step) && step.InstallVersion? && TraceInv(s, ever)
    ensures TraceInv(s', ever)
  {
    if s.phase == Opening {
      OpeningHasNoFlush(s);
    }
    hide Inv, Pairs, Arrives, Unused;
  }

  lemma StartingKeepsTrace(s: State, s': State, step: Step, ever: set<(nat, nat)>)
    requires NextStep(s, s', step) && (step.StartJob? || step.BuildNothing?) && TraceInv(s, ever)
    ensures TraceInv(s', ever)
  {
    hide IsOldest, Pairs, WellChosen, GapFree, Arrives, Unused;
  }

  lemma OpeningHasNoFlush(s: State)
    requires Inv(s) && s.phase == Opening
    ensures s.flush.NoFlush? && s.job.None?
  {
  }

  lemma {:induction false} RunKeepsTrace(run: seq<State>, steps: seq<Step>, i: nat)
    requires SafeRun(run, steps) && i < |run|
    ensures TraceInv(run[i], Ever(run, i))
  {
    hide Inv, NextStep, SparesJob, TraceInv;
    if i == 0 {
      InitTrace(run[0]);
    } else {
      RunKeepsTrace(run, steps, i - 1);
      RunKeepsInv(run, steps, i - 1);
      StepKeepsTrace(run[i - 1], run[i], steps[i - 1], Ever(run, i - 1));
      assert Ever(run, i) == Ever(run, i - 1) + Pairs(run[i].disk.manifest.tree);
    }
  }

  lemma InitTrace(s: State)
    requires Init(s)
    ensures TraceInv(s, Pairs(s.disk.manifest.tree) + {})
  {
  }

  // ---- The edits the code records

  // InstallCompactionResults: AddInputDeletions and one AddFile per output. A trivial move is
  // the same with its one file as input and output.
  ghost predicate IsCompactionEdit(e: VersionEdit, level: nat, in0: set<File>, in1: set<File>, outs: set<File>) {
    && level + 1 < NUM_LEVELS
    && (forall d :: d in e.deleted <==> (d.level == level && d.number in FileNumbers(in0))
                                        || (d.level == level + 1 && d.number in FileNumbers(in1)))
    && (forall a :: a in e.added ==> a.level == level + 1)
    && Added(e, level + 1) == outs
  }

  ghost predicate AddsOnly(e: VersionEdit, level: nat, files: set<File>) {
    && e.deleted == {} && (forall a :: a in e.added ==> a.level == level) && Added(e, level) == files
  }

  ghost predicate CodeEdit(s: State, step: Step, e: VersionEdit) {
    match step
    // WriteLevel0Table's AddFile
    case PrepareFlush(level) =>
      if s.flush.Built? then AddsOnly(e, level, {s.flush.file}) else e.deleted == {} && e.added == []
    case PrepareCompaction =>
      s.job.Some? && var job := s.job.value; IsCompactionEdit(e, job.level, job.in0, job.in1, job.outs)
    case PrepareMove(level, f) => IsCompactionEdit(e, level, {f}, {}, {f})
    case Open(parts, _, _) => AddsOnly(e, 0, Elems(parts))
    case _ => false
  }

  lemma InstallEditDescribes(t: Tree, e: VersionEdit, level: nat, in0: set<File>, in1: set<File>, outs: set<File>)
    requires IsCompactionEdit(e, level, in0, in1, outs) && in0 <= t[level] && in1 <= t[level + 1]
    requires outs !! t[level + 1]
    ensures Describes(e, t, Install(t, level, in0, in1, outs))
  {
    var t' := Install(t, level, in0, in1, outs);
    forall l: nat | l < NUM_LEVELS
      ensures Added(e, l) == t'[l] - t[l] && Deleted(e, l) == FileNumbers(t[l] - t'[l])
    {
      var inputs := if l == level then in0 else if l == level + 1 then in1 else {};
      assert t[l] - t'[l] == inputs;
      forall n ensures n in Deleted(e, l) <==> n in FileNumbers(inputs) {
        if n in FileNumbers(inputs) {
          assert DeletedFile(l, n) in e.deleted;
        }
      }
      assert Added(e, l) == if l == level + 1 then outs else {};
    }
  }

  lemma AddingEditDescribes(t: Tree, e: VersionEdit, level: nat, files: set<File>)
    requires level < NUM_LEVELS && AddsOnly(e, level, files) && files !! t[level]
    ensures Describes(e, t, t[level := t[level] + files])
  {
    var t': Tree := t[level := t[level] + files];
    forall l: nat | l < NUM_LEVELS
      ensures Added(e, l) == t'[l] - t[l] && Deleted(e, l) == FileNumbers(t[l] - t'[l])
    {
      assert Deleted(e, l) == {} && t[l] - t'[l] == {};
      assert Added(e, l) == if l == level then files else {};
    }
  }

  // A file whose number was never used stands nowhere yet.
  lemma UnusedIsAbsent(s: State, ever: set<(nat, nat)>, f: File, l: nat)
    requires TraceInv(s, ever) && Unused(ever, f.number) && l < NUM_LEVELS
    ensures f !in s.disk.manifest.tree[l]
  {
    var hint := (l, f.number) in Pairs(s.disk.manifest.tree);
  }

  lemma MovedIsNotBelow(s: State, level: nat, f: File)
    requires Inv(s) && s.phase == Up && level + 1 < NUM_LEVELS && f in s.tree[level]
    ensures f !in s.tree[level + 1]
  {
    if f in s.tree[level + 1] {
      NumberIdentifiesFile(s.disk.tables, s.tree, s.nextFile, level, level + 1, f, f);
    }
  }

  lemma FlushEditDescribes(s: State, s': State, step: Step, ever: set<(nat, nat)>, e: VersionEdit)
    requires Inv(s) && NextStep(s, s', step) && step.PrepareFlush? && TraceInv(s, ever) && CodeEdit(s, step, e)
    ensures Describes(e, s.tree, s'.commit.value.target)
  {
    NotYetWritten(s);
    hide Inv;
    if s.flush.Built? {
      UnusedIsAbsent(s, ever, s.flush.file, step.level);
      AddingEditDescribes(s.tree, e, step.level, {s.flush.file});
    } else {
      assert forall l :: 0 <= l < NUM_LEVELS ==> Added(e, l) == {} && Deleted(e, l) == {};
    }
  }

  lemma CompactionEditDescribes(s: State, s': State, step: Step, ever: set<(nat, nat)>, e: VersionEdit)
    requires Inv(s) && NextStep(s, s', step) && step.PrepareCompaction? && TraceInv(s, ever) && CodeEdit(s, step, e)
    ensures Describes(e, s.tree, s'.commit.value.target)
  {
    NotYetWritten(s);
    JobIsInstallable(s);
    hide Inv, Describes;
    var job := s.job.value;
    forall o | o in job.outs ensures o !in s.tree[job.level + 1] {
      UnusedIsAbsent(s, ever, o, job.level + 1);
    }
    InstallEditDescribes(s.tree, e, job.level, job.in0, job.in1, job.outs);
  }

  // The edit the code prepares says exactly how the version will change.
  lemma CodeEditDescribes(s: State, s': State, step: Step, ever: set<(nat, nat)>, e: VersionEdit)
    requires Inv(s) && NextStep(s, s', step) && TraceInv(s, ever) && CodeEdit(s, step, e)
    ensures s'.commit.Some? && s'.disk.manifest.tree == s.disk.manifest.tree
    ensures Describes(e, s'.disk.manifest.tree, s'.commit.value.target)
  {
    if step.PrepareFlush? {
      NotYetWritten(s);
      FlushEditDescribes(s, s', step, ever, e);
    } else if step.PrepareCompaction? {
      NotYetWritten(s);
      CompactionEditDescribes(s, s', step, ever, e);
    } else if step.PrepareMove? {
      NotYetWritten(s);
      MovedIsNotBelow(s, step.from, step.moved);
      hide Inv, Describes;
      InstallEditDescribes(s.tree, e, step.from, {step.moved}, {}, {step.moved});
    } else {
      hide Inv, Describes;
      RecoveredAreAbsent(s, step, ever);
      AddingEditDescribes(s.disk.manifest.tree, e, 0, Elems(step.parts));
    }
  }

  lemma RecoveredAreAbsent(s: State, step: Step, ever: set<(nat, nat)>)
    requires TraceInv(s, ever) && step.Open? && Recovered(s.disk, step.parts, step.newLog, step.openSeq)
    ensures Elems(step.parts) !! s.disk.manifest.tree[0]
  {
    forall f | f in Elems(step.parts) ensures f !in s.disk.manifest.tree[0] {
      var i :| 0 <= i < |step.parts| && step.parts[i] == f;
      UnusedIsAbsent(s, ever, f, 0);
    }
  }

  // ---- The manifest of a run

  // The edits a manifest begun at state `from` holds at state i.
  ghost predicate Records(run: seq<State>, steps: seq<Step>, from: nat, i: nat, edits: seq<VersionEdit>)
    requires from <= i < |run| == |steps| + 1
    decreases i
  {
    if i == from then edits == []
    else if steps[i - 1].WriteManifest? then
      && edits != [] && Records(run, steps, from, i - 1, edits[..|edits| - 1])
      && Describes(edits[|edits| - 1], run[i - 1].disk.manifest.tree, run[i].disk.manifest.tree)
    else Records(run, steps, from, i - 1, edits)
  }

  lemma ManifestStored(s: State)
    requires Inv(s)
    ensures TreeInv(s.disk.manifest.tree)
    ensures TreeStored(s.disk.tables, s.disk.manifest.tree, s.disk.manifest.nextFile)
  {
  }

  // What the edits of a manifest begun for v have used and made of it
  ghost predicate Faithful(ever: set<(nat, nat)>, t: Tree, v: Version, edits: seq<VersionEdit>) {
    && NeverReadded(v, edits)
    && (forall k, l, f :: 0 <= l < NUM_LEVELS && AddsAt(edits, k, l, f) ==> (l, f.number) in ever)
    && (forall l, f :: 0 <= l < NUM_LEVELS && f in v[l] ==> (l, f.number) in ever)
    && (forall l :: 0 <= l < NUM_LEVELS ==> ApplyEach(Elems(v[l]), edits, l) == t[l])
  }

  // An edit that adds only what was never listed there, each number once a level
  ghost predicate AddsNew(e: VersionEdit, ever: set<(nat, nat)>, ever': set<(nat, nat)>) {
    && (forall l, f :: 0 <= l < NUM_LEVELS && f in Added(e, l) ==> (l, f.number) !in ever && (l, f.number) in ever')
    && (forall l, f, g :: 0 <= l < NUM_LEVELS && f in Added(e, l) && g in Added(e, l) && f.number == g.number ==> f == g)
  }

  lemma ExtendNeverReadded(ever: set<(nat, nat)>, ever': set<(nat, nat)>, t: Tree, v: Version, edits: seq<VersionEdit>)
    requires edits != [] && Faithful(ever, t, v, edits[..|edits| - 1])
    requires ever <= ever' && AddsNew(edits[|edits| - 1], ever, ever')
    ensures NeverReadded(v, edits)
    ensures forall k, l, f :: 0 <= l < NUM_LEVELS && AddsAt(edits, k, l, f) ==> (l, f.number) in ever'
  {
    var n := |edits| - 1;
    forall l: nat, k: nat, f | l < NUM_LEVELS && AddsAt(edits, k, l, f)
      ensures k < n ==> AddsAt(edits[..n], k, l, f) && (l, f.number) in ever
      ensures k >= n ==> k == n && f in Added(edits[n], l)
    {
      assert k < n ==> AddsAt(edits[..n], k, l, f);
    }
  }

  lemma ExtendFaithful(ever: set<(nat, nat)>, ever': set<(nat, nat)>, t: Tree, t': Tree, v: Version,
                       edits: seq<VersionEdit>)
    requires edits != [] && Faithful(ever, t, v, edits[..|edits| - 1])
    requires ever <= ever' && AddsNew(edits[|edits| - 1], ever, ever')
    requires forall l :: 0 <= l < NUM_LEVELS ==> Edited(t[l], edits[|edits| - 1], l) == t'[l]
    ensures Faithful(ever', t', v, edits)
  {
    ExtendNeverReadded(ever, ever', t, v, edits);
    hide NeverReadded, AddsNew, Save, Collect, AddsAt;
  }

  lemma NextIsFaithful(s: State, s': State, step: Step, ever: set<(nat, nat)>, v: Version, edits: seq<VersionEdit>)
    requires Inv(s) && Inv(s') && NextStep(s, s', step) && step.WriteManifest? && TraceInv(s, ever) && edits != []
    requires Faithful(ever, s.disk.manifest.tree, v, edits[..|edits| - 1])
    requires Describes(edits[|edits| - 1], s.disk.manifest.tree, s'.disk.manifest.tree)
    ensures Faithful(ever + Pairs(s'.disk.manifest.tree), s'.disk.manifest.tree, v, edits)
  {
    var e, t, t' := edits[|edits| - 1], s.disk.manifest.tree, s'.disk.manifest.tree;
    ManifestStored(s);
    CommitAddsNew(s, s', step, ever, e);
    hide Inv, NextStep, TraceInv, TreeInv, TreeStored, Faithful, Edited, Pairs, Describes, AddsNew;
    forall l: nat | l < NUM_LEVELS ensures Edited(t[l], e, l) == t'[l] {
      NewNumbers(s, s', step, ever, l);
      DescribedApplies(s.disk.tables, t, s.disk.manifest.nextFile, e, t', l);
    }
    ExtendFaithful(ever, ever + Pairs(t'), t, t', v, edits);
  }

  lemma CommitAddsNew(s: State, s': State, step: Step, ever: set<(nat, nat)>, e: VersionEdit)
    requires Inv(s) && Inv(s') && NextStep(s, s', step) && step.WriteManifest? && TraceInv(s, ever)
    requires Describes(e, s.disk.manifest.tree, s'.disk.manifest.tree)
    ensures AddsNew(e, ever, ever + Pairs(s'.disk.manifest.tree))
  {
    ManifestStored(s');
    hide Inv, NextStep, TraceInv, TreeInv, TreeStored, Pairs, Added, Deleted;
    var t' := s'.disk.manifest.tree;
    forall l: nat, f | l < NUM_LEVELS && f in Added(e, l)
      ensures (l, f.number) !in ever && (l, f.number) in ever + Pairs(t')
    {
      NewPairOf(s, s', step, ever, l, f);
    }
    forall l: nat, f, g | l < NUM_LEVELS && f in Added(e, l) && g in Added(e, l) && f.number == g.number
      ensures f == g
    {
      NumberIdentifiesFile(s'.disk.tables, t', s'.disk.manifest.nextFile, l, l, f, g);
    }
  }

  lemma NewPairOf(s: State, s': State, step: Step, ever: set<(nat, nat)>, l: nat, f: File)
    requires Inv(s) && NextStep(s, s', step) && step.WriteManifest? && TraceInv(s, ever) && l < NUM_LEVELS
    requires f in s'.disk.manifest.tree[l] && f !in s.disk.manifest.tree[l]
    ensures (l, f.number) !in ever && (l, f.number) in Pairs(s'.disk.manifest.tree)
  {
    NewPairsAreNew(s, s', ever, l, f);
  }

  lemma NewNumbers(s: State, s': State, step: Step, ever: set<(nat, nat)>, l: nat)
    requires Inv(s) && NextStep(s, s', step) && step.WriteManifest? && TraceInv(s, ever) && l < NUM_LEVELS
    ensures var t, t' := s.disk.manifest.tree, s'.disk.manifest.tree;
            forall f, g :: f in t[l] && g in t'[l] && g !in t[l] ==> f.number != g.number
  {
    forall f, g | f in s.disk.manifest.tree[l] && g in s'.disk.manifest.tree[l] && g !in s.disk.manifest.tree[l]
      ensures f.number != g.number
    {
      NewPairsAreNew(s, s', ever, l, g);
      assert (l, f.number) in Pairs(s.disk.manifest.tree);
    }
  }

  lemma {:induction false} EditsAreFaithful(run: seq<State>, steps: seq<Step>, from: nat, i: nat, v: Version,
                                            edits: seq<VersionEdit>)
    requires SafeRun(run, steps) && from <= i < |run| == |steps| + 1 && Records(run, steps, from, i, edits)
    requires TreeOf(v) == run[from].disk.manifest.tree
    ensures Faithful(Ever(run, i), run[i].disk.manifest.tree, v, edits)
    decreases i
  {
    hide Inv, IsRun, Faithful, Describes, SparesJob, TraceInv, Ever, NextStep;
    EverNext(run, i);
    if i == from {
      BeginsFaithful(run[from].disk.manifest.tree, Ever(run, i), v);
    } else {
      RunKeepsInv(run, steps, i - 1);
      RunKeepsInv(run, steps, i);
      RunKeepsTrace(run, steps, i - 1);
      StepOf(run, steps, i - 1);
      if steps[i - 1].WriteManifest? {
        EditsAreFaithful(run, steps, from, i - 1, v, edits[..|edits| - 1]);
        NextIsFaithful(run[i - 1], run[i], steps[i - 1], Ever(run, i - 1), v, edits);
      } else {
        EditsAreFaithful(run, steps, from, i - 1, v, edits);
        SameManifest(run[i - 1], run[i], steps[i - 1], Ever(run, i - 1));
      }
    }
  }

  lemma EverNext(run: seq<State>, i: nat)
    requires i < |run|
    ensures Pairs(run[i].disk.manifest.tree) <= Ever(run, i)
    ensures i > 0 ==> Ever(run, i) == Ever(run, i - 1) + Pairs(run[i].disk.manifest.tree)
  {
  }

  lemma StepOf(run: seq<State>, steps: seq<Step>, i: nat)
    requires SafeRun(run, steps) && i + 1 < |run|
    ensures NextStep(run[i], run[i + 1], steps[i])
  {
    hide NextStep;
  }

  lemma BeginsFaithful(t: Tree, ever: set<(nat, nat)>, v: Version)
    requires TreeOf(v) == t && Pairs(t) <= ever
    ensures Faithful(ever, t, v, [])
  {
    forall l: nat, f | l < NUM_LEVELS && f in v[l] ensures (l, f.number) in ever {
      assert f in TreeOf(v)[l] && (l, f.number) in Pairs(t);
    }
    forall l: nat | l < NUM_LEVELS ensures Elems(v[l]) == t[l] {
      assert TreeOf(v)[l] == t[l];
    }
  }

  // In every run no edit adds a file again under a level and number the manifest has listed
  // before, so the manifest begun with version v restores at any later moment exactly the
  // vectors the database then had, and these are the manifest's tree of the store.
  lemma ManifestIsRestored(run: seq<State>, steps: seq<Step>, from: nat, i: nat, v: Version, edits: seq<VersionEdit>)
    requires SafeRun(run, steps) && from <= i < |run| && Records(run, steps, from, i, edits)
    requires SortedLevels(v) && TreeOf(v) == run[from].disk.manifest.tree
    ensures NeverReadded(v, edits) && NumbersDistinct(v)
    ensures Replay(EMPTY, [Snapshot(v)] + edits) == Chain(v, edits)
    ensures TreeOf(Chain(v, edits)) == run[i].disk.manifest.tree && VersionInv(Chain(v, edits))
  {
    EditsAreFaithful(run, steps, from, i, v, edits);
    RunKeepsInv(run, steps, from);
    RunKeepsInv(run, steps, i);
    ManifestStored(run[from]);
    ManifestStored(run[i]);
    hide *;
    NumbersStandOnce(run[from].disk.tables, run[from].disk.manifest.tree, run[from].disk.manifest.nextFile, v);
    FaithfulIsRestored(Ever(run, i), run[i].disk.manifest.tree, v, edits);
  }

  lemma FaithfulIsRestored(ever: set<(nat, nat)>, t: Tree, v: Version, edits: seq<VersionEdit>)
    requires Faithful(ever, t, v, edits) && SortedLevels(v) && NumbersDistinct(v) && TreeInv(t)
    ensures NeverReadded(v, edits)
    ensures Replay(EMPTY, [Snapshot(v)] + edits) == Chain(v, edits)
    ensures TreeOf(Chain(v, edits)) == t && VersionInv(Chain(v, edits))
  {
    ManifestRestoresVersion(v, edits);
    ChainMeaning(v, edits);
    hide TreeInv, NeverReadded, NumbersDistinct, VersionInv;
    var w := Chain(v, edits);
    assert forall l :: 0 <= l < NUM_LEVELS ==> TreeOf(w)[l] == t[l];
    SortedIsVersionInv(w);
  }

  lemma NumbersStandOnce(tables: map<nat, seq<Entry>>, t: Tree, limit: nat, v: Version)
    requires TreeInv(t) && TreeStored(tables, t, limit) && TreeOf(v) == t
    ensures NumbersDistinct(v)
  {
    forall l, f, g | 0 <= l < NUM_LEVELS && f in v[l] && g in v[l] && f.number == g.number ensures f == g {
      assert f in TreeOf(v)[l] && g in TreeOf(v)[l];
      NumberIdentifiesFile(tables, t, limit, l, l, f, g);
    }
  }
}
