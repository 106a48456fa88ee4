/** Committing edits, deleting obsolete files, crashing and reopening keep the store's invariant. */
module StoreCommits {
  import opened InternalKeys
  import opened Versions
  import opened Picking
  import opened DropRule
  import opened Compactions
  import opened Flushes
  import opened Store
  import opened StoreInvariant
  import opened StoreSets

  // ---- The manifest write of a running database

  // The entries no table of the version being committed holds yet.
  ghost function Unflushed(s: State): set<Entry> {
    s.Imm() + (s.mem + s.Inflight())
  }

  lemma ContentsSplit(s: State)
    ensures s.Contents() + s.Inflight() == TreeEntries(s.tree) + Unflushed(s)
  {
  }

  // A committed compaction reads as the version it replaces, memtables included.
  lemma CompactedReads(s: State)
    requires Inv(s) && s.phase == Up && s.commit.Some? && s.commit.value.kind.CompactionCommit?
    requires s.clean && !s.commit.value.exposes
    ensures ReadsSame(TreeEntries(s.commit.value.target) + Unflushed(s), s.Written(), Max(s.horizon, s.commit.value.horizon))
  {
    var c := s.commit.value;
    ContentsSplit(s);
    UniqueSubset(TreeEntries(c.target) + Unflushed(s), s.Written());
    UniqueSubset(TreeEntries(s.tree) + Unflushed(s), s.Written());
    ExtendReads(TreeEntries(c.target), TreeEntries(s.tree), Unflushed(s), c.horizon);
    ReadsCompose(TreeEntries(c.target) + Unflushed(s), TreeEntries(s.tree) + Unflushed(s), s.Written(),
                 c.horizon, s.horizon, Max(s.horizon, c.horizon));
  }

  lemma ManifestDurable(s: State, s': State)
    requires Inv(s) && s.phase == Up && WriteManifestStep(s, s')
    ensures var c := s.commit.value;
            && Durable(s'.disk) == TreeEntries(c.target) + LogEntries(s.disk.logs, c.logNumber)
            && Durable(s'.disk) <= s.Written()
            && SeqBelow(TreeEntries(c.target), LogEntries(s.disk.logs, c.logNumber))
            && (c.kind.CompactionCommit? ==> Durable(s'.disk) == TreeEntries(c.target) + Unflushed(s))
            && (!c.kind.CompactionCommit? ==> Durable(s'.disk) == s.Contents() + s.Inflight())
  {
    ContentsSplit(s);
  }

  lemma ManifestNumbers(s: State, s': State, e: Entry)
    requires Inv(s) && s.phase == Up && WriteManifestStep(s, s')
    requires e in s.Written() && e !in LogEntries(s.disk.logs, s.commit.value.logNumber)
    ensures e.Seq() <= s.commit.value.lastSeq
  {
  }

  lemma WriteManifestKeepsDisk(s: State, s': State)
    requires Inv(s) && s.phase == Up && WriteManifestStep(s, s')
    ensures DiskInv(s')
  {
    var c := s.commit.value;
    ManifestDurable(s, s');
    assert s'.Written() == s.Written();
    forall e | e in s.Written() && e !in LogEntries(s.disk.logs, c.logNumber) ensures e.Seq() <= c.lastSeq {
      ManifestNumbers(s, s', e);
    }
    if s'.clean && c.kind.CompactionCommit? {
      CompactedReads(s);
    }
  }

  lemma WriteManifestKeepsUp(s: State, s': State)
    requires Inv(s) && s.phase == Up && WriteManifestStep(s, s')
    ensures UpInv(s')
  {
    assert s'.Written() == s.Written() && s'.Inflight() == s.Inflight() && s'.Imm() == s.Imm();
    assert s'.Contents() == s.Contents();
  }

  // ---- Installing the committed version

  lemma InstallFlushKeepsData(s: State, s': State)
    requires Inv(s) && s.phase == Up && InstallStep(s, s') && s.commit.value.kind.FlushCommit?
    ensures DiskInv(s') && LogsInv(s') && OrderInv(s') && ReadsInv(s')
  {
    assert s'.Written() == s.Written() && s'.Inflight() == s.Inflight() && s'.Imm() == {};
    assert s'.Contents() == s.Contents();
    assert s'.Imm() + (s'.mem + s'.Inflight()) == s.mem + s.Inflight();
  }

  lemma InstallCompactionKeepsData(s: State, s': State)
    requires Inv(s) && s.phase == Up && InstallStep(s, s') && !s.commit.value.kind.FlushCommit?
    ensures DiskInv(s') && LogsInv(s') && OrderInv(s') && ReadsInv(s')
  {
    assert s'.Written() == s.Written() && s'.Inflight() == s.Inflight() && s'.Imm() == s.Imm();
    ContentsSplit(s');
    assert Unflushed(s') == Unflushed(s);
    if s.clean && s.commit.value.kind.CompactionCommit? {
      CompactedReads(s);
    } else {
      ContentsSplit(s);
    }
  }

  lemma InstallKeepsFiles(s: State, s': State)
    requires Inv(s) && s.phase == Up && InstallStep(s, s')
    ensures FilesInv(s') && ManifestInv(s') && FlushInv(s') && JobInv(s') && CommitInv(s')
  {
    var c := s.commit.value;
    StoredLater(s.disk.tables, c.target, c.nextFile, s.nextFile);
  }

  // ---- Obsolete files

  lemma DeleteTableKeepsInv(s: State, s': State, n: nat)
    requires Inv(s) && DeleteTableStep(s, s', n)
    ensures s'.phase == Up && DiskInv(s') && UpInv(s')
  {
    StoredWithout(s.disk.tables, s.tree, s.nextFile, n);
    StoredWithout(s.disk.tables, s.disk.manifest.tree, s.disk.manifest.nextFile, n);
    forall t | t in s.pins ensures TreeStored(s'.disk.tables, t, s.nextFile) {
      StoredWithout(s.disk.tables, t, s.nextFile, n);
    }
    if s.job.Some? {
      forall o | o in s.job.value.outs ensures FileStored(s'.disk.tables, o, s.nextFile) {
        assert FileStored(s.disk.tables, o, s.nextFile) && o.number in s.pending;
      }
    }
  }

  lemma StoredWithout(tables: map<nat, seq<Entry>>, t: Tree, limit: nat, n: nat)
    requires TreeStored(tables, t, limit) && n !in Numbers(t)
    ensures TreeStored(tables - {n}, t, limit)
  {
    forall l, f | 0 <= l < NUM_LEVELS && f in t[l] ensures FileStored(tables - {n}, f, limit) {
      assert FileStored(tables, f, limit) && f.number in Numbers(t);
    }
  }

  lemma DeleteLogKeepsInv(s: State, s': State, n: nat)
    requires Inv(s) && DeleteLogStep(s, s', n)
    ensures s'.phase == Up && DiskInv(s') && UpInv(s')
  {
    LogEntriesDelete(s.disk.logs, n, s.logNumber);
    LogEntriesDelete(s.disk.logs, n, s.logFile);
    assert s'.Inflight() == s.Inflight() && s'.Imm() == s.Imm() && s'.Written() == s.Written();
    assert s'.Contents() == s.Contents();
  }

  // ---- Crash and reopening

  lemma CrashKeepsInv(s: State, s': State)
    requires Inv(s) && CrashStep(s, s')
    ensures Inv(s')
  {
    assert s'.Written() == s.Written();
  }

  lemma {:induction false} WithTablesStores(tables: map<nat, seq<Entry>>, parts: seq<File>, n: nat)
    requires forall i, j :: 0 <= i < j < |parts| ==> parts[i].number < parts[j].number
    ensures (forall i :: 0 <= i < |parts| ==> parts[i].number != n) ==>
              (n in WithTables(tables, parts) <==> n in tables)
              && (n in tables ==> WithTables(tables, parts)[n] == tables[n])
    ensures forall i :: 0 <= i < |parts| && parts[i].number == n ==>
              n in WithTables(tables, parts) && WithTables(tables, parts)[n] == parts[i].entries
  {
    if parts != [] {
      WithTablesStores(tables, parts[..|parts| - 1], n);
    }
  }

  lemma RecoveredAreNewer(t: Tree, parts: seq<File>, logged: set<Entry>, f: File)
    requires Replayed(parts, logged) && SeqBelow(TreeEntries(t), logged) && f in parts
    ensures NewerThanTree(f, t)
  {
    forall e | e in f.entries ensures e in logged {
      assert f in Elems(parts) && e in FilesEntries(Elems(parts));
    }
    forall l, g, x | 0 <= l < NUM_LEVELS && g in t[l] && x in g.entries ensures x in TreeEntries(t) {
    }
  }

  lemma RecoveredPair(parts: seq<File>, logged: set<Entry>, f: File, g: File)
    requires Replayed(parts, logged) && f in parts && g in parts
    ensures f.number > g.number ==> Newer(f, g)
    ensures f.number == g.number ==> f == g
  {
    var i :| 0 <= i < |parts| && parts[i] == f;
    var j :| 0 <= j < |parts| && parts[j] == g;
    assert i < j || j < i || i == j;
  }

  // The recovered tables go to level 0 above everything the manifest lists.
  lemma RecoveredTreeInv(t: Tree, parts: seq<File>, logged: set<Entry>, limit: nat)
    requires TreeInv(t) && Replayed(parts, logged) && SeqBelow(TreeEntries(t), logged)
    requires forall l, f :: 0 <= l < NUM_LEVELS && f in t[l] ==> f.number < limit
    requires forall i :: 0 <= i < |parts| ==> limit <= parts[i].number
    ensures TreeInv(t[0 := t[0] + Elems(parts)])
  {
    var t': Tree := t[0 := t[0] + Elems(parts)];
    forall f | f in parts ensures NewerThanTree(f, t) && f.number >= limit {
      RecoveredAreNewer(t, parts, logged, f);
    }
    forall f, g | f in t'[0] && g in t'[0]
      ensures f.number > g.number ==> Newer(f, g)
      ensures f.number == g.number ==> f == g
    {
      if f in parts && g in parts {
        RecoveredPair(parts, logged, f, g);
      }
    }
    assert LevelZeroInv(t'[0]);
    assert Recency(t');
  }

  lemma RecoveredEntries(t: Tree, parts: seq<File>, logged: set<Entry>)
    requires Replayed(parts, logged)
    ensures TreeEntries(t[0 := t[0] + Elems(parts)]) == TreeEntries(t) + logged
  {
    var t': Tree := t[0 := t[0] + Elems(parts)];
    forall e ensures e in TreeEntries(t') <==> e in TreeEntries(t) + FilesEntries(Elems(parts)) {
      if e in TreeEntries(t') {
        var l, f :| 0 <= l < NUM_LEVELS && f in t'[l] && e in f.entries;
        assert f in t[l] || f in Elems(parts);
      } else {
        assert forall l, f :: 0 <= l < NUM_LEVELS && f in t[l] ==> f in t'[l];
        assert forall f :: f in Elems(parts) ==> f in t'[0];
      }
    }
  }

  lemma RecoveredStored(tables: map<nat, seq<Entry>>, t: Tree, parts: seq<File>, logged: set<Entry>,
                        limit: nat, newLimit: nat)
    requires TreeStored(tables, t, limit) && limit < newLimit && Replayed(parts, logged)
    requires forall i :: 0 <= i < |parts| ==> limit < parts[i].number < newLimit
    ensures TreeStored(WithTables(tables, parts), t, limit)
    ensures TreeStored(WithTables(tables, parts), t[0 := t[0] + Elems(parts)], newLimit)
  {
    var tables' := WithTables(tables, parts);
    forall l, f | 0 <= l < NUM_LEVELS && f in t[l] ensures FileStored(tables', f, limit) {
      assert FileStored(tables, f, limit);
      WithTablesStores(tables, parts, f.number);
    }
    var t': Tree := t[0 := t[0] + Elems(parts)];
    forall l, f | 0 <= l < NUM_LEVELS && f in t'[l] ensures FileStored(tables', f, newLimit) {
      if f in t[l] {
        assert FileStored(tables', f, limit);
      } else {
        var i :| 0 <= i < |parts| && parts[i] == f;
        WithTablesStores(tables, parts, f.number);
      }
    }
  }

  lemma OpenKeepsDisk(s: State, s': State, parts: seq<File>, newLog: nat, lastSeq: SeqNo)
    requires Inv(s) && OpenStep(s, s', parts, newLog, lastSeq)
    ensures DiskInv(s')
  {
    var m := s.disk.manifest;
    LogEntriesFresh(s.disk.logs, newLog, m.logNumber);
    RecoveredStored(s.disk.tables, m.tree, parts, LogEntries(s.disk.logs, m.logNumber), m.nextFile, newLog + 1);
    assert s'.Written() == s.Written() && Durable(s'.disk) == Durable(s.disk);
  }

  lemma RecoveredTarget(d: Disk, parts: seq<File>, newLog: nat)
    requires DiskFiles(d) && Replayed(parts, LogEntries(d.logs, d.manifest.logNumber))
    requires SeqBelow(TreeEntries(d.manifest.tree), LogEntries(d.logs, d.manifest.logNumber))
    requires d.manifest.nextFile < newLog
    requires forall i :: 0 <= i < |parts| ==> d.manifest.nextFile < parts[i].number < newLog
    ensures var t: Tree := d.manifest.tree[0 := d.manifest.tree[0] + Elems(parts)];
            TreeInv(t) && TreeStored(WithTables(d.tables, parts), t, newLog + 1) && TreeEntries(t) == Durable(d)
  {
    hide TreeInv, SeqBelow, Replayed;
    var m, logged := d.manifest, LogEntries(d.logs, d.manifest.logNumber);
    forall l, f | 0 <= l < NUM_LEVELS && f in m.tree[l] ensures f.number < m.nextFile {
      assert FileStored(d.tables, f, m.nextFile);
    }
    RecoveredTreeInv(m.tree, parts, logged, m.nextFile);
    RecoveredEntries(m.tree, parts, logged);
    RecoveredStored(d.tables, m.tree, parts, logged, m.nextFile, newLog + 1);
  }

  lemma OpenKeepsOpening(s: State, s': State, parts: seq<File>, newLog: nat, lastSeq: SeqNo)
    requires Inv(s) && OpenStep(s, s', parts, newLog, lastSeq)
    ensures OpeningInv(s')
  {
    var m := s.disk.manifest;
    LogEntriesFresh(s.disk.logs, newLog, m.logNumber);
    RecoveredTarget(s.disk, parts, newLog);
    assert s.Written() == s.history;
  }

  lemma CurrentLogIsEmpty(s: State)
    requires s.logFile in s.disk.logs && s.disk.logs[s.logFile] == []
    requires forall n :: n in s.disk.logs ==> n <= s.logFile
    ensures LogEntries(s.disk.logs, s.logFile) == {}
  {
  }

  lemma OpeningManifestKeepsInv(s: State, s': State)
    requires Inv(s) && s.phase == Opening && WriteManifestStep(s, s')
    ensures DiskInv(s') && OpeningInv(s')
  {
    CurrentLogIsEmpty(s);
    assert s'.Written() == s.Written() == s.history;
    assert Durable(s'.disk) == TreeEntries(s.commit.value.target);
  }

  lemma OpeningInstallKeepsInv(s: State, s': State)
    requires Inv(s) && s.phase == Opening && InstallStep(s, s')
    ensures DiskInv(s') && UpInv(s')
  {
    CurrentLogIsEmpty(s);
    assert s'.Written() == s.Written() == s.history && s'.Inflight() == {} && s'.Imm() == {};
    assert Durable(s.disk) == TreeEntries(s.commit.value.target) == s'.Contents();
    assert s'.Contents() + s'.Inflight() == s'.Contents();
  }

  // ---- The phases together

  lemma WriteManifestKeepsInv(s: State, s': State)
    requires Inv(s) && WriteManifestStep(s, s')
    ensures Inv(s')
  {
    if s.phase == Up {
      WriteManifestKeepsDisk(s, s');
      WriteManifestKeepsUp(s, s');
    } else {
      OpeningManifestKeepsInv(s, s');
    }
  }

  lemma InstallKeepsInv(s: State, s': State)
    requires Inv(s) && InstallStep(s, s')
    ensures Inv(s')
  {
    if s.phase == Opening {
      OpeningInstallKeepsInv(s, s');
    } else {
      InstallKeepsFiles(s, s');
      if s.commit.value.kind.FlushCommit? {
        InstallFlushKeepsData(s, s');
      } else {
        InstallCompactionKeepsData(s, s');
      }
    }
  }

  lemma OpenKeepsInv(s: State, s': State, parts: seq<File>, newLog: nat, lastSeq: SeqNo)
    requires Inv(s) && OpenStep(s, s', parts, newLog, lastSeq)
    ensures Inv(s')
  {
    OpenKeepsDisk(s, s', parts, newLog, lastSeq);
    OpenKeepsOpening(s, s', parts, newLog, lastSeq);
  }
}
