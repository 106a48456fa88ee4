/** The write path keeps the store's invariant: group log writes, memtable inserts,
    acknowledgement, memtable switches, and readers' snapshots and pins. */
module StoreWrites {
  import opened InternalKeys
  import opened Versions
  import opened DropRule
  import opened Store
  import opened StoreInvariant
  import opened StoreSets

  lemma BatchIsAbove(s: State, batch: seq<Entry>)
    requires Numbered(batch, s.lastSeq)
    ensures forall e :: e in batch ==> e.Seq() > s.lastSeq
    ensures forall e, x :: e in batch && x in batch && e.Seq() == x.Seq() ==> e == x
  {
    forall e | e in batch ensures e.Seq() > s.lastSeq {
      var i :| 0 <= i < |batch| && batch[i] == e;
    }
    forall e, x | e in batch && x in batch && e.Seq() == x.Seq() ensures e == x {
      var i :| 0 <= i < |batch| && batch[i] == e;
      var j :| 0 <= j < |batch| && batch[j] == x;
    }
  }

  lemma LogKeepsDisk(s: State, s': State, batch: seq<Entry>)
    requires Inv(s) && LogStep(s, s', batch)
    ensures DiskInv(s')
  {
    var N := Elems(batch);
    var m := s.disk.manifest;
    BatchIsAbove(s, batch);
    assert s.Inflight() == {} && s.Written() == s.history && s'.Written() == s.history + N;
    LogEntriesAppend(s.disk.logs, s.logFile, batch, m.logNumber);
    assert m.logNumber <= s.logFile;
    assert Durable(s'.disk) == Durable(s.disk) + N;
    if s.clean {
      ExtendReads(Durable(s.disk), s.history, N, s.horizon);
    }
  }

  lemma LogKeepsData(s: State, s': State, batch: seq<Entry>)
    requires Inv(s) && LogStep(s, s', batch)
    ensures LogsInv(s') && ReadsInv(s')
  {
    var N := Elems(batch);
    BatchIsAbove(s, batch);
    assert s.Inflight() == {} && s.Written() == s.history && s'.Inflight() == N;
    LogEntriesAppend(s.disk.logs, s.logFile, batch, s.logFile);
    LogEntriesAppend(s.disk.logs, s.logFile, batch, s.logNumber);
    assert s.Contents() + s.Inflight() == s.Contents();
    assert UniqueSeqs(s.history + N) && UniqueSeqs(s.Contents() + N);
    if s.clean {
      ExtendReads(s.Contents(), s.history, N, s.horizon);
    }
  }

  lemma LogKeepsFiles(s: State, s': State, batch: seq<Entry>)
    requires Inv(s) && LogStep(s, s', batch)
    ensures FilesInv(s') && ManifestInv(s') && FlushInv(s') && JobInv(s') && CommitInv(s')
  {
  }

  lemma LogKeepsOrder(s: State, s': State, batch: seq<Entry>)
    requires Inv(s) && LogStep(s, s', batch)
    ensures OrderInv(s')
  {
    BatchIsAbove(s, batch);
    assert s.Inflight() == {} && s.Written() == s.history && s'.Inflight() == Elems(batch);
    assert forall e :: e in TreeEntries(s.tree) ==> e in s.Contents();
  }

  lemma LogKeepsInv(s: State, s': State, batch: seq<Entry>)
    requires Inv(s) && LogStep(s, s', batch)
    ensures s'.phase == Up && DiskInv(s') && UpInv(s')
  {
    LogKeepsDisk(s, s', batch);
    LogKeepsData(s, s', batch);
    LogKeepsOrder(s, s', batch);
    LogKeepsFiles(s, s', batch);
  }

  lemma InsertKeepsInv(s: State, s': State, e: Entry)
    requires Inv(s) && InsertStep(s, s', e)
    ensures s'.phase == Up && DiskInv(s') && UpInv(s')
  {
    InsertKeepsData(s, s', e);
  }

  lemma InsertKeepsData(s: State, s': State, e: Entry)
    requires Inv(s) && InsertStep(s, s', e)
    ensures DiskInv(s') && LogsInv(s') && OrderInv(s') && ReadsInv(s')
  {
    assert s'.mem + s'.Inflight() == s.mem + s.Inflight();
    assert s'.Contents() + s'.Inflight() == s.Contents() + s.Inflight();
    assert s'.Written() == s.Written();
  }

  lemma AckKeepsInv(s: State, s': State)
    requires Inv(s) && AckStep(s, s')
    ensures s'.phase == Up && DiskInv(s') && UpInv(s')
  {
    BatchIsAbove(s, s.inflight);
    assert s'.Inflight() == {};
    assert s'.mem + s'.Inflight() == s.mem + s.Inflight();
    assert s'.Contents() + s'.Inflight() == s.Contents() + s.Inflight();
    assert s'.Written() == s.Written();
    forall e | e in s.inflight ensures e.Seq() <= s'.lastSeq {
      var i :| 0 <= i < |s.inflight| && s.inflight[i] == e;
    }
  }

  lemma SwitchKeepsInv(s: State, s': State)
    requires Inv(s) && SwitchStep(s, s')
    ensures s'.phase == Up && DiskInv(s') && UpInv(s')
  {
    SwitchKeepsFiles(s, s');
    SwitchKeepsData(s, s');
  }

  lemma SwitchKeepsData(s: State, s': State)
    requires Inv(s) && SwitchStep(s, s')
    ensures DiskInv(s') && LogsInv(s') && OrderInv(s') && ReadsInv(s')
  {
    assert s.Inflight() == {} && s'.Written() == s.Written() == s.history;
    assert s.Imm() == {} && s'.Imm() == s.mem;
    LogEntriesFresh(s.disk.logs, s.nextFile, s.logNumber);
    LogEntriesFresh(s.disk.logs, s.nextFile, s.disk.manifest.logNumber);
    assert Durable(s'.disk) == Durable(s.disk);
    assert s'.Contents() + s'.Inflight() == s.Contents() + s.Inflight();
  }

  lemma SwitchKeepsFiles(s: State, s': State)
    requires Inv(s) && SwitchStep(s, s')
    ensures FilesInv(s') && ManifestInv(s') && FlushInv(s') && JobInv(s') && CommitInv(s')
  {
    StoredLater(s.disk.tables, s.tree, s.nextFile, s'.nextFile);
    forall t | t in s.pins ensures TreeStored(s.disk.tables, t, s'.nextFile) {
      StoredLater(s.disk.tables, t, s.nextFile, s'.nextFile);
    }
  }

  lemma SnapshotKeepsInv(s: State, s': State, snapshot: SeqNo)
    requires Inv(s) && (SnapshotStep(s, s') || ReleaseStep(s, s', snapshot))
    ensures s'.phase == Up && DiskInv(s') && UpInv(s')
  {
    hide TreeInv, TreeStored, ReadsSame, LogEntries, SeqBelow, AtMost, Numbered, JobFits, FileStored, DiskFiles,
      DiskContents, TreeEntries, Elems;
    assert forall x :: x in s'.snapshots ==> x in s.snapshots || x == s.lastSeq;
  }

  lemma PinKeepsInv(s: State, s': State, t: Tree)
    requires Inv(s) && (PinStep(s, s') || UnpinStep(s, s', t))
    ensures s'.phase == Up && DiskInv(s') && UpInv(s')
  {
  }
}
