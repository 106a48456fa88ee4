/** Facts about logs, stored tables and reads that the store's steps share. */
module StoreSets {
  import opened InternalKeys
  import opened Versions
  import opened DropRule
  import opened Flushes
  import opened Store
  import opened StoreInvariant

  lemma LogEntriesAppend(logs: map<nat, seq<Entry>>, n: nat, batch: seq<Entry>, from: nat)
    requires n in logs
    ensures LogEntries(logs[n := logs[n] + batch], from)
         == LogEntries(logs, from) + if n >= from then Elems(batch) else {}
  {
    var logs' := logs[n := logs[n] + batch];
    forall e ensures e in LogEntries(logs', from)
               <==> e in LogEntries(logs, from) + if n >= from then Elems(batch) else {}
    {
      if e in LogEntries(logs', from) {
        var k :| k in logs' && k >= from && e in logs'[k];
        assert k == n || e in logs[k];
      }
      if e in LogEntries(logs, from) {
        var k :| k in logs && k >= from && e in logs[k];
        assert k in logs' && e in logs'[k];
      }
      if e in batch && n >= from {
        assert n in logs' && e in logs'[n];
      }
    }
  }

  lemma LogEntriesFresh(logs: map<nat, seq<Entry>>, n: nat, from: nat)
    requires forall k :: k in logs ==> k < n
    ensures LogEntries(logs[n := []], from) == LogEntries(logs, from)
    ensures LogEntries(logs[n := []], n) == {}
  {
    var logs' := logs[n := []];
    forall e | e in LogEntries(logs, from) ensures e in LogEntries(logs', from) {
      var k :| k in logs && k >= from && e in logs[k];
      assert k in logs' && e in logs'[k];
    }
  }

  lemma LogEntriesDelete(logs: map<nat, seq<Entry>>, n: nat, from: nat)
    requires n < from
    ensures LogEntries(logs - {n}, from) == LogEntries(logs, from)
  {
    forall e | e in LogEntries(logs, from) ensures e in LogEntries(logs - {n}, from) {
      var k :| k in logs && k >= from && e in logs[k];
      assert k in logs - {n} && e in (logs - {n})[k];
    }
  }

  // Writing a table under a fresh number disturbs no stored version.
  lemma StoredAfterNewTable(tables: map<nat, seq<Entry>>, t: Tree, limit: nat, n: nat, entries: seq<Entry>, limit': nat)
    requires TreeStored(tables, t, limit) && limit <= n && limit <= limit'
    ensures TreeStored(tables[n := entries], t, limit')
  {
    forall l, f | 0 <= l < NUM_LEVELS && f in t[l] ensures FileStored(tables[n := entries], f, limit') {
      assert FileStored(tables, f, limit);
    }
  }

  lemma StoredLater(tables: map<nat, seq<Entry>>, t: Tree, limit: nat, limit': nat)
    requires TreeStored(tables, t, limit) && limit <= limit'
    ensures TreeStored(tables, t, limit')
  {
    forall l, f | 0 <= l < NUM_LEVELS && f in t[l] ensures FileStored(tables, f, limit') {
      assert FileStored(tables, f, limit);
    }
  }

  // Adding the same newer entries on both sides keeps reads equal.
  lemma ExtendReads(E: set<Entry>, F: set<Entry>, N: set<Entry>, from: SeqNo)
    requires ReadsSame(E, F, from) && UniqueSeqs(E + N) && UniqueSeqs(F + N)
    requires SeqBelow(E, N) && SeqBelow(F, N)
    ensures ReadsSame(E + N, F + N, from)
  {
    forall key, snapshot: SeqNo | snapshot >= from
      ensures Lookup(E + N, key, snapshot) == Lookup(F + N, key, snapshot)
    {
      assert N + E == E + N && N + F == F + N;
      LayeredNewest(N, E, key, snapshot);
      LayeredNewest(N, F, key, snapshot);
      assert Lookup(E, key, snapshot) == Lookup(F, key, snapshot);
    }
  }

  lemma ReadsCompose(E: set<Entry>, F: set<Entry>, G: set<Entry>, from: SeqNo, from': SeqNo, later: SeqNo)
    requires ReadsSame(E, F, from) && ReadsSame(F, G, from') && from <= later && from' <= later
    ensures ReadsSame(E, G, later)
  {
  }

  lemma UniqueSubset(E: set<Entry>, F: set<Entry>)
    requires UniqueSeqs(F) && E <= F
    ensures UniqueSeqs(E)
  {
  }

  lemma AddFileEntries(t: Tree, level: nat, f: File)
    requires level < NUM_LEVELS
    ensures TreeEntries(AddFile(t, level, f)) == TreeEntries(t) + Elems(f.entries)
  {
    var t' := AddFile(t, level, f);
    forall e ensures e in TreeEntries(t') <==> e in TreeEntries(t) + Elems(f.entries) {
      if e in TreeEntries(t') {
        var l, g :| 0 <= l < NUM_LEVELS && g in t'[l] && e in g.entries;
        assert g in t[l] || g == f;
      } else {
        assert f in t'[level] && forall l, g :: 0 <= l < NUM_LEVELS && g in t[l] ==> g in t'[l];
      }
    }
  }

  // A table of strictly later entries is newer than the whole tree and not part of it.
  lemma LaterTableIsNewer(t: Tree, f: File)
    requires SeqBelow(TreeEntries(t), Elems(f.entries))
    ensures NewerThanTree(f, t) && forall l :: 0 <= l < NUM_LEVELS ==> f !in t[l]
  {
    forall l, g, x | 0 <= l < NUM_LEVELS && g in t[l] && x in g.entries ensures x in TreeEntries(t) {
    }
    var e := f.entries[0];
    assert e in Elems(f.entries);
    forall l | 0 <= l < NUM_LEVELS ensures f !in t[l] {
      assert f in t[l] ==> e in TreeEntries(t);
    }
  }

  lemma LogOrderAppend(logs: map<nat, seq<Entry>>, n: nat, batch: seq<Entry>, bound: SeqNo)
    requires LogOrder(logs) && n in logs && (forall k :: k in logs ==> k <= n)
    requires AtMost(LogEntries(logs, 0), bound) && Numbered(batch, bound)
    ensures LogOrder(logs[n := logs[n] + batch])
  {
    var logs': map<nat, seq<Entry>> := logs[n := logs[n] + batch];
    forall k: nat, m: nat, i, j | k in logs' && m in logs' && 0 <= i < |logs'[k]| && 0 <= j < |logs'[m]|
                        && (k < m || (k == m && i < j))
      ensures logs'[k][i].Seq() < logs'[m][j].Seq()
    {
      if m == n && j >= |logs[n]| {
        if k < n || i < |logs[n]| {
          assert k in logs && logs'[k][i] == logs[k][i] && logs[k][i] in logs[k];
          assert logs[k][i] in LogEntries(logs, 0);
        }
      }
    }
  }
}
