/** DBImpl::Get over the memtables' sorted entries and the current version, and how the
    code's own choices supply the store's steps. */
module Reading {
  import opened InternalKeys
  import opened Versions
  import opened LevelRanges
  import opened Picking
  import opened Flushes

  // MemTable::Get: seek to the first entry not before the lookup key and check its user key.
  function MemTableGet(mem: seq<Entry>, key: UserKey, snapshot: SeqNo): (r: Option<Entry>)
    requires Sorted(mem)
    ensures r.Some? ==> IsNewest(Elems(mem), key, snapshot, r.value)
    ensures r.None? ==> forall x :: !Candidate(Elems(mem), key, snapshot, x)
  {
    var i := SeekIndex(mem, SeekKey(key, snapshot));
    if i < |mem| && mem[i].Key() == key then
      SeekKeySeparates(mem[i].ikey, key, snapshot);
      Some(mem[i])
    else
      None
  }

  // DBImpl::Get: the memtable, the frozen memtable, then the version.
  method DbGet(mem: seq<Entry>, imm: Option<seq<Entry>>, current: Version, key: UserKey, snapshot: SeqNo)
    returns (r: Option<Value>, seek: Option<Seek>)
    requires Sorted(mem) && (imm.Some? ==> Sorted(imm.value)) && VersionInv(current)
    requires var older := TreeEntries(TreeOf(current)) + if imm.Some? then Elems(imm.value) else {};
             UniqueSeqs(Elems(mem) + older)
             && forall a, b :: a in mem && b in older ==> a.Seq() > b.Seq()
    requires imm.Some? ==>
               forall a, b :: a in imm.value && b in TreeEntries(TreeOf(current)) ==> a.Seq() > b.Seq()
    ensures r == Lookup(Elems(mem) + (TreeEntries(TreeOf(current)) + if imm.Some? then Elems(imm.value) else {}),
                        key, snapshot)
    // A table is charged only when the search gets past both memtables.
    ensures forall p :: seek == Some(p) <==>
              Charged(current, key, snapshot, p)
              && (forall x :: !Candidate(Elems(mem), key, snapshot, x))
              && (imm.Some? ==> forall x :: !Candidate(Elems(imm.value), key, snapshot, x))
    ensures seek.Some? ==> seek.value.level + 1 < NUM_LEVELS && seek.value.file in current[seek.value.level]
  {
    ghost var tree := TreeEntries(TreeOf(current));
    ghost var frozen := if imm.Some? then Elems(imm.value) else {};
    LayeredNewest(Elems(mem), tree + frozen, key, snapshot);
    assert frozen + tree == tree + frozen;
    LayeredNewest(frozen, tree, key, snapshot);
    seek := None;
    var entry := MemTableGet(mem, key, snapshot);
    if entry.Some? {
      NewestIs(Elems(mem), key, snapshot, entry.value);
      return Seen(entry), seek;
    }
    if imm.Some? {
      entry := MemTableGet(imm.value, key, snapshot);
      if entry.Some? {
        NewestIs(frozen, key, snapshot, entry.value);
        return Seen(entry), seek;
      }
    }
    entry, seek := Get(current, key, snapshot);
    if entry.Some? {
      NewestIs(tree, key, snapshot, entry.value);
    }
    r := Seen(entry);
  }

  // The level PickLevelForMemTableOutput returns is one a flushed table may be placed on.
  method PlaceFlush(v: Version, f: File, targetFileSize: nat) returns (level: nat)
    requires VersionInv(v)
    ensures MayPlace(TreeOf(v), level, f)
  {
    level := PickLevelForMemTableOutput(v, Lo(f), Hi(f), targetFileSize);
    assert level > 0 ==> forall l, g :: 0 <= l <= level && g in TreeOf(v)[l] ==> !Meets(g, Lo(f), Hi(f)) by {
      if level > 0 {
        forall l, g | 0 <= l <= level && g in TreeOf(v)[l] ensures !Meets(g, Lo(f), Hi(f)) {
          assert ClearOf(v[l], Lo(f), Hi(f));
        }
      }
    }
  }
}
