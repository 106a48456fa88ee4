/** The manifest's records: what VersionSet::LogAndApply writes is what VersionSet::Recover
    reads back, version and counters. */
module ManifestRecords {
  import opened InternalKeys
  import opened Versions
  import opened Coding
  import opened Manifest
  import Wire = VersionEdits

  // An edit as its constructor leaves it
  const BLANK := Wire.Edit(None, None, None, None, None, [], {}, [])

  // ---- From encoded edits to changes of files

  // A record lists a table by its number, its size and its bounds as encoded internal keys.
  ghost predicate Lists(code: InternalKey -> Bytes, m: Wire.NewFile, f: File) {
    m.number == f.number && m.size == f.size && m.smallest == code(Smallest(f)) && m.largest == code(Largest(f))
  }

  ghost predicate Denotes(code: InternalKey -> Bytes, x: Wire.Edit, e: VersionEdit) {
    && (forall d :: d in x.deletedFiles <==> DeletedFile(d.0, d.1) in e.deleted)
    && (forall d :: d in e.deleted ==> d.number < LONG_LIMIT)
    && |x.newFiles| == |e.added|
    && forall i :: 0 <= i < |e.added| ==>
         x.newFiles[i].0 == e.added[i].level && Lists(code, x.newFiles[i].1, e.added[i].file)
  }

  // Every table a record adds is the one of that number.
  ghost predicate Named(code: InternalKey -> Bytes, tables: map<nat, File>, x: Wire.Edit) {
    forall i :: 0 <= i < |x.newFiles| ==>
      x.newFiles[i].1.number in tables && Lists(code, x.newFiles[i].1, tables[x.newFiles[i].1.number])
  }

  function Resolve(ghost code: InternalKey -> Bytes, tables: map<nat, File>, x: Wire.Edit): VersionEdit
    requires Named(code, tables, x)
  {
    VersionEdit(set d | d in x.deletedFiles :: DeletedFile(d.0, d.1),
                seq(|x.newFiles|, i requires 0 <= i < |x.newFiles| =>
                  NewFile(x.newFiles[i].0, tables[x.newFiles[i].1.number])))
  }

  lemma ResolvesToDenoted(code: InternalKey -> Bytes, tables: map<nat, File>, x: Wire.Edit, e: VersionEdit)
    requires Denotes(code, x, e)
    requires forall a :: a in e.added ==> a.file.number in tables && tables[a.file.number] == a.file
    ensures Named(code, tables, x) && Resolve(code, tables, x) == e
  {
    forall i | 0 <= i < |x.newFiles|
      ensures x.newFiles[i].1.number in tables && tables[x.newFiles[i].1.number] == e.added[i].file
    {
      assert e.added[i] in e.added && Lists(code, x.newFiles[i].1, e.added[i].file);
    }
    forall d ensures d in Resolve(code, tables, x).deleted <==> d in e.deleted {
      if d in e.deleted {
        assert (d.level, d.number as Long) in x.deletedFiles;
      }
    }
  }

  // ---- VersionSet::Recover

  ghost function Parsed(record: Bytes): Option<Wire.Edit> { Wire.Parse(record, BLANK) }

  ghost predicate Good(record: Bytes, comparator: Bytes) {
    Parsed(record).Some? && (Parsed(record).value.comparator.Some? ==> Parsed(record).value.comparator.value == comparator)
  }

  ghost predicate AllGood(records: seq<Bytes>, comparator: Bytes) {
    forall i :: 0 <= i < |records| ==> Good(records[i], comparator)
  }

  ghost predicate AllNamed(code: InternalKey -> Bytes, tables: map<nat, File>, records: seq<Bytes>) {
    forall i :: 0 <= i < |records| && Parsed(records[i]).Some? ==> Named(code, tables, Parsed(records[i]).value)
  }

  ghost function Resolved(code: InternalKey -> Bytes, tables: map<nat, File>, records: seq<Bytes>): seq<VersionEdit>
    requires AllNamed(code, tables, records)
    requires forall i :: 0 <= i < |records| ==> Parsed(records[i]).Some?
  {
    seq(|records|, i requires 0 <= i < |records| => Resolve(code, tables, Parsed(records[i]).value))
  }

  // A counter's last occurrence
  function Later(now: Option<Long>, before: Option<Long>): Option<Long> { if now.Some? then now else before }

  datatype Counters = Counters(logNumber: Option<Long>, prevLogNumber: Option<Long>, nextFile: Option<Long>,
                               lastSequence: Option<Long>)

  function Recorded(x: Wire.Edit): Counters {
    Counters(x.logNumber, x.prevLogNumber, x.nextFileNumber, x.lastSequence)
  }

  function Update(c: Counters, x: Wire.Edit): Counters {
    Counters(Later(x.logNumber, c.logNumber), Later(x.prevLogNumber, c.prevLogNumber),
             Later(x.nextFileNumber, c.nextFile), Later(x.lastSequence, c.lastSequence))
  }

  ghost function CountersOf(records: seq<Bytes>): Counters
    requires forall i :: 0 <= i < |records| ==> Parsed(records[i]).Some?
  {
    if records == [] then Counters(None, None, None, None) else
    Update(CountersOf(records[..|records| - 1]), Parsed(records[|records| - 1]).value)
  }

  predicate Complete(c: Counters) { c.nextFile.Some? && c.logNumber.Some? && c.lastSequence.Some? }

  // What becomes of the version set; `at` is the record that stops the recovery.
  datatype Outcome =
    | Restored(version: Version, logNumber: Long, prevLogNumber: Long, nextFile: nat, lastSequence: Long)
    | Malformed(at: nat)
    | OtherComparator(at: nat)
    | NoNextFile
    | NoLogNumber
    | NoLastSequence

  // Recovery succeeds exactly on a manifest whose records all parse under this comparator and
  // which gives the three counters; the version is that of one builder over all edits, and
  // each counter is the last one recorded.
  method Recover(records: seq<Bytes>, comparator: Bytes, ghost code: InternalKey -> Bytes, tables: map<nat, File>)
    returns (r: Outcome)
    requires AllNamed(code, tables, records)
    ensures r.Restored? <==> AllGood(records, comparator) && Complete(CountersOf(records))
    ensures r.Restored? ==>
              var c := CountersOf(records);
              && r.version == Replay(EMPTY, Resolved(code, tables, records))
              && r.logNumber == c.logNumber.value && r.nextFile == c.nextFile.value + 1
              && r.lastSequence == c.lastSequence.value
              && r.prevLogNumber == if c.prevLogNumber.Some? then c.prevLogNumber.value else 0
    ensures r.Malformed? || r.OtherComparator? ==>
              && r.at < |records| && AllGood(records[..r.at], comparator) && !Good(records[r.at], comparator)
              && (r.Malformed? <==> Parsed(records[r.at]).None?)
    ensures r.NoNextFile? ==> AllGood(records, comparator) && CountersOf(records).nextFile.None?
    ensures r.NoLogNumber? ==> AllGood(records, comparator) && CountersOf(records).logNumber.None?
    ensures r.NoLastSequence? ==> AllGood(records, comparator) && CountersOf(records).lastSequence.None?
  {
    hide Replay, AllNamed, Resolve, Resolved, EditOk, Parsed, CountersOf, Update;
    NoRecords(code, tables, records);
    var builder := new Builder(EMPTY);
    var c := Counters(None, None, None, None);
    var i := 0;
    while i < |records|
      invariant 0 <= i <= |records| && builder.Valid() && builder.base == EMPTY
      invariant AllGood(records[..i], comparator) && AllNamed(code, tables, records[..i])
      invariant builder.applied == Resolved(code, tables, records[..i]) && c == CountersOf(records[..i])
    {
      var x := Decode(records[i]);
      if x.None? {
        return Malformed(i);
      } else if x.value.comparator.Some? && x.value.comparator.value != comparator {
        return OtherComparator(i);
      }
      NextRecord(code, tables, records, comparator, i);
      builder.Apply(Resolve(code, tables, x.value));
      c := Update(c, x.value);
      i := i + 1;
    }
    assert records[..i] == records;
    if c.nextFile.None? {
      return NoNextFile;
    } else if c.logNumber.None? {
      return NoLogNumber;
    } else if c.lastSequence.None? {
      return NoLastSequence;
    }
    var v := builder.SaveTo();
    r := Restored(v, c.logNumber.value, if c.prevLogNumber.Some? then c.prevLogNumber.value else 0,
                  c.nextFile.value + 1, c.lastSequence.value);
  }

  method Decode(record: Bytes) returns (x: Option<Wire.Edit>)
    ensures x == Parsed(record)
  {
    var edit := new Wire.VersionEdit();
    assert Wire.Cleared(edit.e) == BLANK;
    var ok := edit.DecodeFrom(record);
    x := if ok then Some(edit.e) else None;
  }

  lemma NoRecords(code: InternalKey -> Bytes, tables: map<nat, File>, records: seq<Bytes>)
    ensures AllNamed(code, tables, records[..0]) && Resolved(code, tables, records[..0]) == []
    ensures CountersOf(records[..0]) == Counters(None, None, None, None)
  {
  }

  lemma NextRecord(code: InternalKey -> Bytes, tables: map<nat, File>, records: seq<Bytes>, comparator: Bytes, i: nat)
    requires AllNamed(code, tables, records) && i < |records| && AllGood(records[..i], comparator)
    requires Good(records[i], comparator)
    ensures Named(code, tables, Parsed(records[i]).value) && EditOk(Resolve(code, tables, Parsed(records[i]).value))
    ensures AllGood(records[..i + 1], comparator)
    ensures AllNamed(code, tables, records[..i]) && AllNamed(code, tables, records[..i + 1])
    ensures Resolved(code, tables, records[..i + 1])
         == Resolved(code, tables, records[..i]) + [Resolve(code, tables, Parsed(records[i]).value)]
    ensures CountersOf(records[..i + 1]) == Update(CountersOf(records[..i]), Parsed(records[i]).value)
  {
    hide Wire.Parse;
    LevelsInRange(records[i], BLANK);
    var front := records[..i + 1];
    assert front[..i] == records[..i] && forall j | 0 <= j < i :: front[j] == records[..i][j];
    var x := Parsed(records[i]).value;
    forall a | a in Resolve(code, tables, x).added ensures a.level < NUM_LEVELS {
      var k :| 0 <= k < |x.newFiles| && a == Resolve(code, tables, x).added[k];
    }
  }

  // What parses names levels that exist.
  ghost predicate InRange(e: Wire.Edit) {
    (forall d :: d in e.deletedFiles ==> d.0 < NUM_LEVELS)
    && forall i :: 0 <= i < |e.newFiles| ==> e.newFiles[i].0 < NUM_LEVELS
  }

  lemma FieldInRange(tag: nat, b: Bytes, e: Wire.Edit)
    requires InRange(e)
    ensures Wire.Field(tag, b, e).Some? ==> InRange(Wire.Field(tag, b, e).value.0)
  {
    hide Wire.File, GetVarint64, GetVarint32, GetPrefixed;
  }

  lemma {:induction false} LevelsInRange(b: Bytes, e: Wire.Edit)
    requires InRange(e)
    ensures Wire.Parse(b, e).Some? ==> InRange(Wire.Parse(b, e).value)
    decreases |b|
  {
    hide Wire.Field;
    var tag := GetVarint32(b);
    if tag.Some? {
      var f := Wire.Field(tag.value.0, tag.value.1, e);
      FieldInRange(tag.value.0, tag.value.1, e);
      if f.Some? {
        LevelsInRange(f.value.1, f.value.0);
      }
    }
  }

  // ---- Round trip

  // The records of a manifest begun for version v: its snapshot, then the edits since.
  ghost predicate Written(code: InternalKey -> Bytes, comparator: Bytes, v: Version, edits: seq<VersionEdit>,
                          xs: seq<Wire.Edit>, records: seq<Bytes>)
  {
    && |records| == |xs| == |edits| + 1
    && xs[0].comparator == Some(comparator) && Denotes(code, xs[0], Snapshot(v))
    && (forall k :: 0 <= k < |edits| ==> Stamped(xs[k + 1]) && Denotes(code, xs[k + 1], edits[k]))
    && (forall k :: 0 <= k < |xs| ==> EncodedAs(xs[k], records[k]))
  }

  // LogAndApply puts every counter into every edit, and no comparator.
  ghost predicate Stamped(x: Wire.Edit) {
    x.comparator.None? && Complete(Recorded(x)) && x.prevLogNumber.Some?
  }

  ghost predicate EncodedAs(x: Wire.Edit, record: Bytes) {
    Wire.Valid(x) && exists order :: Wire.Lists(order, x.deletedFiles) && record == Wire.Encoded(x, order)
  }

  lemma EncodedParses(x: Wire.Edit, record: Bytes)
    requires EncodedAs(x, record)
    ensures Parsed(record) == Some(x)
  {
    var order :| Wire.Lists(order, x.deletedFiles) && record == Wire.Encoded(x, order);
    Wire.RoundTrip(x, order, BLANK);
    assert Wire.Cleared(BLANK) == BLANK && [] + x.compactPointers == x.compactPointers;
  }

  // The tables added since the manifest was begun, by number
  ghost predicate Holds(tables: map<nat, File>, edits: seq<VersionEdit>) {
    forall k, a :: 0 <= k < |edits| && a in edits[k].added ==>
      a.file.number in tables && tables[a.file.number] == a.file
  }

  lemma WrittenResolves(code: InternalKey -> Bytes, comparator: Bytes, v: Version, edits: seq<VersionEdit>,
                        xs: seq<Wire.Edit>, records: seq<Bytes>, tables: map<nat, File>)
    requires Written(code, comparator, v, edits, xs, records) && Holds(tables, [Snapshot(v)] + edits)
    ensures AllGood(records, comparator) && AllNamed(code, tables, records)
    ensures Resolved(code, tables, records) == [Snapshot(v)] + edits
  {
    hide EncodedAs, Parsed, Denotes, Named, Resolve;
    var all := [Snapshot(v)] + edits;
    forall k | 0 <= k < |records|
      ensures Good(records[k], comparator) && Parsed(records[k]) == Some(xs[k])
      ensures Named(code, tables, xs[k]) && Resolve(code, tables, xs[k]) == all[k]
    {
      EncodedParses(xs[k], records[k]);
      ResolvesToDenoted(code, tables, xs[k], all[k]);
    }
  }

  // ---- VersionSet::LogAndApply

  predicate Fits(code: InternalKey -> Bytes, f: File) {
    && f.number < LONG_LIMIT && f.size < LONG_LIMIT
    && |code(Smallest(f))| < WORD_LIMIT && |code(Largest(f))| < WORD_LIMIT
  }

  ghost predicate Encodable(code: InternalKey -> Bytes, e: VersionEdit) {
    && EditOk(e)
    && (forall a :: a in e.added ==> Fits(code, a.file)) && (forall d :: d in e.deleted ==> d.number < LONG_LIMIT)
  }

  // The file changes of an edit in the form that is encoded
  function Put(code: InternalKey -> Bytes, e: VersionEdit, comparator: Option<Bytes>, c: Counters,
               pointers: seq<(nat, Bytes)>): Wire.Edit
    requires Encodable(code, e)
  {
    Wire.Edit(comparator, c.logNumber, c.prevLogNumber, c.nextFile, c.lastSequence, pointers,
              set d | d in e.deleted :: (d.level, d.number as Long),
              seq(|e.added|, i requires 0 <= i < |e.added| =>
                var f := e.added[i].file;
                assert e.added[i] in e.added;
                (e.added[i].level, Wire.NewFile(f.number, f.size, code(Smallest(f)), code(Largest(f))))))
  }

  lemma PutDenotes(code: InternalKey -> Bytes, e: VersionEdit, comparator: Option<Bytes>, c: Counters,
                   pointers: seq<(nat, Bytes)>)
    requires Encodable(code, e) && (comparator.Some? ==> |comparator.value| < WORD_LIMIT)
    requires forall i :: 0 <= i < |pointers| ==> Wire.ValidPointer(pointers[i])
    ensures var x := Put(code, e, comparator, c, pointers);
            && Denotes(code, x, e) && Wire.Valid(x) && Recorded(x) == c && x.comparator == comparator
            && forall d :: d in x.deletedFiles <==> DeletedFile(d.0, d.1) in e.deleted
  {
    var x := Put(code, e, comparator, c, pointers);
    forall i | 0 <= i < |x.newFiles|
      ensures Wire.ValidFile(x.newFiles[i]) && x.newFiles[i].0 == e.added[i].level
      ensures Lists(code, x.newFiles[i].1, e.added[i].file)
    {
      assert e.added[i] in e.added;
    }
    forall d ensures d in x.deletedFiles <==> DeletedFile(d.0, d.1) in e.deleted {
      if DeletedFile(d.0, d.1) in e.deleted {
        assert (DeletedFile(d.0, d.1).level, DeletedFile(d.0, d.1).number as Long) in x.deletedFiles;
      }
    }
  }

  method EncodeEdit(x: Wire.Edit, order: seq<(nat, Long)>) returns (record: Bytes)
    requires Wire.Valid(x) && Wire.Lists(order, x.deletedFiles)
    ensures EncodedAs(x, record)
  {
    var edit := new Wire.VersionEdit();
    edit.e := x;
    record := edit.EncodeTo(order);
  }

  // VersionSet::WriteSnapshot
  method EncodeSnapshot(current: Version, pointers: seq<(nat, Bytes)>, comparator: Bytes, code: InternalKey -> Bytes)
    returns (record: Bytes, ghost x: Wire.Edit)
    requires Encodable(code, Snapshot(current)) && |comparator| < WORD_LIMIT
    requires forall i :: 0 <= i < |pointers| ==> Wire.ValidPointer(pointers[i])
    ensures EncodedAs(x, record) && x.comparator == Some(comparator) && Denotes(code, x, Snapshot(current))
  {
    hide Put, Denotes, EncodedAs, Wire.Valid, Encodable, Listed, Wire.ValidPointer;
    var s := WriteSnapshot(current);
    var y := Put(code, s, Some(comparator), Counters(None, None, None, None), pointers);
    PutDenotes(code, s, Some(comparator), Counters(None, None, None, None), pointers);
    record := EncodeEdit(y, []);
    x := y;
  }

  // The edit gets every counter, the new version comes from a builder of its own, and a new
  // manifest begins with a snapshot of the current version. `order` is the deleted files as
  // their set is walked, `snapshot` the compaction pointers if the manifest is new.
  method LogAndApply(current: Version, e: VersionEdit, pointers: seq<(nat, Bytes)>, order: seq<(nat, Long)>,
                     logNumber: Option<Long>, c: Counters, snapshot: Option<seq<(nat, Bytes)>>, comparator: Bytes,
                     code: InternalKey -> Bytes)
    returns (v: Version, records: seq<Bytes>, ghost xs: seq<Wire.Edit>)
    requires Encodable(code, e) && Encodable(code, Snapshot(current))
    requires Complete(c) && c.prevLogNumber.Some? && |comparator| < WORD_LIMIT
    requires forall d :: d in order <==> DeletedFile(d.0, d.1) in e.deleted
    requires forall i :: 0 <= i < |pointers| ==> Wire.ValidPointer(pointers[i])
    requires snapshot.Some? ==> forall i :: 0 <= i < |snapshot.value| ==> Wire.ValidPointer(snapshot.value[i])
    ensures v == Replay(current, [e])
    ensures |records| == |xs| == if snapshot.Some? then 2 else 1
    ensures forall k :: 0 <= k < |xs| ==> EncodedAs(xs[k], records[k])
    ensures var x := xs[|xs| - 1];
            && Denotes(code, x, e) && Stamped(x)
            && Recorded(x) == if logNumber.Some? then c.(logNumber := logNumber) else c
    ensures snapshot.Some? ==> xs[0].comparator == Some(comparator) && Denotes(code, xs[0], Snapshot(current))
    // A new manifest is one begun for the current version, with this edit on top.
    ensures snapshot.Some? ==> Written(code, comparator, current, [e], xs, records)
  {
    v := ApplyEdit(current, e);
    hide Put, Denotes, EncodedAs, Wire.Valid, Replay, Encodable, Listed, Wire.ValidPointer;
    var stamp := if logNumber.Some? then c.(logNumber := logNumber) else c;
    var x := Put(code, e, None, stamp, pointers);
    PutDenotes(code, e, None, stamp, pointers);
    records, xs := [], [];
    if snapshot.Some? {
      var first, y := EncodeSnapshot(current, snapshot.value, comparator, code);
      records, xs := [first], [y];
    }
    var last := EncodeEdit(x, order);
    records, xs := records + [last], xs + [x];
    if snapshot.Some? {
      BeginsManifest(code, comparator, current, e, xs, records);
    }
    hide Stamped, Written;
  }

  lemma BeginsManifest(code: InternalKey -> Bytes, comparator: Bytes, v: Version, e: VersionEdit, xs: seq<Wire.Edit>,
                       records: seq<Bytes>)
    requires |xs| == |records| == 2 && EncodedAs(xs[0], records[0]) && EncodedAs(xs[1], records[1])
    requires xs[0].comparator == Some(comparator) && Denotes(code, xs[0], Snapshot(v))
    requires Stamped(xs[1]) && Denotes(code, xs[1], e)
    ensures Written(code, comparator, v, [e], xs, records)
  {
    hide EncodedAs, Denotes, Stamped;
  }

  // ---- Both together

  // Recovering a manifest gives back the version and the counters the running database had
  // after its last edit: Recover's outcome is Restored with exactly these.
  lemma ManifestRoundTrip(code: InternalKey -> Bytes, comparator: Bytes, v: Version, edits: seq<VersionEdit>,
                          xs: seq<Wire.Edit>, records: seq<Bytes>, tables: map<nat, File>)
    requires Written(code, comparator, v, edits, xs, records) && Holds(tables, [Snapshot(v)] + edits)
    requires SortedLevels(v) && NumbersDistinct(v) && NeverReadded(v, edits) && edits != []
    ensures AllGood(records, comparator) && AllNamed(code, tables, records)
    ensures CountersOf(records) == Recorded(xs[|edits|]) && Complete(CountersOf(records))
    ensures Replay(EMPTY, Resolved(code, tables, records)) == Chain(v, edits)
  {
    WrittenResolves(code, comparator, v, edits, xs, records, tables);
    ManifestRestoresVersion(v, edits);
    var n := |edits|;
    EncodedParses(xs[n], records[n]);
    assert Stamped(xs[n - 1 + 1]);
  }
}
