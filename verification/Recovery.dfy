/** DBImpl::Recover and RecoverLogFile: replaying the logs into level-0 tables. */
module Recovery {
  import opened InternalKeys
  import opened Versions
  import opened Store
  import opened StoreInvariant

  // ---- Memtables as sorted sequences

  function InsertSorted(mem: seq<Entry>, e: Entry): seq<Entry> {
    if mem == [] || Before(e.ikey, mem[0].ikey) then [e] + mem else [mem[0]] + InsertSorted(mem[1..], e)
  }

  lemma {:induction false} InsertSortedKeepsOrder(mem: seq<Entry>, e: Entry)
    requires Sorted(mem) && forall x :: x in mem ==> x.Seq() < e.Seq()
    ensures Sorted(InsertSorted(mem, e))
    ensures forall x :: x in InsertSorted(mem, e) <==> x == e || x in mem
  {
    if mem != [] && !Before(e.ikey, mem[0].ikey) {
      assert mem == [mem[0]] + mem[1..];
      BeforeIsTotal(e.ikey, mem[0].ikey);
      assert mem[0] in mem;
      InsertSortedKeepsOrder(mem[1..], e);
      var tail := InsertSorted(mem[1..], e);
      forall i | 0 <= i < |tail| ensures Before(mem[0].ikey, tail[i].ikey) {
        assert tail[i] == e || tail[i] in mem[1..];
      }
    }
  }

  // A memtable after further entries
  function Inserted(mem: seq<Entry>, entries: seq<Entry>): seq<Entry> {
    if entries == [] then mem
    else InsertSorted(Inserted(mem, entries[..|entries| - 1]), entries[|entries| - 1])
  }

  lemma {:induction false} InsertedConcat(mem: seq<Entry>, a: seq<Entry>, b: seq<Entry>)
    ensures Inserted(mem, a + b) == Inserted(Inserted(mem, a), b)
    decreases |b|
  {
    if b == [] {
      assert a + b == a;
    } else {
      assert (a + b)[..|a + b| - 1] == a + b[..|b| - 1];
      InsertedConcat(mem, a, b[..|b| - 1]);
    }
  }

  // ---- Records

  // A record of the log: too small to be a batch, or a batch's entries
  datatype LogRecord = TooSmall | Batch(entries: seq<Entry>)
  {
    function Contents(): seq<Entry> { if TooSmall? then [] else entries }
  }

  function Join(records: seq<LogRecord>): seq<Entry> {
    if records == [] then [] else Join(records[..|records| - 1]) + records[|records| - 1].Contents()
  }

  ghost predicate SeqsIncrease(s: seq<Entry>) {
    forall i, j :: 0 <= i < j < |s| ==> s[i].Seq() < s[j].Seq()
  }

  ghost predicate AllBelow(A: set<Entry>, s: seq<Entry>) {
    forall a, e :: a in A && e in s ==> a.Seq() < e.Seq()
  }

  // Tables hold the first entries of the log, the memtable the next ones.
  ghost predicate Replaying(parts: seq<File>, mem: seq<Entry>, done: set<Entry>, rest: seq<Entry>,
                            first: nat, next: nat) {
    && (forall e :: e in done <==> e in FilesEntries(Elems(parts)) || e in mem)
    && Sorted(mem)
    && (forall i, j, e, x :: 0 <= i < j < |parts| && e in parts[i].entries && x in parts[j].entries ==>
          e.Seq() < x.Seq())
    && (forall p, e, x :: p in parts && e in p.entries && x in mem ==> e.Seq() < x.Seq())
    && AllBelow(done, rest) && SeqsIncrease(rest)
    && (forall i, j :: 0 <= i < j < |parts| ==> parts[i].number < parts[j].number)
    && (forall i :: 0 <= i < |parts| ==> first <= parts[i].number < next)
    && first <= next
  }

  lemma ReplayEntry(parts: seq<File>, mem: seq<Entry>, done: set<Entry>, rest: seq<Entry>, first: nat, next: nat)
    requires rest != [] && Replaying(parts, mem, done, rest, first, next)
    ensures Replaying(parts, InsertSorted(mem, rest[0]), done + {rest[0]}, rest[1..], first, next)
  {
    hide SeqsIncrease;
    var e := rest[0];
    assert e in rest;
    forall x | x in mem ensures x.Seq() < e.Seq() {
      assert x in done;
    }
    InsertSortedKeepsOrder(mem, e);
    forall p, x | p in parts && x in p.entries ensures x.Seq() < e.Seq() {
      assert p in Elems(parts) && x in FilesEntries(Elems(parts));
    }
    TailIsAbove(done, rest);
  }

  lemma TailIsAbove(done: set<Entry>, rest: seq<Entry>)
    requires rest != [] && AllBelow(done, rest) && SeqsIncrease(rest)
    ensures AllBelow(done + {rest[0]}, rest[1..]) && SeqsIncrease(rest[1..])
  {
    forall x | x in rest[1..] ensures rest[0].Seq() < x.Seq() && x in rest {
      var i :| 0 <= i < |rest[1..]| && rest[1..][i] == x;
      assert rest[i + 1] == x;
    }
  }

  lemma ReplayTable(parts: seq<File>, mem: seq<Entry>, done: set<Entry>, rest: seq<Entry>, first: nat, next: nat, f: File)
    requires Replaying(parts, mem, done, rest, first, next) && f.entries == mem && f.number == next
    ensures Replaying(parts + [f], [], done, rest, first, next + 1)
  {
    var parts' := parts + [f];
    assert Elems(parts') == Elems(parts) + {f};
    forall e ensures e in FilesEntries(Elems(parts')) <==> e in FilesEntries(Elems(parts)) || e in mem {
      if e in FilesEntries(Elems(parts)) {
        var p :| p in Elems(parts) && e in p.entries;
        assert p in Elems(parts');
      }
      if e in mem {
        assert f in Elems(parts');
      }
    }
    forall i, j, e, x | 0 <= i < j < |parts'| && e in parts'[i].entries && x in parts'[j].entries
      ensures e.Seq() < x.Seq()
    {
      assert j == |parts| ==> parts'[i] in parts;
    }
  }

  // WriteLevel0Table without a base version: the table goes to level 0. An empty memtable
  // takes a number but leaves no table.
  method WriteLevel0Table(parts: seq<File>, mem: seq<Entry>, next: nat, tableSize: seq<Entry> -> nat,
                          ghost done: set<Entry>, ghost rest: seq<Entry>, ghost first: nat)
    returns (newParts: seq<File>, newNext: nat)
    requires Replaying(parts, mem, done, rest, first, next)
    ensures Replaying(newParts, [], done, rest, first, newNext) && newNext == next + 1
    ensures if mem == [] then newParts == parts
            else |newParts| == |parts| + 1 && newParts[..|parts|] == parts && newParts[|parts|].entries == mem
                 && newParts[|parts|].number == next && newParts[|parts|].size == tableSize(mem)
  {
    newParts, newNext := parts, next + 1;
    if mem != [] {
      var f: File := Table(next, tableSize(mem), mem);
      ReplayTable(parts, mem, done, rest, first, next, f);
      newParts := parts + [f];
    }
  }

  ghost predicate MaxOf(m: SeqNo, base: SeqNo, done: set<Entry>) {
    && base <= m && (forall e :: e in done ==> e.Seq() <= m)
    && (m == base || exists e :: e in done && e.Seq() == m)
  }

  // WriteBatchInternal::InsertInto: the record's entries enter the memtable one by one.
  method InsertInto(record: seq<Entry>, table0: seq<Entry>, maxSequence0: SeqNo, ghost parts: seq<File>,
                    ghost done0: set<Entry>, ghost after: seq<Entry>, ghost first: nat, ghost next: nat,
                    ghost base: SeqNo)
    returns (table: seq<Entry>, maxSequence: SeqNo)
    requires Replaying(parts, table0, done0, record + after, first, next) && MaxOf(maxSequence0, base, done0)
    ensures Replaying(parts, table, done0 + Elems(record), after, first, next)
    ensures MaxOf(maxSequence, base, done0 + Elems(record))
    ensures table == Inserted(table0, record)
  {
    hide Replaying, InsertSorted;
    table, maxSequence := table0, maxSequence0;
    ghost var done := done0;
    var j := 0;
    assert record[0..] == record;
    while j < |record|
      invariant 0 <= j <= |record|
      invariant done == done0 + Elems(record[..j])
      invariant Replaying(parts, table, done, record[j..] + after, first, next)
      invariant MaxOf(maxSequence, base, done)
      invariant table == Inserted(table0, record[..j])
    {
      ghost var rest := record[j..] + after;
      assert rest[0] == record[j] && rest[1..] == record[j + 1..] + after;
      ReplayEntry(parts, table, done, rest, first, next);
      table := InsertSorted(table, record[j]);
      NextMax(maxSequence, base, done, record[j]);
      done := done + {record[j]};
      assert record[..j + 1] == record[..j] + [record[j]] && record[..j + 1][..j] == record[..j];
      if record[j].Seq() > maxSequence {
        maxSequence := record[j].Seq();
      }
      j := j + 1;
    }
    assert record[..j] == record && record[j..] + after == after;
  }

  lemma NextMax(m: SeqNo, base: SeqNo, done: set<Entry>, e: Entry)
    requires MaxOf(m, base, done)
    ensures MaxOf(if e.Seq() > m then e.Seq() else m, base, done + {e})
  {
    if e.Seq() > m {
      assert e in done + {e};
    } else if m != base {
      var x :| x in done && x.Seq() == m;
      assert x in done + {e};
    }
  }

  // ---- Where the tables are cut

  // The records that one table holds
  datatype Stretch = Stretch(from: nat, to: nat)

  // The memtable that records a to b fill
  function Filled(records: seq<LogRecord>, a: nat, b: nat): seq<Entry>
    requires a <= b <= |records|
  {
    Inserted([], Join(records[a..b]))
  }

  // No batch before the last one made the memtable too big.
  ghost predicate FitsUntil(records: seq<LogRecord>, a: nat, b: nat, usage: seq<Entry> -> nat, size: nat)
    requires a <= b <= |records|
  {
    forall k | a < k < b && records[k - 1].Batch? :: usage(Filled(records, a, k)) <= size
  }

  // Table after table holds the entries of the records from one position to another; the next
  // one's records lie behind, and what is passed over has no entries.
  ghost predicate CutFrom(records: seq<LogRecord>, parts: seq<File>, cuts: seq<Stretch>, usage: seq<Entry> -> nat, size: nat) {
    && |cuts| == |parts|
    && (forall g | 0 <= g < |parts| :: cuts[g].from < cuts[g].to <= |records|)
    && (forall g | 0 <= g < |parts| :: parts[g].entries == Filled(records, cuts[g].from, cuts[g].to))
    && (forall g | 0 <= g < |parts| :: FitsUntil(records, cuts[g].from, cuts[g].to, usage, size))
    && (forall g | 0 < g < |parts| :: cuts[g - 1].to <= cuts[g].from)
  }

  // A table is written when the memtable has become too big, and at the end of the log.
  ghost predicate CutRight(records: seq<LogRecord>, parts: seq<File>, cuts: seq<Stretch>, usage: seq<Entry> -> nat, size: nat) {
    && CutFrom(records, parts, cuts, usage, size)
    && forall g | 0 <= g < |parts| :: usage(parts[g].entries) > size || (g == |parts| - 1 && cuts[g].to == |records|)
  }

  // While reading: every table written was too big, and the memtable holds what came since.
  ghost predicate Cutting(records: seq<LogRecord>, parts: seq<File>, cuts: seq<Stretch>, usage: seq<Entry> -> nat, size: nat,
                          start: nat, i: nat, mem: Option<seq<Entry>>) {
    && CutFrom(records, parts, cuts, usage, size) && start <= i <= |records|
    && (forall g | 0 <= g < |parts| :: cuts[g].to <= start)
    && (forall g | 0 <= g < |parts| :: usage(parts[g].entries) > size)
    && (mem.Some? ==> start < i && mem.value == Filled(records, start, i))
    && (mem.Some? ==> forall k | start < k <= i && records[k - 1].Batch? :: usage(Filled(records, start, k)) <= size)
    && (mem.None? ==> start == i)
  }

  lemma StartCutting(records: seq<LogRecord>, usage: seq<Entry> -> nat, size: nat)
    ensures Cutting(records, [], [], usage, size, 0, 0, None)
  {
  }

  // A record too small to be a batch is passed over.
  lemma PassOver(records: seq<LogRecord>, parts: seq<File>, cuts: seq<Stretch>, usage: seq<Entry> -> nat, size: nat,
                 start: nat, i: nat, mem: Option<seq<Entry>>)
    requires Cutting(records, parts, cuts, usage, size, start, i, mem) && i < |records| && records[i].TooSmall?
    ensures Cutting(records, parts, cuts, usage, size, if mem.Some? then start else i + 1, i + 1, mem)
  {
    if mem.Some? {
      FilledWith(records, start, i);
    }
    hide Filled;
  }

  lemma FilledWith(records: seq<LogRecord>, a: nat, i: nat)
    requires a <= i < |records|
    ensures Filled(records, a, i + 1) == Inserted(Filled(records, a, i), records[i].Contents())
    ensures a == i ==> Filled(records, a, i) == []
  {
    assert records[a..i + 1][..i - a] == records[a..i] && records[a..i + 1][i - a] == records[i];
    InsertedConcat([], Join(records[a..i]), records[i].Contents());
  }

  // A batch joins the memtable, which may go on.
  lemma GoOn(records: seq<LogRecord>, parts: seq<File>, cuts: seq<Stretch>, usage: seq<Entry> -> nat, size: nat,
             start: nat, i: nat, mem: Option<seq<Entry>>, table: seq<Entry>)
    requires Cutting(records, parts, cuts, usage, size, start, i, mem) && i < |records| && records[i].Batch?
    requires table == Inserted(if mem.Some? then mem.value else [], records[i].entries) && usage(table) <= size
    ensures Cutting(records, parts, cuts, usage, size, start, i + 1, Some(table))
  {
    BatchFills(records, parts, cuts, usage, size, start, i, mem);
    CutsBefore(records, parts, cuts, usage, size, start, i, mem);
    hide *;
    MemNow(records, parts, cuts, usage, size, start, i + 1, table);
  }

  lemma MemNow(records: seq<LogRecord>, parts: seq<File>, cuts: seq<Stretch>, usage: seq<Entry> -> nat, size: nat,
               start: nat, i: nat, table: seq<Entry>)
    requires CutFrom(records, parts, cuts, usage, size) && start < i <= |records| && |cuts| == |parts|
    requires forall g | 0 <= g < |parts| :: cuts[g].to <= start && usage(parts[g].entries) > size
    requires table == Filled(records, start, i) && usage(table) <= size && FitsUntil(records, start, i, usage, size)
    ensures Cutting(records, parts, cuts, usage, size, start, i, Some(table))
  {
    hide Filled, CutFrom;
  }

  // What a batch makes of the memtable fits the records from the last cut on.
  lemma BatchFills(records: seq<LogRecord>, parts: seq<File>, cuts: seq<Stretch>, usage: seq<Entry> -> nat, size: nat,
                   start: nat, i: nat, mem: Option<seq<Entry>>)
    requires Cutting(records, parts, cuts, usage, size, start, i, mem) && i < |records| && records[i].Batch?
    ensures Inserted(if mem.Some? then mem.value else [], records[i].entries) == Filled(records, start, i + 1)
    ensures start <= i && FitsUntil(records, start, i + 1, usage, size)
  {
    FilledWith(records, start, i);
    hide Filled, CutFrom;
  }

  // A batch makes the memtable too big. An empty memtable leaves no table.
  lemma EmptyCut(records: seq<LogRecord>, parts: seq<File>, cuts: seq<Stretch>, usage: seq<Entry> -> nat, size: nat,
                 start: nat, i: nat, mem: Option<seq<Entry>>)
    requires Cutting(records, parts, cuts, usage, size, start, i, mem) && i < |records|
    ensures Cutting(records, parts, cuts, usage, size, i + 1, i + 1, None)
  {
    CutsBefore(records, parts, cuts, usage, size, start, i, mem);
    CutsNow(records, parts, cuts, usage, size, start, i + 1);
    hide *;
  }

  lemma TableCut(records: seq<LogRecord>, parts: seq<File>, cuts: seq<Stretch>, usage: seq<Entry> -> nat, size: nat,
                 start: nat, i: nat, mem: Option<seq<Entry>>, f: File)
    requires Cutting(records, parts, cuts, usage, size, start, i, mem) && i < |records| && records[i].Batch?
    requires f.entries == Inserted(if mem.Some? then mem.value else [], records[i].entries) && usage(f.entries) > size
    ensures Cutting(records, parts + [f], cuts + [Stretch(start, i + 1)], usage, size, i + 1, i + 1, None)
  {
    BatchFills(records, parts, cuts, usage, size, start, i, mem);
    CutsBefore(records, parts, cuts, usage, size, start, i, mem);
    hide *;
    TableAdded(records, parts, cuts, usage, size, start, i + 1, f);
    TooBig(parts, cuts, usage, size, start, i + 1, f);
    CutsNow(records, parts + [f], cuts + [Stretch(start, i + 1)], usage, size, i + 1, i + 1);
  }

  lemma CutsBefore(records: seq<LogRecord>, parts: seq<File>, cuts: seq<Stretch>, usage: seq<Entry> -> nat, size: nat,
                   start: nat, i: nat, mem: Option<seq<Entry>>)
    requires Cutting(records, parts, cuts, usage, size, start, i, mem)
    ensures CutFrom(records, parts, cuts, usage, size) && start <= i <= |records| && |cuts| == |parts|
    ensures forall g | 0 <= g < |parts| :: cuts[g].to <= start && usage(parts[g].entries) > size
  {
    hide Filled, FitsUntil;
  }

  lemma CutsNow(records: seq<LogRecord>, parts: seq<File>, cuts: seq<Stretch>, usage: seq<Entry> -> nat, size: nat,
                last: nat, start: nat)
    requires CutFrom(records, parts, cuts, usage, size) && last <= start <= |records| && |cuts| == |parts|
    requires forall g | 0 <= g < |parts| :: cuts[g].to <= last && usage(parts[g].entries) > size
    ensures Cutting(records, parts, cuts, usage, size, start, start, None)
  {
    hide Filled, CutFrom;
  }

  lemma TooBig(parts: seq<File>, cuts: seq<Stretch>, usage: seq<Entry> -> nat, size: nat, a: nat, b: nat, f: File)
    requires |cuts| == |parts| && a <= b && usage(f.entries) > size
    requires forall g | 0 <= g < |parts| :: cuts[g].to <= a && usage(parts[g].entries) > size
    ensures |cuts + [Stretch(a, b)]| == |parts + [f]|
    ensures forall g | 0 <= g < |parts + [f]| :: (cuts + [Stretch(a, b)])[g].to <= b && usage((parts + [f])[g].entries) > size
  {
  }

  lemma TableAdded(records: seq<LogRecord>, parts: seq<File>, cuts: seq<Stretch>, usage: seq<Entry> -> nat, size: nat,
                   a: nat, b: nat, f: File)
    requires CutFrom(records, parts, cuts, usage, size) && a < b <= |records|
    requires f.entries == Filled(records, a, b) && FitsUntil(records, a, b, usage, size)
    requires forall g | 0 <= g < |parts| :: cuts[g].to <= a
    ensures |cuts| == |parts| && CutFrom(records, parts + [f], cuts + [Stretch(a, b)], usage, size)
  {
    hide Filled, FitsUntil;
  }

  // The log ends, with a table for what is left.
  lemma CutAtEnd(records: seq<LogRecord>, parts: seq<File>, cuts: seq<Stretch>, usage: seq<Entry> -> nat, size: nat,
                 start: nat, mem: Option<seq<Entry>>)
    requires Cutting(records, parts, cuts, usage, size, start, |records|, mem)
    ensures CutRight(records, parts, cuts, usage, size)
  {
    hide Filled, CutFrom;
  }

  lemma LastCut(records: seq<LogRecord>, parts: seq<File>, cuts: seq<Stretch>, usage: seq<Entry> -> nat, size: nat,
                start: nat, mem: seq<Entry>, f: File)
    requires Cutting(records, parts, cuts, usage, size, start, |records|, Some(mem)) && f.entries == mem
    ensures CutRight(records, parts + [f], cuts + [Stretch(start, |records|)], usage, size)
  {
    CutsBefore(records, parts, cuts, usage, size, start, |records|, Some(mem));
    MemFits(records, parts, cuts, usage, size, start, mem);
    hide Filled, FitsUntil, Cutting, CutFrom;
    TableAdded(records, parts, cuts, usage, size, start, |records|, f);
  }

  lemma MemFits(records: seq<LogRecord>, parts: seq<File>, cuts: seq<Stretch>, usage: seq<Entry> -> nat, size: nat,
                start: nat, mem: seq<Entry>)
    requires Cutting(records, parts, cuts, usage, size, start, |records|, Some(mem))
    ensures start < |records| && mem == Filled(records, start, |records|)
    ensures FitsUntil(records, start, |records|, usage, size)
  {
    hide Filled, CutFrom;
  }

  // RecoverLogFile over the records of one log: insert each record into a memtable, write a
  // table whenever the memtable is too big, and one for what is left.
  method RecoverLogFile(records: seq<LogRecord>, parts0: seq<File>, next0: nat, maxSequence0: SeqNo,
                        writeBufferSize: nat, usage: seq<Entry> -> nat, tableSize: seq<Entry> -> nat,
                        ghost done0: set<Entry>, ghost after: seq<Entry>, ghost first: nat, ghost base: SeqNo)
    returns (parts: seq<File>, next: nat, maxSequence: SeqNo, ghost cuts: seq<Stretch>)
    requires Replaying(parts0, [], done0, Join(records) + after, first, next0) && MaxOf(maxSequence0, base, done0)
    ensures Replaying(parts, [], done0 + Elems(Join(records)), after, first, next)
    ensures MaxOf(maxSequence, base, done0 + Elems(Join(records))) && next0 <= next
    ensures parts0 <= parts && CutRight(records, parts[|parts0|..], cuts, usage, writeBufferSize)
  {
    hide *;
    StartCutting(records, usage, writeBufferSize);
    ghost var written: seq<File> := [];
    ghost var start := 0;
    cuts := [];
    parts, next, maxSequence := parts0, next0, maxSequence0;
    var mem: Option<seq<Entry>> := None;
    ghost var done := done0;
    BeginLog(records, done0, after);
    var i := 0;
    while i < |records|
      invariant 0 <= i <= |records| && done == done0 + Elems(Join(records[..i]))
      invariant Replaying(parts, if mem.Some? then mem.value else [], done, Join(records[i..]) + after, first, next)
      invariant MaxOf(maxSequence, base, done) && next0 <= next
      invariant parts == parts0 + written
      invariant Cutting(records, written, cuts, usage, writeBufferSize, start, i, mem)
    {
      ghost var tail := NextRecord(records, i, done0, after);
      ghost var before := mem;
      if records[i].TooSmall? {
        PassOver(records, written, cuts, usage, writeBufferSize, start, i, mem);
        start := if mem.Some? then start else i + 1;
        // Reported as a corruption and passed over
        i := i + 1;
        continue;
      }
      if mem.None? {
        mem := Some([]);
      }
      var table;
      table, maxSequence := InsertInto(records[i].entries, mem.value, maxSequence, parts, done, tail, first, next, base);
      done := done + Elems(records[i].entries);
      mem := Some(table);
      if usage(table) > writeBufferSize {
        parts, next := WriteLevel0Table(parts, table, next, tableSize, done, tail, first);
        if table == [] {
          EmptyCut(records, written, cuts, usage, writeBufferSize, start, i, before);
        } else {
          ghost var f := Added(parts0, written, parts);
          TableCut(records, written, cuts, usage, writeBufferSize, start, i, before, f);
          cuts, written := cuts + [Stretch(start, i + 1)], written + [f];
        }
        start := i + 1;
        mem := None;
      } else {
        GoOn(records, written, cuts, usage, writeBufferSize, start, i, before, table);
      }
      i := i + 1;
    }
    EndLog(records, after);
    CutAtEnd(records, written, cuts, usage, writeBufferSize, start, mem);
    if mem.Some? {
      parts, next := WriteLevel0Table(parts, mem.value, next, tableSize, done, after, first);
      if mem.value != [] {
        ghost var f := Added(parts0, written, parts);
        LastCut(records, written, cuts, usage, writeBufferSize, start, mem.value, f);
        cuts, written := cuts + [Stretch(start, i)], written + [f];
      }
    }
    Suffix(parts0, written, parts);
  }

  // The table a write added
  lemma Added(parts0: seq<File>, written: seq<File>, parts: seq<File>) returns (f: File)
    requires |parts| == |parts0 + written| + 1 && parts[..|parts0 + written|] == parts0 + written
    ensures f == parts[|parts0 + written|] && parts == parts0 + (written + [f])
  {
    f := parts[|parts0 + written|];
  }

  lemma Suffix(parts0: seq<File>, more: seq<File>, parts: seq<File>)
    requires parts == parts0 + more
    ensures parts0 <= parts && parts[|parts0|..] == more
  {
  }

  lemma BeginLog(records: seq<LogRecord>, done: set<Entry>, after: seq<Entry>)
    ensures records[0..] == records && done + Elems(Join(records[..0])) == done
  {
  }

  lemma EndLog(records: seq<LogRecord>, after: seq<Entry>)
    ensures records[..|records|] == records && Join(records[|records|..]) + after == after
  {
  }

  // The entries behind record i, and what the record adds
  lemma NextRecord(records: seq<LogRecord>, i: nat, done0: set<Entry>, after: seq<Entry>) returns (tail: seq<Entry>)
    requires i < |records|
    ensures tail == Join(records[i + 1..]) + after
    ensures records[i].Batch? ==> Join(records[i..]) + after == records[i].entries + tail
    ensures records[i].TooSmall? ==> Join(records[i..]) + after == tail
    ensures records[i].Batch? ==>
              done0 + Elems(Join(records[..i])) + Elems(records[i].entries) == done0 + Elems(Join(records[..i + 1]))
    ensures records[i].TooSmall? ==> Elems(Join(records[..i])) == Elems(Join(records[..i + 1]))
  {
    tail := Join(records[i + 1..]) + after;
    JoinSuffix(records, i);
    assert records[..i + 1][..i] == records[..i];
    if records[i].TooSmall? {
      assert [] + Join(records[i + 1..]) == Join(records[i + 1..]);
      assert Join(records[..i]) + [] == Join(records[..i]);
    } else {
      ElemsConcat(Join(records[..i]), records[i].entries);
    }
  }

  lemma {:induction false} JoinSuffix(records: seq<LogRecord>, i: nat)
    requires i <= |records|
    ensures i == 0 ==> records[i..] == records
    ensures i < |records| ==> Join(records[i..]) == records[i].Contents() + Join(records[i + 1..])
    decreases |records| - i
  {
    if i < |records| {
      JoinHead(records[i..]);
      assert records[i..][1..] == records[i + 1..];
    }
  }

  lemma {:induction false} JoinHead(records: seq<LogRecord>)
    requires records != []
    ensures Join(records) == records[0].Contents() + Join(records[1..])
  {
    var n := |records| - 1;
    if n > 0 {
      JoinHead(records[..n]);
      assert records[..n][1..] == records[1..][..n - 1];
      assert records[1..][n - 1] == records[n];
    } else {
      assert records[..n] == [];
    }
  }

  // ---- All logs

  function InsertNumber(n: nat, s: seq<nat>): seq<nat> {
    if s == [] || n < s[0] then [n] + s else [s[0]] + InsertNumber(n, s[1..])
  }

  function SortNumbers(s: seq<nat>): seq<nat> {
    if s == [] then [] else InsertNumber(s[0], SortNumbers(s[1..]))
  }

  ghost predicate Increasing(s: seq<nat>) {
    forall i, j :: 0 <= i < j < |s| ==> s[i] < s[j]
  }

  ghost predicate Distinct(s: seq<nat>) {
    forall i, j :: 0 <= i < j < |s| ==> s[i] != s[j]
  }

  lemma {:induction false} InsertNumberSorts(n: nat, s: seq<nat>)
    requires Increasing(s) && n !in s
    ensures Increasing(InsertNumber(n, s)) && forall k :: k in InsertNumber(n, s) <==> k == n || k in s
  {
    if s != [] && n >= s[0] {
      assert s == [s[0]] + s[1..];
      InsertNumberSorts(n, s[1..]);
      var tail := InsertNumber(n, s[1..]);
      forall i | 0 <= i < |tail| ensures s[0] < tail[i] {
        assert tail[i] == n || tail[i] in s[1..];
      }
    }
  }

  lemma {:induction false} SortNumbersSorts(s: seq<nat>)
    requires Distinct(s)
    ensures Increasing(SortNumbers(s)) && forall k :: k in SortNumbers(s) <==> k in s
  {
    if s != [] {
      SortNumbersSorts(s[1..]);
      InsertNumberSorts(s[0], SortNumbers(s[1..]));
      assert s == [s[0]] + s[1..];
    }
  }

  // The entries of the numbered logs, in the order given.
  ghost function CatLogs(logs: map<nat, seq<Entry>>, numbers: seq<nat>): seq<Entry>
    requires forall i | 0 <= i < |numbers| :: numbers[i] in logs
  {
    if numbers == [] then [] else logs[numbers[0]] + CatLogs(logs, numbers[1..])
  }

  lemma {:induction false} CatLogsMembers(logs: map<nat, seq<Entry>>, numbers: seq<nat>, e: Entry)
    requires forall n :: n in numbers ==> n in logs
    ensures e in CatLogs(logs, numbers) <==> exists n :: n in numbers && e in logs[n]
  {
    if numbers != [] {
      CatLogsMembers(logs, numbers[1..], e);
      assert numbers == [numbers[0]] + numbers[1..];
    }
  }

  lemma {:induction false} CatLogsIncrease(logs: map<nat, seq<Entry>>, numbers: seq<nat>)
    requires (forall n :: n in numbers ==> n in logs) && LogOrder(logs) && Increasing(numbers)
    ensures SeqsIncrease(CatLogs(logs, numbers))
  {
    if numbers != [] {
      var head, tail := logs[numbers[0]], CatLogs(logs, numbers[1..]);
      CatLogsIncrease(logs, numbers[1..]);
      forall i, j | 0 <= i < |head| && 0 <= j < |tail| ensures head[i].Seq() < tail[j].Seq() {
        CatLogsMembers(logs, numbers[1..], tail[j]);
        var n :| n in numbers[1..] && tail[j] in logs[n];
        var k :| 0 <= k < |logs[n]| && logs[n][k] == tail[j];
        var m :| 0 <= m < |numbers[1..]| && numbers[1..][m] == n;
        assert numbers[0] < numbers[m + 1];
      }
    }
  }

  // The tables the manifest lists that are not in the directory
  method MissingTables(ghost t: Tree, live: set<nat>, children: seq<nat>) returns (missing: set<nat>)
    requires live == Numbers(t)
    ensures missing == Numbers(t) - Elems(children)
  {
    missing := live;
    var i := 0;
    while i < |children|
      invariant 0 <= i <= |children| && missing == live - Elems(children[..i])
    {
      assert children[..i + 1] == children[..i] + [children[i]];
      missing := missing - {children[i]};
      i := i + 1;
    }
    assert children[..i] == children;
  }

  // A disk that a run leaves has every table its manifest lists.
  lemma NothingMissing(d: Disk)
    requires DiskFiles(d)
    ensures Numbers(d.manifest.tree) <= d.tables.Keys
  {
    forall n | n in Numbers(d.manifest.tree) ensures n in d.tables {
      var l, f :| 0 <= l < NUM_LEVELS && f in d.manifest.tree[l] && f.number == n;
      assert FileStored(d.tables, f, d.manifest.nextFile);
    }
  }

  // DBImpl::Recover after the manifest has been read: give up if a table is missing, else replay
  // the surviving logs that are not older than the manifest's log number, in the order of their
  // numbers.
  method Recover(ghost d: Disk, logNumber: nat, nextFile: nat, manifestLastSeq: SeqNo, live: set<nat>,
                 tableFiles: seq<nat>, children: seq<nat>, records: map<nat, seq<LogRecord>>,
                 writeBufferSize: nat, usage: seq<Entry> -> nat, tableSize: seq<Entry> -> nat)
    returns (ok: bool, parts: seq<File>, newLog: nat, lastSeq: SeqNo)
    requires d.manifest.logNumber == logNumber && d.manifest.nextFile == nextFile && d.manifest.lastSeq == manifestLastSeq
    requires live == Numbers(d.manifest.tree) && Elems(tableFiles) == d.tables.Keys
    requires logNumber < nextFile && LogOrder(d.logs)
    requires Distinct(children) && (forall n :: n in children <==> n in d.logs)
    requires forall n :: n in d.logs ==> n in records && Join(records[n]) == d.logs[n]
    ensures ok <==> Numbers(d.manifest.tree) <= d.tables.Keys
    ensures DiskFiles(d) ==> ok
    ensures ok ==> Recovered(d, parts, newLog, lastSeq)
  {
    parts, newLog, lastSeq := [], 0, 0;
    var missing := MissingTables(d.manifest.tree, live, tableFiles);
    ok := missing == {};
    assert forall n :: n in Numbers(d.manifest.tree) ==> n in missing || n in d.tables.Keys;
    if DiskFiles(d) {
      NothingMissing(d);
    }
    if ok {
      hide *;
      parts, newLog, lastSeq :=
        RecoverLogs(d, logNumber, nextFile, manifestLastSeq, children, records, writeBufferSize, usage, tableSize);
    }
  }

  method RecoverLogs(ghost d: Disk, logNumber: nat, nextFile: nat, manifestLastSeq: SeqNo,
                     children: seq<nat>, records: map<nat, seq<LogRecord>>,
                     writeBufferSize: nat, usage: seq<Entry> -> nat, tableSize: seq<Entry> -> nat)
    returns (parts: seq<File>, newLog: nat, lastSeq: SeqNo)
    requires d.manifest.logNumber == logNumber && d.manifest.nextFile == nextFile && d.manifest.lastSeq == manifestLastSeq
    requires logNumber < nextFile && LogOrder(d.logs)
    requires Distinct(children) && (forall n :: n in children <==> n in d.logs)
    requires forall n :: n in d.logs ==> n in records && Join(records[n]) == d.logs[n]
    ensures Recovered(d, parts, newLog, lastSeq)
  {
    hide Replaying, MaxOf, LogOrder, Recovered, SeqsIncrease, Increasing;
    var logs := CollectLogs(children, logNumber);
    CatLogsIncrease(d.logs, logs);
    var maxSequence;
    parts, newLog, maxSequence := ReplayLogs(d.logs, logs, records, nextFile + 1, writeBufferSize, usage, tableSize);
    lastSeq := if manifestLastSeq < maxSequence then maxSequence else manifestLastSeq;
    AllLogsRead(d.logs, logs, logNumber);
    forall n | n in d.logs
      ensures n < newLog
    {
      if n >= logNumber {
        var j :| 0 <= j < |logs| && logs[j] == n;
      }
    }
    RecoveryIsComplete(d, parts, Elems(CatLogs(d.logs, logs)), nextFile + 1, newLog, maxSequence, lastSeq);
  }

  // One log; its number and those of its tables are used up.
  method ReplayLog(n: nat, records: seq<LogRecord>, parts0: seq<File>, next0: nat, maxSequence0: SeqNo,
                   writeBufferSize: nat, usage: seq<Entry> -> nat, tableSize: seq<Entry> -> nat,
                   ghost done: set<Entry>, ghost rest: seq<Entry>, ghost first: nat)
    returns (parts: seq<File>, next: nat, maxSequence: SeqNo)
    requires Replaying(parts0, [], done, Join(records) + rest, first, next0) && MaxOf(maxSequence0, 0, done)
    ensures Replaying(parts, [], done + Elems(Join(records)), rest, first, next)
    ensures MaxOf(maxSequence, 0, done + Elems(Join(records))) && next0 <= next && n < next
  {
    hide *;
    ghost var cuts;
    parts, next, maxSequence, cuts :=
      RecoverLogFile(records, parts0, next0, maxSequence0, writeBufferSize, usage, tableSize, done, rest, first, 0);
    if next <= n {
      RaiseNext(parts, done + Elems(Join(records)), rest, first, next, n + 1);
      next := n + 1;
    }
  }

  // The loop over the logs; file numbers in use are passed over.
  method ReplayLogs(ghost all: map<nat, seq<Entry>>, logs: seq<nat>, records: map<nat, seq<LogRecord>>, first: nat,
                    writeBufferSize: nat, usage: seq<Entry> -> nat, tableSize: seq<Entry> -> nat)
    returns (parts: seq<File>, next: nat, maxSequence: SeqNo)
    requires AllRead(all, logs, records) && SeqsIncrease(CatLogs(all, logs))
    ensures Replaying(parts, [], Elems(CatLogs(all, logs)), [], first, next)
    ensures MaxOf(maxSequence, 0, Elems(CatLogs(all, logs)))
    ensures next >= first && Below(logs, |logs|, next)
  {
    StartReplay(CatLogs(all, logs), first);
    EndOfLogs(all, records);
    BeginLogs(all, logs, first);
    hide *;
    maxSequence, next, parts := 0, first, [];
    ghost var done: set<Entry> := {};
    var i := 0;
    while i < |logs|
      invariant 0 <= i <= |logs|
      invariant Replaying(parts, [], done, CatLogs(all, logs[i..]), first, next)
      invariant MaxOf(maxSequence, 0, done)
      invariant Elems(CatLogs(all, logs)) == done + Elems(CatLogs(all, logs[i..]))
      invariant next >= first && Below(logs, i, next) && AllRead(all, logs[i..], records)
    {
      var n := logs[i];
      ghost var rest := CatLogs(all, logs[i + 1..]);
      NextLog(all, logs, records, i, done);
      ghost var before := next;
      parts, next, maxSequence :=
        ReplayLog(n, records[n], parts, next, maxSequence, writeBufferSize, usage, tableSize, done, rest, first);
      done := done + Elems(Join(records[n]));
      StaysBelow(logs, i, before, next);
      i := i + 1;
    }
    NoLogLeft(all, logs, done);
  }

  // The log files have been read in full.
  ghost predicate AllRead(all: map<nat, seq<Entry>>, logs: seq<nat>, records: map<nat, seq<LogRecord>>) {
    forall i | 0 <= i < |logs| :: logs[i] in all && logs[i] in records && Join(records[logs[i]]) == all[logs[i]]
  }

  ghost predicate Below(logs: seq<nat>, n: nat, next: nat) {
    n <= |logs| && forall j | 0 <= j < n :: logs[j] < next
  }

  lemma BeginLogs(all: map<nat, seq<Entry>>, logs: seq<nat>, first: nat)
    requires forall n :: n in logs ==> n in all
    ensures logs[0..] == logs && Below(logs, 0, first)
    ensures Elems(CatLogs(all, logs)) == {} + Elems(CatLogs(all, logs[0..]))
  {
  }

  lemma NoLogLeft(all: map<nat, seq<Entry>>, logs: seq<nat>, done: set<Entry>)
    ensures CatLogs(all, logs[|logs|..]) == [] && done + Elems(CatLogs(all, logs[|logs|..])) == done
  {
  }

  lemma StaysBelow(logs: seq<nat>, i: nat, before: nat, next: nat)
    requires i < |logs| && Below(logs, i, before) && before <= next && logs[i] < next
    ensures Below(logs, i + 1, next)
  {
  }

  lemma NextLog(all: map<nat, seq<Entry>>, logs: seq<nat>, records: map<nat, seq<LogRecord>>, i: nat, done: set<Entry>)
    requires i < |logs| && AllRead(all, logs[i..], records)
    ensures AllRead(all, logs[i + 1..], records)
    ensures logs[i] in all && logs[i] in records && Join(records[logs[i]]) == all[logs[i]]
    ensures CatLogs(all, logs[i..]) == Join(records[logs[i]]) + CatLogs(all, logs[i + 1..])
    ensures done + Elems(CatLogs(all, logs[i..]))
         == done + Elems(Join(records[logs[i]])) + Elems(CatLogs(all, logs[i + 1..]))
  {
    assert logs[i..][0] == logs[i] && logs[i..][1..] == logs[i + 1..];
    ReadRest(all, logs[i..], records);
    hide Join;
    ElemsConcat(all[logs[i]], CatLogs(all, logs[i + 1..]));
  }

  lemma ReadRest(all: map<nat, seq<Entry>>, logs: seq<nat>, records: map<nat, seq<LogRecord>>)
    requires logs != [] && AllRead(all, logs, records)
    ensures AllRead(all, logs[1..], records)
  {
    hide Join;
  }

  lemma EndOfLogs(all: map<nat, seq<Entry>>, records: map<nat, seq<LogRecord>>)
    ensures AllRead(all, [], records) && CatLogs(all, []) == [] && Elems(CatLogs(all, [])) == {}
    ensures forall next :: Below([], 0, next)
  {
  }

  lemma ElemsConcat(a: seq<Entry>, b: seq<Entry>)
    ensures Elems(a + b) == Elems(a) + Elems(b)
  {
  }

  lemma StartReplay(rest: seq<Entry>, first: nat)
    requires SeqsIncrease(rest)
    ensures Replaying([], [], {}, rest, first, first) && MaxOf(0, 0, {})
  {
  }

  lemma RaiseNext(parts: seq<File>, done: set<Entry>, rest: seq<Entry>, first: nat, next: nat, next': nat)
    requires Replaying(parts, [], done, rest, first, next) && next <= next'
    ensures Replaying(parts, [], done, rest, first, next')
  {
  }

  lemma AllLogsRead(logs: map<nat, seq<Entry>>, numbers: seq<nat>, minLog: nat)
    requires forall n :: n in numbers <==> n in logs && n >= minLog
    ensures Elems(CatLogs(logs, numbers)) == LogEntries(logs, minLog)
  {
    forall e ensures e in CatLogs(logs, numbers) <==> e in LogEntries(logs, minLog) {
      CatLogsMembers(logs, numbers, e);
    }
  }

  lemma RecoveryIsComplete(d: Disk, parts: seq<File>, done: set<Entry>, first: nat, newLog: nat,
                           maxSequence: SeqNo, lastSeq: SeqNo)
    requires Replaying(parts, [], done, [], first, newLog) && MaxOf(maxSequence, 0, done)
    requires done == LogEntries(d.logs, d.manifest.logNumber)
    requires first == d.manifest.nextFile + 1 && first <= newLog && forall n :: n in d.logs ==> n < newLog
    requires lastSeq == if d.manifest.lastSeq < maxSequence then maxSequence else d.manifest.lastSeq
    ensures Recovered(d, parts, newLog, lastSeq)
  {
    assert FilesEntries(Elems(parts)) == done;
  }

  method CollectLogs(children: seq<nat>, minLog: nat) returns (logs: seq<nat>)
    requires Distinct(children)
    ensures Increasing(logs) && forall n :: n in logs <==> n in children && n >= minLog
  {
    logs := [];
    var i := 0;
    while i < |children|
      invariant 0 <= i <= |children|
      invariant Distinct(logs) && forall n :: n in logs <==> n in children[..i] && n >= minLog
    {
      assert children[..i + 1] == children[..i] + [children[i]];
      forall j | 0 <= j < |logs| ensures logs[j] != children[i] {
        assert logs[j] in logs;
        var k :| 0 <= k < i && children[..i][k] == logs[j];
      }
      if children[i] >= minLog {
        logs := logs + [children[i]];
      }
      i := i + 1;
    }
    assert children[..i] == children;
    SortNumbersSorts(logs);
    logs := SortNumbers(logs);
  }
}
