/** The log file format: physical records laid out in 32 KB blocks, the writer that fragments
    logical records into them, and what the reader makes of a file. */
module LogFormat {
  import opened InternalKeys
  import opened Coding

  const BLOCK_SIZE := 32768
  const HEADER_SIZE := 7

  const ZERO_TYPE := 0
  const FULL_TYPE := 1
  const FIRST_TYPE := 2
  const MIDDLE_TYPE := 3
  const LAST_TYPE := 4

  // The masked checksum of a record type and payload. Any function will do.
  datatype Checksum = Checksum(value: (Byte, Bytes) -> Word)

  // ---- Physical records

  datatype Fragment = Fragment(kind: Byte, payload: Bytes)

  function FragmentSize(f: Fragment): nat { HEADER_SIZE + |f.payload| }

  function Physical(c: Checksum, f: Fragment): (r: Bytes)
    requires |f.payload| < 65536
    ensures |r| == FragmentSize(f)
  {
    Fixed32(c.value(f.kind, f.payload)) + [|f.payload| % 256, |f.payload| / 256, f.kind] + f.payload
  }

  function Zeros(n: nat): (r: Bytes)
    ensures |r| == n
  {
    seq(n, _ => 0)
  }

  // A header never starts in the last six bytes of a block.
  function PadLength(at: nat): (r: nat)
    ensures r < HEADER_SIZE && (r > 0 ==> (at + r) % BLOCK_SIZE == 0)
  {
    var leftover := BLOCK_SIZE - at % BLOCK_SIZE;
    if leftover < HEADER_SIZE then leftover else 0
  }

  function StartOf(at: nat): nat { at + PadLength(at) }

  function EndOf(at: nat, f: Fragment): nat { StartOf(at) + FragmentSize(f) }

  // The record placed at the offset stays within one block.
  predicate Fits(at: nat, f: Fragment) {
    StartOf(at) % BLOCK_SIZE + FragmentSize(f) <= BLOCK_SIZE
  }

  ghost predicate AllFit(at: nat, frags: seq<Fragment>)
    decreases |frags|
  {
    frags != [] ==> Fits(at, frags[0]) && AllFit(EndOf(at, frags[0]), frags[1..])
  }

  // The bytes of a sequence of physical records written from an offset on.
  ghost function Lay(c: Checksum, frags: seq<Fragment>, at: nat): Bytes
    requires AllFit(at, frags)
    decreases |frags|
  {
    if frags == [] then [] else
    Zeros(PadLength(at)) + Physical(c, frags[0]) + Lay(c, frags[1..], EndOf(at, frags[0]))
  }

  ghost function LayEnd(frags: seq<Fragment>, at: nat): (r: nat)
    ensures r >= at
    decreases |frags|
  {
    if frags == [] then at else LayEnd(frags[1..], EndOf(at, frags[0]))
  }

  lemma {:induction false} LayLength(c: Checksum, frags: seq<Fragment>, at: nat)
    requires AllFit(at, frags)
    ensures |Lay(c, frags, at)| == LayEnd(frags, at) - at
    decreases |frags|
  {
    if frags != [] {
      LayLength(c, frags[1..], EndOf(at, frags[0]));
    }
  }

  lemma {:induction false} LayConcat(c: Checksum, a: seq<Fragment>, b: seq<Fragment>, at: nat)
    requires AllFit(at, a) && AllFit(LayEnd(a, at), b)
    ensures AllFit(at, a + b) && LayEnd(a + b, at) == LayEnd(b, LayEnd(a, at))
    ensures Lay(c, a + b, at) == Lay(c, a, at) + Lay(c, b, LayEnd(a, at))
    decreases |a|
  {
    hide Physical, PadLength, Zeros;
    if a == [] {
      assert a + b == b;
    } else {
      assert (a + b)[0] == a[0] && (a + b)[1..] == a[1..] + b;
      LayConcat(c, a[1..], b, EndOf(at, a[0]));
    }
  }

  // ---- Fragmenting logical records

  // The payload bytes that fit behind a header placed at the offset.
  function Available(at: nat): (r: nat)
    ensures r <= BLOCK_SIZE - HEADER_SIZE
  {
    BLOCK_SIZE - StartOf(at) % BLOCK_SIZE - HEADER_SIZE
  }

  function KindOf(begin: bool, end: bool): Byte {
    if begin && end then FULL_TYPE else if begin then FIRST_TYPE else if end then LAST_TYPE else MIDDLE_TYPE
  }

  function Cut(record: Bytes, at: nat): (n: nat)
    ensures n <= |record|
  {
    if |record| < Available(at) then |record| else Available(at)
  }

  function FragmentAt(record: Bytes, at: nat, begin: bool): Fragment {
    Fragment(KindOf(begin, Cut(record, at) == |record|), record[..Cut(record, at)])
  }

  // A fragment that does not end its record fills its block.
  lemma NextOffset(record: Bytes, at: nat, begin: bool)
    ensures Fits(at, FragmentAt(record, at, begin))
    ensures Cut(record, at) < |record| ==>
              var next := EndOf(at, FragmentAt(record, at, begin));
              && next % BLOCK_SIZE == 0
              && Available(next) == BLOCK_SIZE - HEADER_SIZE
              && StartOf(next) == next
              && next == BLOCK_SIZE * (StartOf(at) / BLOCK_SIZE + 1)
  {
    if Cut(record, at) < |record| {
      var s := StartOf(at);
      var next := EndOf(at, FragmentAt(record, at, begin));
      assert next == BLOCK_SIZE * (s / BLOCK_SIZE + 1);
    }
  }

  // Writer::AddRecord's fragments of a record written from an offset on. A record that finds
  // room only for a header leaves an empty first fragment behind.
  ghost function Fragments(record: Bytes, at: nat, begin: bool): (r: seq<Fragment>)
    ensures r != [] && r[0] == FragmentAt(record, at, begin)
    decreases |record|, if Available(at) == 0 then 1 else 0
  {
    var f := FragmentAt(record, at, begin);
    if Cut(record, at) == |record| then [f] else
    NextOffset(record, at, begin);
    [f] + Fragments(record[Cut(record, at)..], EndOf(at, f), false)
  }

  lemma {:induction false} FragmentsFit(c: Checksum, record: Bytes, at: nat, begin: bool)
    ensures AllFit(at, Fragments(record, at, begin))
    ensures var f := FragmentAt(record, at, begin);
            var rest := record[Cut(record, at)..];
            if Cut(record, at) == |record| then
              && Lay(c, Fragments(record, at, begin), at) == Zeros(PadLength(at)) + Physical(c, f)
              && LayEnd(Fragments(record, at, begin), at) == EndOf(at, f)
            else
              && Fragments(record, at, begin)[1..] == Fragments(rest, EndOf(at, f), false)
              && AllFit(EndOf(at, f), Fragments(rest, EndOf(at, f), false))
              && Lay(c, Fragments(record, at, begin), at)
                 == Zeros(PadLength(at)) + Physical(c, f) + Lay(c, Fragments(rest, EndOf(at, f), false), EndOf(at, f))
              && LayEnd(Fragments(record, at, begin), at) == LayEnd(Fragments(rest, EndOf(at, f), false), EndOf(at, f))
    decreases |record|, if Available(at) == 0 then 1 else 0
  {
    NextOffset(record, at, begin);
    hide Physical, PadLength, Zeros, Fits, StartOf, EndOf, KindOf;
    var f := FragmentAt(record, at, begin);
    var frags := Fragments(record, at, begin);
    if Cut(record, at) == |record| {
      assert frags[1..] == [];
    } else {
      var rest := Fragments(record[Cut(record, at)..], EndOf(at, f), false);
      FragmentsFit(c, record[Cut(record, at)..], EndOf(at, f), false);
      assert frags[1..] == rest;
    }
  }

  // ---- The format in numbers

  // Four bytes of checksum, two of length and one of type, all little-endian, and the payload
  lemma PhysicalBytes(c: Checksum, f: Fragment)
    requires |f.payload| < 65536
    ensures var b := Physical(c, f);
            && |b| == 7 + |f.payload| && LittleEndian(b[..4]) == c.value(f.kind, f.payload)
            && LittleEndian(b[4..6]) == |f.payload| && b[6] == f.kind && b[7..] == f.payload
  {
    var b := Physical(c, f);
    var sum := Fixed32(c.value(f.kind, f.payload));
    Word32Bytes(c.value(f.kind, f.payload));
    assert b[..4] == sum && b[4..6] == [|f.payload| % 256, |f.payload| / 256];
    LittleEndianFront(b[4..6]);
    LittleEndianFront(b[4..6][1..]);
  }

  ghost function Joined(frags: seq<Fragment>): Bytes {
    if frags == [] then [] else frags[0].payload + Joined(frags[1..])
  }

  // A single fragment has type 1; otherwise the first has type 2, the last type 4 and those
  // between type 3. What continues a record has no first fragment.
  ghost predicate TypedByPlace(frags: seq<Fragment>, begin: bool) {
    if |frags| == 1 then frags[0].kind == if begin then 1 else 4
    else frags != [] && frags[0].kind == (if begin then 2 else 3) && TypedByPlace(frags[1..], false)
  }

  // All fragments but the last end on a multiple of 32768.
  ghost predicate FillBlocks(frags: seq<Fragment>, at: nat)
    decreases |frags|
  {
    |frags| > 1 ==> EndOf(at, frags[0]) % 32768 == 0 && FillBlocks(frags[1..], EndOf(at, frags[0]))
  }

  // Where a record goes: its fragments make it up, typed by their place in it, and fill their
  // blocks. Fewer than seven bytes at the end of a block stay empty.
  lemma {:induction false} FragmentsShape(record: Bytes, at: nat, begin: bool)
    ensures Joined(Fragments(record, at, begin)) == record
    ensures TypedByPlace(Fragments(record, at, begin), begin) && FillBlocks(Fragments(record, at, begin), at)
    ensures StartOf(at) == if at % 32768 > 32761 then at + 32768 - at % 32768 else at
    decreases |record|, if Available(at) == 0 then 1 else 0
  {
    var frags := Fragments(record, at, begin);
    var n := Cut(record, at);
    NextOffset(record, at, begin);
    assert StartOf(at) == if at % 32768 > 32761 then at + 32768 - at % 32768 else at;
    hide PadLength, Fits, StartOf, EndOf;
    if n == |record| {
      assert frags[1..] == [] && record[..n] == record;
    } else {
      var f := FragmentAt(record, at, begin);
      FragmentsShape(record[n..], EndOf(at, f), false);
      var rest := Fragments(record[n..], EndOf(at, f), false);
      assert frags[1..] == rest && record[..n] + record[n..] == record;
      hide Available, Cut;
    }
  }

  // All physical records of a list of logical records written from an offset on.
  ghost function RecordsAt(records: seq<Bytes>, at: nat): seq<Fragment>
    decreases |records|
  {
    if records == [] then [] else
    var frags := Fragments(records[0], at, true);
    frags + RecordsAt(records[1..], LayEnd(frags, at))
  }

  ghost function EndAt(records: seq<Bytes>, at: nat): nat {
    LayEnd(RecordsAt(records, at), at)
  }

  lemma {:induction false} RecordsFit(c: Checksum, records: seq<Bytes>, at: nat)
    ensures AllFit(at, RecordsAt(records, at))
    ensures records != [] ==>
              var frags := Fragments(records[0], at, true);
              && AllFit(at, frags) && AllFit(LayEnd(frags, at), RecordsAt(records[1..], LayEnd(frags, at)))
              && EndAt(records, at) == EndAt(records[1..], LayEnd(frags, at))
              && Lay(c, RecordsAt(records, at), at)
                 == Lay(c, frags, at) + Lay(c, RecordsAt(records[1..], LayEnd(frags, at)), LayEnd(frags, at))
    decreases |records|
  {
    hide Lay, LayEnd, Fragments;
    if records != [] {
      hide AllFit;
      var frags := Fragments(records[0], at, true);
      FragmentsFit(c, records[0], at, true);
      RecordsFit(c, records[1..], LayEnd(frags, at));
      LayConcat(c, frags, RecordsAt(records[1..], LayEnd(frags, at)), at);
    }
  }

  // The file the writer produces for a list of records.
  ghost function FileOf(c: Checksum, records: seq<Bytes>): Bytes {
    RecordsFit(c, records, 0);
    Lay(c, RecordsAt(records, 0), 0)
  }

  // A file after one more record, or after the rest of one.
  ghost function WithRecord(c: Checksum, dest: Bytes, record: Bytes, begin: bool): Bytes {
    FragmentsFit(c, record, |dest|, begin);
    dest + Lay(c, Fragments(record, |dest|, begin), |dest|)
  }

  lemma EmitStep(c: Checksum, dest: Bytes, left: Bytes, begin: bool)
    ensures var f := FragmentAt(left, |dest|, begin);
            var next := dest + Zeros(PadLength(|dest|)) + Physical(c, f);
            && |next| == EndOf(|dest|, f)
            && WithRecord(c, dest, left, begin)
               == if Cut(left, |dest|) == |left| then next else WithRecord(c, next, left[Cut(left, |dest|)..], false)
  {
    var at := |dest|;
    var f := FragmentAt(left, at, begin);
    NextOffset(left, at, begin);
    FragmentsFit(c, left, at, begin);
    assert at + PadLength(at) + FragmentSize(f) == EndOf(at, f);
    hide Physical, Zeros, Lay, AllFit, LayEnd, Fragments, FragmentAt, Cut, PadLength, Fits, StartOf, EndOf, Available;
    var bytes := Zeros(PadLength(at)) + Physical(c, f);
    Regroup(dest, Zeros(PadLength(at)), Physical(c, f));
    if Cut(left, at) < |left| {
      Regroup(dest, bytes, Lay(c, Fragments(left[Cut(left, at)..], EndOf(at, f), false), EndOf(at, f)));
    }
  }

  // A file after a list of further records.
  ghost function WithRecords(c: Checksum, dest: Bytes, records: seq<Bytes>): Bytes {
    RecordsFit(c, records, |dest|);
    dest + Lay(c, RecordsAt(records, |dest|), |dest|)
  }

  lemma RecordStep(c: Checksum, dest: Bytes, records: seq<Bytes>)
    ensures WithRecords(c, dest, []) == dest
    ensures records != [] ==>
              WithRecords(c, dest, records) == WithRecords(c, WithRecord(c, dest, records[0], true), records[1..])
  {
    if records != [] {
      RecordsFit(c, records, |dest|);
      FragmentsFit(c, records[0], |dest|, true);
      LayLength(c, Fragments(records[0], |dest|, true), |dest|);
      hide Lay, AllFit, LayEnd, Fragments, RecordsAt;
    }
  }

  // ---- The writer

  class Writer {
    const c: Checksum
    var dest: Bytes
    var blockOffset: nat

    // A fresh file, or one continued at its end.
    constructor (c: Checksum, dest: Bytes)
      ensures Valid() && this.c == c && this.dest == dest
    {
      this.c, this.dest := c, dest;
      blockOffset := |dest| % BLOCK_SIZE;
    }

    ghost predicate Valid()
      reads this
    {
      blockOffset <= BLOCK_SIZE && blockOffset % BLOCK_SIZE == |dest| % BLOCK_SIZE
    }

    // Writer::AddRecord
    method AddRecord(record: Bytes)
      requires Valid()
      modifies this
      ensures Valid()
      ensures dest == WithRecord(c, old(dest), record, true)
    {
      hide Physical, Zeros, KindOf, WithRecord;
      var left := record;
      var begin := true;
      var more := true;
      while more
        invariant Valid()
        invariant WithRecord(c, old(dest), record, true) == if more then WithRecord(c, dest, left, begin) else dest
        decreases more, |left|, if Available(|dest|) == 0 then 1 else 0
      {
        ghost var before := dest;
        NextOffset(left, |before|, begin);
        EmitStep(c, before, left, begin);
        SwitchBlock();
        var avail := BLOCK_SIZE - blockOffset - HEADER_SIZE;
        var length := if |left| < avail then |left| else avail;
        var end := |left| == length;
        var f := Fragment(KindOf(begin, end), left[..length]);
        assert f == FragmentAt(left, |before|, begin);
        EmitPhysicalRecord(f);
        left := left[length..];
        begin := false;
        more := |left| > 0;
      }
    }

    method SwitchBlock()
      requires Valid()
      modifies this
      ensures dest == old(dest) + Zeros(PadLength(|old(dest)|))
      ensures blockOffset == StartOf(|old(dest)|) % BLOCK_SIZE && |dest| == StartOf(|old(dest)|)
    {
      var leftover := BLOCK_SIZE - blockOffset;
      if leftover < HEADER_SIZE {
        dest := dest + Zeros(leftover);
        blockOffset := 0;
      }
    }

    // Writer::EmitPhysicalRecord
    method EmitPhysicalRecord(f: Fragment)
      requires blockOffset + FragmentSize(f) <= BLOCK_SIZE && blockOffset % BLOCK_SIZE == |dest| % BLOCK_SIZE
      modifies this
      ensures dest == old(dest) + Physical(c, f) && blockOffset == old(blockOffset) + FragmentSize(f)
      ensures Valid()
    {
      dest := dest + Physical(c, f);
      blockOffset := blockOffset + HEADER_SIZE + |f.payload|;
    }
  }

  lemma Rest(records: seq<Bytes>, i: nat)
    requires i <= |records|
    ensures i == 0 ==> records[i..] == records
    ensures i < |records| ==> records[i..] != [] && records[i..][0] == records[i] && records[i..][1..] == records[i + 1..]
    ensures i == |records| ==> records[i..] == []
  {
  }

  lemma FileFromNothing(c: Checksum, records: seq<Bytes>)
    ensures WithRecords(c, [], records) == FileOf(c, records)
  {
    RecordsFit(c, records, 0);
    hide RecordsAt, Lay, AllFit;
  }

  // Writing record after record, with a new writer at the end of the file at any point,
  // produces FileOf.
  method WriteAll(c: Checksum, records: seq<Bytes>, reopenBefore: set<nat>) returns (file: Bytes)
    ensures file == FileOf(c, records)
  {
    var w := new Writer(c, []);
    var i := 0;
    Rest(records, 0);
    FileFromNothing(c, records);
    hide *;
    while i < |records|
      invariant 0 <= i <= |records| && w.Valid() && w.c == c && fresh(w)
      invariant WithRecords(c, w.dest, records[i..]) == FileOf(c, records)
    {
      if i in reopenBefore {
        w := new Writer(c, w.dest);
      }
      RecordStep(c, w.dest, records[i..]);
      Rest(records, i);
      w.AddRecord(records[i]);
      i := i + 1;
    }
    RecordStep(c, w.dest, []);
    Rest(records, i);
    file := w.dest;
  }
}
