/** A damaged block costs exactly the records that touch it. */
module LogDamage {
  import opened InternalKeys
  import opened Coding
  import opened LogFormat
  import opened LogReader
  import opened LogTheorems

  ghost function RecordStart(records: seq<Bytes>, i: nat): nat
    requires i < |records|
  {
    StartOf(EndAt(records[..i], 0))
  }

  ghost function RecordEnd(records: seq<Bytes>, i: nat): nat
    requires i < |records|
  {
    EndAt(records[..i + 1], 0)
  }

  // No byte of the record lies in the block.
  ghost predicate Avoids(records: seq<Bytes>, i: nat, k: nat)
    requires i < |records|
  {
    RecordEnd(records, i) <= k * BLOCK_SIZE || RecordStart(records, i) >= (k + 1) * BLOCK_SIZE
  }

  ghost function BlockEnd(f: Bytes, k: nat): nat {
    if |f| < (k + 1) * BLOCK_SIZE then |f| else (k + 1) * BLOCK_SIZE
  }

  // The first physical record of the block is refused: its length runs past the block, it is
  // an empty zero record, or its checksum is wrong.
  ghost predicate Rejected(c: Checksum, f: Bytes, k: nat) {
    var at := k * BLOCK_SIZE;
    && at + HEADER_SIZE <= |f|
    && var length := HeaderLength(f, at);
    || HEADER_SIZE + length > BlockEnd(f, k) - at
    || (f[at + 6] == ZERO_TYPE && length == 0)
    || HeaderSum(f, at) != c.value(f[at + 6], f[at + HEADER_SIZE..at + HEADER_SIZE + length])
  }

  // A length that runs past the end of the file looks like a crash in the middle of a write.
  ghost predicate LooksCut(f: Bytes, k: nat)
    requires k * BLOCK_SIZE + HEADER_SIZE <= |f|
  {
    |f| < (k + 1) * BLOCK_SIZE && k * BLOCK_SIZE + HEADER_SIZE + HeaderLength(f, k * BLOCK_SIZE) > |f|
  }

  // What the refused block itself is reported as: all of it, unless it looks preallocated
  ghost function RefusedBytes(f: Bytes, k: nat): nat
    requires k * BLOCK_SIZE + HEADER_SIZE <= |f|
  {
    if f[k * BLOCK_SIZE + 6] == 0 && HeaderLength(f, k * BLOCK_SIZE) == 0 then 0 else BlockEnd(f, k) - k * BLOCK_SIZE
  }

  // The payload bytes of the fragments that start before the offset
  ghost function BytesBefore(frags: seq<Fragment>, at: nat, y: nat): (n: nat)
    ensures n <= |Joined(frags)|
    decreases |frags|
  {
    if frags == [] then 0
    else (if StartOf(at) < y then |frags[0].payload| else 0) + BytesBefore(frags[1..], EndOf(at, frags[0]), y)
  }

  // A record's bytes before and behind an offset
  ghost function LostBefore(records: seq<Bytes>, i: nat, y: nat): nat
    requires i < |records|
  {
    BytesBefore(Fragments(records[i], EndAt(records[..i], 0), true), EndAt(records[..i], 0), y)
  }

  ghost function LostBehind(records: seq<Bytes>, i: nat, y: nat): nat
    requires i < |records|
  {
    FragmentsShape(records[i], EndAt(records[..i], 0), true);
    |records[i]| - LostBefore(records, i, y)
  }

  lemma {:induction false} NoneBefore(frags: seq<Fragment>, at: nat, y: nat)
    requires StartOf(at) >= y
    ensures BytesBefore(frags, at, y) == 0
    decreases |frags|
  {
    if frags != [] {
      StartGrows(at, EndOf(at, frags[0]));
      NoneBefore(frags[1..], EndOf(at, frags[0]), y);
    }
  }

  lemma {:induction false} AllBefore(frags: seq<Fragment>, at: nat, y: nat)
    requires LayEnd(frags, at) <= y
    ensures BytesBefore(frags, at, y) == |Joined(frags)|
    decreases |frags|
  {
    if frags != [] {
      AllBefore(frags[1..], EndOf(at, frags[0]), y);
    }
  }

  lemma {:induction false} BeforeSplit(frags: seq<Fragment>, at: nat, y: nat, j: nat)
    requires j <= |frags| && StartOf(LayEnd(frags[..j], at)) == y
    ensures BytesBefore(frags, at, y) == |Joined(frags[..j])|
    ensures |Joined(frags)| == |Joined(frags[..j])| + |Joined(frags[j..])|
    decreases j
  {
    hide PadLength;
    if j == 0 {
      assert frags[..0] == [] && frags[0..] == frags;
      NoneBefore(frags, at, y);
    } else {
      var next := EndOf(at, frags[0]);
      assert frags[..j][0] == frags[0] && frags[..j][1..] == frags[1..][..j - 1] && frags[1..][j - 1..] == frags[j..];
      BeforeSplit(frags[1..], next, y, j - 1);
      assert StartOf(LayEnd(frags[..j], at)) >= LayEnd(frags[..j], at) >= next > StartOf(at);
    }
  }

  // The buffer that holds the block
  lemma BlockInBuffer(c: Checksum, f: Bytes, s: Cursor, k: nat) returns (t: Cursor)
    requires Good(f, s) && StartOf(s.pos) == k * BLOCK_SIZE && k * BLOCK_SIZE + HEADER_SIZE <= |f|
    ensures Good(f, t) && t.end - t.pos >= HEADER_SIZE && ReadPhysical(c, f, s) == Parse(c, f, t)
    ensures t.pos == k * BLOCK_SIZE && t.end == BlockEnd(f, k) && (t.eof <==> |f| < (k + 1) * BLOCK_SIZE)
  {
    if s.end - s.pos >= HEADER_SIZE {
      InBuffer(f, s);
      t := s;
    } else {
      if !s.eof {
        InTrailer(f, s);
      }
      t := Refill(f, s);
    }
    assert t.pos == k * BLOCK_SIZE;
    hide PadLength, StartOf, Parse, Refill;
  }

  lemma ReadRejected(c: Checksum, f: Bytes, s: Cursor, k: nat)
    requires Good(f, s) && StartOf(s.pos) == k * BLOCK_SIZE && Rejected(c, f, k)
    ensures var o := ReadPhysical(c, f, s);
            && o.next.pos == BlockEnd(f, k)
            && (if LooksCut(f, k) then o.kind == END_OF_FILE && BlockEnd(f, k) == |f| && o.drops == []
                else o.kind == BAD_RECORD && Total(o.drops) == RefusedBytes(f, k) && |o.drops| <= 1)
  {
    OneReport(BlockEnd(f, k) - k * BLOCK_SIZE);
    var t := BlockInBuffer(c, f, s, k);
    hide PadLength, StartOf, HeaderSum, HeaderLength, ReadPhysical, Total;
  }

  lemma OneReport(n: nat)
    ensures Total([n]) == n && Total([]) == 0
  {
    TotalWith([], n);
    assert [] + [n] == [n];
  }

  // ---- Locating records

  lemma EndsGrow(records: seq<Bytes>, i: nat, j: nat)
    requires i <= j <= |records|
    ensures EndAt(records[..i], 0) <= EndAt(records[..j], 0)
  {
    assert records[..j] == records[..i] + records[i..j];
    RecordsConcat(records[..i], records[i..j], 0);
  }

  lemma {:induction false} FindRecord(records: seq<Bytes>, x: nat, n: nat) returns (p: nat)
    requires n <= |records| && x < EndAt(records[..n], 0)
    ensures p < n && EndAt(records[..p], 0) <= x < EndAt(records[..p + 1], 0)
    decreases n
  {
    assert n > 0 by {
      NoRecords(Checksum((_, _) => 0), 0);
      assert records[..0] == [];
    }
    if EndAt(records[..n - 1], 0) <= x {
      p := n - 1;
    } else {
      p := FindRecord(records, x, n - 1);
    }
  }

  // A record that reaches past a block boundary has a fragment starting on it.
  lemma {:induction false} ReachBlock(record: Bytes, at: nat, begin: bool, y: nat) returns (j: nat, rest: Bytes)
    requires at <= y < LayEnd(Fragments(record, at, begin), at) && y % BLOCK_SIZE == 0
    ensures j < |Fragments(record, at, begin)|
    ensures StartOf(LayEnd(Fragments(record, at, begin)[..j], at)) == y >= LayEnd(Fragments(record, at, begin)[..j], at)
    ensures j == 0 <==> StartOf(at) == y
    ensures Fragments(record, at, begin)[j..]
         == Fragments(rest, LayEnd(Fragments(record, at, begin)[..j], at), begin && j == 0)
    decreases |record|, if Available(at) == 0 then 1 else 0
  {
    var frags := Fragments(record, at, begin);
    var f := FragmentAt(record, at, begin);
    NextOffset(record, at, begin);
    if StartOf(at) == y {
      assert frags[..0] == [] && frags[0..] == frags;
      return 0, record;
    }
    BelowBoundary(at, f, y);
    LastEnds(record, at, begin);
    var next := EndOf(at, f);
    hide PadLength, Fits, Available;
    assert frags[1..] == Fragments(record[Cut(record, at)..], next, false);
    j, rest := ReachBlock(record[Cut(record, at)..], next, false, y);
    assert frags[..j + 1][1..] == frags[1..][..j];
    assert frags[j + 1..] == frags[1..][j..];
    j := j + 1;
  }

  lemma LastEnds(record: Bytes, at: nat, begin: bool)
    ensures Cut(record, at) == |record| ==>
              LayEnd(Fragments(record, at, begin), at) == EndOf(at, FragmentAt(record, at, begin))
  {
    if Cut(record, at) == |record| {
      assert Fragments(record, at, begin)[1..] == [];
    }
  }

  lemma BelowBoundary(at: nat, f: Fragment, y: nat)
    requires at <= y && y % BLOCK_SIZE == 0 && StartOf(at) != y && Fits(at, f)
    ensures StartOf(at) < y && EndOf(at, f) <= y
  {
  }

  lemma StartBelow(at: nat, y: nat)
    requires y % BLOCK_SIZE == 0
    ensures at <= y ==> StartOf(at) <= y
    ensures at == y ==> StartOf(at) == y
    ensures StartOf(at) >= at
  {
  }

  // A file of records holds each tail of them where the records before it end.
  lemma TailIsHeld(c: Checksum, records: seq<Bytes>, u: nat)
    requires u <= |records|
    ensures var at := EndAt(records[..u], 0);
            && Holds(c, FileOf(c, records), 0, RecordsAt(records[..u], 0))
            && Holds(c, FileOf(c, records), at, RecordsAt(records[u..], at))
            && LayEnd(RecordsAt(records[u..], at), at) == |FileOf(c, records)|
            && LayEnd(RecordsAt(records[..u], 0), 0) == at
  {
    FileIsHeld(c, records);
    assert records == records[..u] + records[u..];
    RecordsConcat(records[..u], records[u..], 0);
    hide FileOf, RecordsAt, Holds;
    HoldsConcat(c, FileOf(c, records), 0, RecordsAt(records[..u], 0), RecordsAt(records[u..], EndAt(records[..u], 0)));
  }

  lemma RecordIsHeld(c: Checksum, records: seq<Bytes>, u: nat)
    requires u < |records|
    ensures var at := EndAt(records[..u], 0);
            var frags := Fragments(records[u], at, true);
            && Holds(c, FileOf(c, records), at, frags)
            && LayEnd(frags, at) == EndAt(records[..u + 1], 0)
  {
    var at := EndAt(records[..u], 0);
    var frags := Fragments(records[u], at, true);
    TailIsHeld(c, records, u);
    Split(c, records, u);
    assert records[u..][0] == records[u];
    HoldsConcat(c, FileOf(c, records), at, frags, RecordsAt(records[u..][1..], LayEnd(frags, at)));
  }

  // The two files differ in one block only.
  ghost predicate DamagedIn(f: Bytes, g: Bytes, k: nat) {
    |g| == |f| && forall i | 0 <= i < |f| && !(k * BLOCK_SIZE <= i < (k + 1) * BLOCK_SIZE) :: g[i] == f[i]
  }

  // ---- The part before the block

  lemma ScanWhole(c: Checksum, records: seq<Bytes>, g: Bytes, k: nat, p: nat) returns (s: Cursor)
    requires DamagedIn(FileOf(c, records), g, k) && p <= |records|
    requires EndAt(records[..p], 0) <= k * BLOCK_SIZE
    ensures Good(g, s) && StartOf(s.pos) == StartOf(EndAt(records[..p], 0))
    ensures ReadOf(c, g) == Scan(c, g, s, Assembly(records[..p], None, []))
  {
    TailIsHeld(c, records, p);
    hide FileOf, EndAt, RecordsAt, Holds, Scan, LayEnd, PadLength;
    HoldsAgree(c, FileOf(c, records), g, 0, RecordsAt(records[..p], 0));
    assert [] + records[..p] == records[..p];
    s := ScanRecords(c, g, START, [], [], 0, records[..p]);
  }

  // From a record's start to the block it runs into.
  lemma ScanInto(c: Checksum, f: Bytes, g: Bytes, k: nat, s: Cursor, out: seq<Bytes>, record: Bytes, at: nat)
      returns (t: Cursor, a: Assembly)
    requires DamagedIn(f, g, k) && Holds(c, f, at, Fragments(record, at, true))
    requires Good(g, s) && StartOf(s.pos) == StartOf(at)
    requires at <= k * BLOCK_SIZE < LayEnd(Fragments(record, at, true), at) <= |f|
    ensures Good(g, t) && StartOf(t.pos) == k * BLOCK_SIZE
    ensures Scan(c, g, s, Assembly(out, None, [])) == Scan(c, g, t, a) && a.out == out
    ensures a.drops == [] && Pending(a) == BytesBefore(Fragments(record, at, true), at, k * BLOCK_SIZE)
  {
    var frags := Fragments(record, at, true);
    hide Holds, Scan, Run, Fragments, LayEnd, PadLength, StartOf, Good;
    var j, rest := ReachBlock(record, at, true, k * BLOCK_SIZE);
    assert frags[..j] + frags[j..] == frags;
    HoldsConcat(c, f, at, frags[..j], frags[j..]);
    HoldsAgree(c, f, g, at, frags[..j]);
    RunPart(Assembly(out, None, []), record, at, true, j);
    BeforeSplit(frags, at, k * BLOCK_SIZE, j);
    a := Run(Assembly(out, None, []), frags[..j]);
    t := ScanHeld(c, g, s, Assembly(out, None, []), at, frags[..j]);
  }

  lemma ScanBefore(c: Checksum, records: seq<Bytes>, g: Bytes, k: nat, p: nat) returns (s: Cursor, a: Assembly)
    requires DamagedIn(FileOf(c, records), g, k) && p < |records|
    requires EndAt(records[..p], 0) <= k * BLOCK_SIZE < EndAt(records[..p + 1], 0)
    ensures Good(g, s) && StartOf(s.pos) == k * BLOCK_SIZE
    ensures ReadOf(c, g) == Scan(c, g, s, a) && a.out == records[..p]
    ensures a.drops == [] && Pending(a) == LostBefore(records, p, k * BLOCK_SIZE)
  {
    TailIsHeld(c, records, p);
    RecordIsHeld(c, records, p);
    WholeFile(c, records, p + 1);
    hide FileOf, EndAt, RecordsAt, Holds, Scan, Fragments, LayEnd, PadLength, StartOf, DamagedIn, Good;
    s := ScanWhole(c, records, g, k, p);
    s, a := ScanInto(c, FileOf(c, records), g, k, s, records[..p], records[p], EndAt(records[..p], 0));
  }

  lemma WholeFile(c: Checksum, records: seq<Bytes>, u: nat)
    requires u <= |records|
    ensures EndAt(records[..u], 0) <= |FileOf(c, records)|
  {
    TailIsHeld(c, records, u);
  }

  // ---- The part behind the block

  lemma ScanTail(c: Checksum, records: seq<Bytes>, g: Bytes, k: nat, u: nat, s: Cursor, a: Assembly)
    requires DamagedIn(FileOf(c, records), g, k) && u <= |records| && a.scratch.None?
    requires StartOf(EndAt(records[..u], 0)) >= (k + 1) * BLOCK_SIZE
    requires Good(g, s) && StartOf(s.pos) == StartOf(EndAt(records[..u], 0))
    ensures Scan(c, g, s, a).out == a.out + records[u..] && Scan(c, g, s, a).drops == a.drops
  {
    var f := FileOf(c, records);
    var at := EndAt(records[..u], 0);
    TailIsHeld(c, records, u);
    hide FileOf, RecordsAt, Holds, Scan, LayEnd, PadLength;
    HoldsAgree(c, f, g, at, RecordsAt(records[u..], at));
    var t := ScanRecords(c, g, s, a.out, a.drops, at, records[u..]);
    ReadAtEnd(c, g, t);
    ScanStep(c, g, t, Assembly(a.out + records[u..], None, a.drops));
    assert a.drops + [] == a.drops;
    assert a == Assembly(a.out, None, a.drops);
  }

  // From the end of the block on, the rest of a record begun earlier is skipped.
  lemma ScanBehind(c: Checksum, records: seq<Bytes>, g: Bytes, k: nat, u: nat, s: Cursor, a: Assembly) returns (q: nat)
    requires DamagedIn(FileOf(c, records), g, k) && u < |records| && a.scratch.None?
    requires EndAt(records[..u], 0) <= (k + 1) * BLOCK_SIZE < EndAt(records[..u + 1], 0)
    requires Good(g, s) && s.pos == (k + 1) * BLOCK_SIZE
    ensures q == (if StartOf(EndAt(records[..u], 0)) == (k + 1) * BLOCK_SIZE then u else u + 1)
    ensures Scan(c, g, s, a).out == a.out + records[q..]
    ensures Total(Scan(c, g, s, a).drops)
         == Total(a.drops) + if q == u then 0 else LostBehind(records, u, (k + 1) * BLOCK_SIZE)
  {
    var f := FileOf(c, records);
    var at := EndAt(records[..u], 0);
    var y := (k + 1) * BLOCK_SIZE;
    StartBelow(s.pos, y);
    StartBelow(EndAt(records[..u + 1], 0), y);
    if StartOf(at) == y {
      ScanTail(c, records, g, k, u, s, a);
      return u;
    }
    RecordIsHeld(c, records, u);
    WholeFile(c, records, u + 1);
    hide FileOf, EndAt, Holds, Scan, Fragments, LayEnd, PadLength, StartOf, DamagedIn, Good;
    var t, b := ScanRest(c, f, g, k, s, a, records[u], at);
    ScanTail(c, records, g, k, u + 1, t, b);
    return u + 1;
  }

  lemma ScanRest(c: Checksum, f: Bytes, g: Bytes, k: nat, s: Cursor, a: Assembly, record: Bytes, at: nat)
      returns (t: Cursor, b: Assembly)
    requires DamagedIn(f, g, k) && Holds(c, f, at, Fragments(record, at, true)) && a.scratch.None?
    requires Good(g, s) && StartOf(s.pos) == (k + 1) * BLOCK_SIZE != StartOf(at)
    requires at <= (k + 1) * BLOCK_SIZE < LayEnd(Fragments(record, at, true), at) <= |f|
    ensures Good(g, t) && StartOf(t.pos) == StartOf(LayEnd(Fragments(record, at, true), at))
    ensures Scan(c, g, s, a) == Scan(c, g, t, b) && b.out == a.out && b.scratch.None?
    ensures Total(b.drops) == Total(a.drops) + |record| - BytesBefore(Fragments(record, at, true), at, (k + 1) * BLOCK_SIZE)
  {
    var frags := Fragments(record, at, true);
    hide Holds, Scan, Run, Fragments, LayEnd, PadLength, StartOf, Good;
    var j, rest := ReachBlock(record, at, true, (k + 1) * BLOCK_SIZE);
    var x := LayEnd(frags[..j], at);
    assert frags[..j] + frags[j..] == frags;
    HoldsConcat(c, f, at, frags[..j], frags[j..]);
    HoldsAgree(c, f, g, x, frags[j..]);
    RunRecord(a, rest, x, false);
    BeforeSplit(frags, at, (k + 1) * BLOCK_SIZE, j);
    FragmentsShape(record, at, true);
    FragmentsShape(rest, x, false);
    b := Run(a, frags[j..]);
    t := ScanHeld(c, g, s, a, x, frags[j..]);
  }

  // ---- Which records touch the block

  lemma TouchersAre(records: seq<Bytes>, k: nat, p: nat, q: nat, i: nat)
    requires p < |records| && q <= |records| && i < |records|
    requires EndAt(records[..p], 0) <= k * BLOCK_SIZE < EndAt(records[..p + 1], 0)
    requires q < |records| ==> StartOf(EndAt(records[..q], 0)) >= (k + 1) * BLOCK_SIZE
    requires q > 0 ==> StartOf(EndAt(records[..q - 1], 0)) < (k + 1) * BLOCK_SIZE
    ensures Avoids(records, i, k) <==> i < p || i >= q
  {
    hide EndAt, PadLength;
    if i < p {
      EndsGrow(records, i + 1, p);
    } else {
      EndsGrow(records, p + 1, i + 1);
      if i >= q {
        EndsGrow(records, q, i);
        StartGrows(EndAt(records[..q], 0), EndAt(records[..i], 0));
      } else {
        EndsGrow(records, i, q - 1);
        StartGrows(EndAt(records[..i], 0), EndAt(records[..q - 1], 0));
      }
    }
  }

  lemma StartGrows(a: nat, b: nat)
    requires a <= b
    ensures StartOf(a) <= StartOf(b)
  {
  }

  // A refused record gives up the record being put together, and reports it.
  lemma RefusedFeed(a: Assembly, drops: seq<nat>, payload: Bytes)
    requires |drops| <= 1
    ensures var d := Feed(a.(drops := a.drops + drops), BAD_RECORD, payload);
            d.out == a.out && d.scratch.None? && Total(d.drops) == Total(a.drops) + Total(drops) + Pending(a)
  {
    TotalJoin(a.drops, drops);
    TotalWith(a.drops + drops, Pending(a));
    hide Total;
  }

  // Behind the last block there is nothing more to read.
  lemma ScanEnds(c: Checksum, g: Bytes, t: Cursor, d: Assembly)
    requires Good(g, t) && t.pos == |g| && d.scratch.None?
    ensures Scan(c, g, t, d) == d
  {
    StartBelow(t.pos, 0);
    ReadAtEnd(c, g, t);
    ScanStep(c, g, t, d);
    hide Scan, ReadPhysical, PadLength, StartOf, Good;
    assert d.drops + [] == d.drops;
  }

  lemma SkipBlock(c: Checksum, g: Bytes, k: nat, s: Cursor, a: Assembly) returns (t: Cursor, d: Assembly)
    requires Rejected(c, g, k) && Good(g, s) && StartOf(s.pos) == k * BLOCK_SIZE
    ensures Good(g, t) && t.pos == BlockEnd(g, k) && d.out == a.out && d.scratch.None?
    ensures if BlockEnd(g, k) == |g| then Scan(c, g, s, a).out == a.out else Scan(c, g, s, a) == Scan(c, g, t, d)
    ensures LooksCut(g, k) ==> BlockEnd(g, k) == |g| && Scan(c, g, s, a).drops == a.drops
    ensures !LooksCut(g, k) ==> Total(d.drops) == Total(a.drops) + RefusedBytes(g, k) + Pending(a)
    ensures !LooksCut(g, k) && BlockEnd(g, k) == |g| ==> Scan(c, g, s, a).drops == d.drops
  {
    assert k * BLOCK_SIZE + HEADER_SIZE <= |g|;
    ReadRejected(c, g, s, k);
    ScanStep(c, g, s, a);
    hide *;
    var o := ReadPhysical(c, g, s);
    t := o.next;
    if LooksCut(g, k) {
      d := Assembly(a.out, None, a.drops);
      assert a.drops + [] == a.drops;
    } else {
      RefusedFeed(a, o.drops, o.payload);
      d := Feed(a.(drops := a.drops + o.drops), BAD_RECORD, o.payload);
      if BlockEnd(g, k) == |g| {
        ScanEnds(c, g, t, d);
      }
    }
  }

  lemma TotalJoin(a: seq<nat>, b: seq<nat>)
    requires |b| <= 1
    ensures Total(a + b) == Total(a) + Total(b)
  {
    if b == [] {
      assert a + b == a;
    } else {
      assert b == [b[0]] && [] + [b[0]] == b;
      TotalWith(a, b[0]);
      TotalWith([], b[0]);
    }
  }

  // Over the refused block and on to the end of the file.
  lemma ScanPast(c: Checksum, records: seq<Bytes>, g: Bytes, k: nat, p: nat, s: Cursor, a: Assembly) returns (q: nat)
    requires DamagedIn(FileOf(c, records), g, k) && Rejected(c, g, k) && p < |records|
    requires EndAt(records[..p], 0) <= k * BLOCK_SIZE && EndAt(records, 0) == |g|
    requires Good(g, s) && StartOf(s.pos) == k * BLOCK_SIZE
    ensures p <= q && 0 < q <= |records| && Scan(c, g, s, a).out == a.out + records[q..]
    ensures if LooksCut(g, k) then Scan(c, g, s, a).drops == a.drops
            else Total(Scan(c, g, s, a).drops)
                 == Total(a.drops) + RefusedBytes(g, k) + Pending(a) + LostBehind(records, q - 1, (k + 1) * BLOCK_SIZE)
    ensures q < |records| ==> StartOf(EndAt(records[..q], 0)) >= (k + 1) * BLOCK_SIZE
    ensures StartOf(EndAt(records[..q - 1], 0)) < (k + 1) * BLOCK_SIZE
  {
    assert records[..|records|] == records && records[..|records| - 1 + 1] == records;
    assert k * BLOCK_SIZE + HEADER_SIZE <= |g|;
    assert BlockEnd(g, k) <= (k + 1) * BLOCK_SIZE && (BlockEnd(g, k) < |g| ==> BlockEnd(g, k) == (k + 1) * BLOCK_SIZE);
    assert |g| == |FileOf(c, records)| == EndAt(records[..|records|], 0);
    hide *;
    var t, d := SkipBlock(c, g, k, s, a);
    if BlockEnd(g, k) == |g| {
      q := |records|;
      LastBlock(c, records, (k + 1) * BLOCK_SIZE);
      NothingBehind(records, a.out);
    } else {
      q := ScanOn(c, records, g, k, p, t, d);
    }
  }

  lemma NothingBehind(records: seq<Bytes>, out: seq<Bytes>)
    ensures out + records[|records|..] == out
  {
  }

  // The file ends at or before the offset.
  lemma LastBlock(c: Checksum, records: seq<Bytes>, y: nat)
    requires records != [] && EndAt(records[..|records|], 0) <= y
    ensures LostBehind(records, |records| - 1, y) == 0 && StartOf(EndAt(records[..|records| - 1], 0)) < y
  {
    hide *;
    EndsBefore(records, |records| - 1, y);
    RecordNonEmpty(c, records, |records| - 1);
  }

  // From the end of the block to the end of the file
  lemma ScanOn(c: Checksum, records: seq<Bytes>, g: Bytes, k: nat, p: nat, s: Cursor, a: Assembly) returns (q: nat)
    requires DamagedIn(FileOf(c, records), g, k) && p < |records| && a.scratch.None?
    requires EndAt(records[..p], 0) <= k * BLOCK_SIZE && EndAt(records[..|records|], 0) > (k + 1) * BLOCK_SIZE
    requires Good(g, s) && s.pos == (k + 1) * BLOCK_SIZE
    ensures p <= q && 0 < q <= |records| && Scan(c, g, s, a).out == a.out + records[q..]
    ensures Total(Scan(c, g, s, a).drops) == Total(a.drops) + LostBehind(records, q - 1, (k + 1) * BLOCK_SIZE)
    ensures q < |records| ==> StartOf(EndAt(records[..q], 0)) >= (k + 1) * BLOCK_SIZE
    ensures StartOf(EndAt(records[..q - 1], 0)) < (k + 1) * BLOCK_SIZE
  {
    hide *;
    var u := FindRecord(records, (k + 1) * BLOCK_SIZE, |records|);
    q := ScanBehind(c, records, g, k, u, s, a);
    CutPoint(c, records, k, p, u, q);
    if q == u {
      EndsBefore(records, q - 1, (k + 1) * BLOCK_SIZE);
    }
  }

  // A record that ends before the offset has no bytes behind it.
  lemma EndsBefore(records: seq<Bytes>, i: nat, y: nat)
    requires i < |records| && EndAt(records[..i + 1], 0) <= y
    ensures LostBehind(records, i, y) == 0
  {
    var at := EndAt(records[..i], 0);
    Split(Checksum((_, _) => 0), records, i);
    AllBefore(Fragments(records[i], at, true), at, y);
    FragmentsShape(records[i], at, true);
  }

  // With one block overwritten so that its first physical record is refused, reading returns,
  // in order, exactly the records that have no byte in that block. What is reported lost is the
  // block and the bytes that the records cut by it have outside it; nothing is reported where
  // the file seems to end in the middle of a write.
  lemma DamageIsContained(c: Checksum, records: seq<Bytes>, g: Bytes, k: nat) returns (p: nat, q: nat)
    requires DamagedIn(FileOf(c, records), g, k) && Rejected(c, g, k)
    ensures p < q <= |records|
    ensures ReadOf(c, g).out == records[..p] + records[q..]
    ensures if LooksCut(g, k) then ReadOf(c, g).drops == []
            else Total(ReadOf(c, g).drops)
                 == RefusedBytes(g, k) + LostBefore(records, p, k * BLOCK_SIZE) + LostBehind(records, q - 1, (k + 1) * BLOCK_SIZE)
    ensures forall i | 0 <= i < |records| :: Avoids(records, i, k) <==> i < p || i >= q
  {
    FileIsHeld(c, records);
    assert records[..|records|] == records;
    assert k * BLOCK_SIZE < |g|;
    hide FileOf, Scan, Rejected, EndAt, PadLength, StartOf, Good;
    p := FindRecord(records, k * BLOCK_SIZE, |records|);
    var s, a := ScanBefore(c, records, g, k, p);
    q := ScanPast(c, records, g, k, p, s, a);
    forall i | 0 <= i < |records|
      ensures Avoids(records, i, k) <==> i < p || i >= q
    {
      TouchersAre(records, k, p, q, i);
    }
  }

  lemma RecordNonEmpty(c: Checksum, records: seq<Bytes>, i: nat)
    requires i < |records|
    ensures StartOf(EndAt(records[..i], 0)) < EndAt(records[..i + 1], 0)
  {
    Split(c, records, i);
    FragmentsFit(c, records[i], EndAt(records[..i], 0), true);
  }

  lemma CutPoint(c: Checksum, records: seq<Bytes>, k: nat, p: nat, u: nat, q: nat)
    requires p < |records| && u < |records|
    requires EndAt(records[..p], 0) <= k * BLOCK_SIZE
    requires EndAt(records[..u], 0) <= (k + 1) * BLOCK_SIZE < EndAt(records[..u + 1], 0)
    requires q == (if StartOf(EndAt(records[..u], 0)) == (k + 1) * BLOCK_SIZE then u else u + 1)
    ensures p <= q && q > 0
    ensures q < |records| ==> StartOf(EndAt(records[..q], 0)) >= (k + 1) * BLOCK_SIZE
    ensures StartOf(EndAt(records[..q - 1], 0)) < (k + 1) * BLOCK_SIZE
  {
    var y := (k + 1) * BLOCK_SIZE;
    hide EndAt, PadLength, StartOf;
    StartBelow(EndAt(records[..u], 0), y);
    StartBelow(EndAt(records[..u + 1], 0), y);
    StartBelow(EndAt(records[..p], 0), k * BLOCK_SIZE);
    if u < p {
      EndsGrow(records, u + 1, p);
    }
    if q == u {
      FirstStart(records);
      if u > 0 {
        RecordNonEmpty(c, records, u - 1);
      }
    }
  }

  lemma FirstStart(records: seq<Bytes>)
    ensures StartOf(EndAt(records[..0], 0)) == 0
  {
  }

  // ---- Nothing is lost without a report

  ghost function BytesIn(records: seq<Bytes>): nat {
    if records == [] then 0 else BytesIn(records[..|records| - 1]) + |records[|records| - 1]|
  }

  lemma BytesInWith(records: seq<Bytes>, r: Bytes)
    ensures BytesIn(records + [r]) == BytesIn(records) + |r|
  {
    assert (records + [r])[..|records|] == records;
  }

  // Payload bytes delivered, reported, or waiting for the rest of their record
  ghost function Accounted(a: Assembly): nat {
    BytesIn(a.out) + Total(a.drops) + Pending(a)
  }

  // Every payload byte is accounted for, except that a record whose type in the file is 6, the
  // reader's own mark for a refused record, loses its payload without a report.
  lemma FeedConserves(a: Assembly, kind: nat, payload: Bytes)
    ensures Accounted(Feed(a, kind, payload)) == Accounted(a) + if kind == 6 then 0 else |payload|
  {
    hide BytesIn, Total;
    var scratch := if a.scratch.Some? then a.scratch.value else [];
    BytesInWith(a.out, payload);
    BytesInWith(a.out, scratch + payload);
    TotalWith(a.drops, |payload|);
    TotalWith(a.drops, |scratch|);
    TotalWith(a.drops, |payload| + |scratch|);
  }

  // A record whose type in the file is 5, the reader's own mark for the end, ends the reading:
  // what is unfinished then is dropped, whatever follows in the file.
  lemma MarkEnds(c: Checksum, f: Bytes, s: Cursor, a: Assembly)
    requires Good(f, s) && ReadPhysical(c, f, s).kind == 5
    ensures Scan(c, f, s, a) == Assembly(a.out, None, a.drops + ReadPhysical(c, f, s).drops)
  {
    ScanStep(c, f, s, a);
    hide Scan, ReadPhysical, Good;
  }

  // What the physical records from a cursor on bring: payload, and bytes refused with a report
  ghost function Brought(c: Checksum, f: Bytes, s: Cursor): nat
    requires Good(f, s)
    decreases |f| - s.pos
  {
    var o := ReadPhysical(c, f, s);
    Total(o.drops)
    + if o.kind == END_OF_FILE then 0 else (if o.kind == 6 then 0 else |o.payload|) + Brought(c, f, o.next)
  }

  lemma {:induction false} ScanConserves(c: Checksum, f: Bytes, s: Cursor, a: Assembly) returns (unfinished: nat)
    requires Good(f, s)
    ensures Accounted(Scan(c, f, s, a)) + unfinished == Accounted(a) + Brought(c, f, s)
    decreases |f| - s.pos
  {
    var o := ReadPhysical(c, f, s);
    OneDrop(c, f, s);
    TotalJoin(a.drops, o.drops);
    var b := a.(drops := a.drops + o.drops);
    hide ReadPhysical, Feed, Good;
    if o.kind == END_OF_FILE {
      unfinished := Pending(a);
    } else {
      FeedConserves(b, o.kind, o.payload);
      unfinished := ScanConserves(c, f, o.next, Feed(b, o.kind, o.payload));
    }
  }

  lemma {:induction false} OneDrop(c: Checksum, f: Bytes, s: Cursor)
    requires Good(f, s)
    ensures |ReadPhysical(c, f, s).drops| <= 1
    decreases if s.eof then 0 else 1, |f| - s.end
  {
    if s.end - s.pos < HEADER_SIZE && !s.eof {
      OneDrop(c, f, Refill(f, s));
    }
  }
}
