/** What a reader makes of a writer's file: every record of an intact file, and the complete
    records of a truncated one. */
module LogTheorems {
  import opened InternalKeys
  import opened Coding
  import opened LogFormat
  import opened LogReader

  // The file holds the physical records from the offset on.
  ghost predicate Holds(c: Checksum, f: Bytes, at: nat, frags: seq<Fragment>)
    decreases |frags|
  {
    frags != [] ==>
      && HoldsOne(c, f, at, frags[0])
      && Holds(c, f, EndOf(at, frags[0]), frags[1..])
  }

  ghost predicate HoldsOne(c: Checksum, f: Bytes, at: nat, g: Fragment) {
    && FULL_TYPE <= g.kind <= LAST_TYPE && Fits(at, g) && EndOf(at, g) <= |f|
    && f[StartOf(at)..EndOf(at, g)] == Physical(c, g)
  }

  ghost predicate Typed(frags: seq<Fragment>) {
    forall i | 0 <= i < |frags| :: FULL_TYPE <= frags[i].kind <= LAST_TYPE
  }

  // ---- What the writer wrote is held

  lemma {:induction false} FragmentsTyped(record: Bytes, at: nat, begin: bool)
    ensures Typed(Fragments(record, at, begin))
    decreases |record|, if Available(at) == 0 then 1 else 0
  {
    if Cut(record, at) < |record| {
      NextOffset(record, at, begin);
      FragmentsTyped(record[Cut(record, at)..], EndOf(at, FragmentAt(record, at, begin)), false);
    }
  }

  lemma {:induction false} RecordsTyped(records: seq<Bytes>, at: nat)
    ensures Typed(RecordsAt(records, at))
    decreases |records|
  {
    if records != [] {
      FragmentsTyped(records[0], at, true);
      RecordsTyped(records[1..], LayEnd(Fragments(records[0], at, true), at));
    }
  }

  lemma Pieces(f: Bytes, at: nat, a: Bytes, b: Bytes, rest: Bytes)
    requires at + |a| + |b| + |rest| <= |f| && f[at..at + |a| + |b| + |rest|] == a + b + rest
    ensures f[at + |a|..at + |a| + |b|] == b && f[at + |a| + |b|..at + |a| + |b| + |rest|] == rest
  {
    var window := f[at..at + |a| + |b| + |rest|];
    assert window[|a|..|a| + |b|] == b && window[|a| + |b|..] == rest;
    forall i | 0 <= i < |b|
      ensures f[at + |a|..at + |a| + |b|][i] == b[i]
    {
      assert window[|a| + i] == f[at + (|a| + i)];
    }
    forall i | 0 <= i < |rest|
      ensures f[at + |a| + |b|..at + |window|][i] == rest[i]
    {
      assert window[|a| + |b| + i] == f[at + (|a| + |b| + i)];
    }
  }

  lemma {:induction false} LaidIsHeld(c: Checksum, f: Bytes, at: nat, frags: seq<Fragment>)
    requires AllFit(at, frags) && Typed(frags)
    requires LayEnd(frags, at) <= |f| && f[at..LayEnd(frags, at)] == Lay(c, frags, at)
    ensures Holds(c, f, at, frags)
    decreases |frags|
  {
    if frags != [] {
      var g := frags[0];
      var next := EndOf(at, g);
      LayLength(c, frags[1..], next);
      hide Physical, Zeros, PadLength, Fits;
      Pieces(f, at, Zeros(PadLength(at)), Physical(c, g), Lay(c, frags[1..], next));
      LaidIsHeld(c, f, next, frags[1..]);
    }
  }

  lemma FileIsHeld(c: Checksum, records: seq<Bytes>)
    ensures Holds(c, FileOf(c, records), 0, RecordsAt(records, 0)) && |FileOf(c, records)| == EndAt(records, 0)
  {
    RecordsFit(c, records, 0);
    RecordsTyped(records, 0);
    LayLength(c, RecordsAt(records, 0), 0);
    LaidIsHeld(c, FileOf(c, records), 0, RecordsAt(records, 0));
  }

  lemma {:induction false} HoldsConcat(c: Checksum, f: Bytes, at: nat, a: seq<Fragment>, b: seq<Fragment>)
    ensures Holds(c, f, at, a + b) <==> Holds(c, f, at, a) && Holds(c, f, LayEnd(a, at), b)
    ensures LayEnd(a + b, at) == LayEnd(b, LayEnd(a, at))
    decreases |a|
  {
    hide HoldsOne;
    if a == [] {
      assert a + b == b;
    } else {
      assert (a + b)[0] == a[0] && (a + b)[1..] == a[1..] + b;
      HoldsConcat(c, f, EndOf(at, a[0]), a[1..], b);
    }
  }

  // Only the bytes between the two ends matter.
  lemma {:induction false} HoldsAgree(c: Checksum, f: Bytes, g: Bytes, at: nat, frags: seq<Fragment>)
    requires Holds(c, f, at, frags) && LayEnd(frags, at) <= |g|
    requires frags != [] ==> forall i | StartOf(at) <= i < LayEnd(frags, at) && i < |f| :: f[i] == g[i]
    ensures Holds(c, g, at, frags) && (frags != [] ==> LayEnd(frags, at) <= |f|)
    decreases |frags|
  {
    if frags != [] {
      var next := EndOf(at, frags[0]);
      hide Physical, Fits;
      if frags[1..] != [] {
        HoldsAgree(c, f, g, next, frags[1..]);
      }
      assert f[StartOf(at)..next] == g[StartOf(at)..next];
    }
  }

  // ---- Reading one physical record

  lemma InBuffer(f: Bytes, s: Cursor)
    requires Good(f, s) && s.end - s.pos >= HEADER_SIZE
    ensures StartOf(s.pos) == s.pos && (s.eof || s.end - s.pos == BLOCK_SIZE - s.pos % BLOCK_SIZE)
  {
  }

  lemma InTrailer(f: Bytes, s: Cursor)
    requires Good(f, s) && s.end - s.pos < HEADER_SIZE && !s.eof
    ensures StartOf(s.pos) == s.end
  {
  }

  lemma CursorCovers(f: Bytes, s: Cursor, at: nat, g: Fragment)
    requires Good(f, s) && StartOf(s.pos) == StartOf(at) && Fits(at, g) && EndOf(at, g) <= |f|
    ensures if s.end - s.pos >= HEADER_SIZE then s.pos == StartOf(at) && EndOf(at, g) <= s.end
            else !s.eof && Refill(f, s).pos == StartOf(at) && EndOf(at, g) <= Refill(f, s).end
  {
    if s.end - s.pos >= HEADER_SIZE {
      InBuffer(f, s);
    } else if !s.eof {
      InTrailer(f, s);
    }
    hide PadLength, StartOf;
  }

  lemma HeaderOf(c: Checksum, f: Bytes, at: nat, g: Fragment)
    requires |g.payload| <= BLOCK_SIZE && at + HEADER_SIZE <= |f| && at + FragmentSize(g) >= 0
    requires forall i | 0 <= i < FragmentSize(g) && at + i < |f| :: f[at + i] == Physical(c, g)[i]
    ensures HeaderSum(f, at) == c.value(g.kind, g.payload)
    ensures HeaderLength(f, at) == |g.payload| && f[at + 6] == g.kind
  {
    var p := Physical(c, g);
    var sum := Fixed32(c.value(g.kind, g.payload));
    Fixed32RoundTrip(c.value(g.kind, g.payload));
    assert p[..4] == sum;
    assert f[at..at + 4] == p[..4];
    assert p[4] == |g.payload| % 256 && p[5] == |g.payload| / 256 && p[6] == g.kind;
    assert f[at + 4] == p[4] && f[at + 5] == p[5] && f[at + 6] == p[6];
  }

  lemma ParseWritten(c: Checksum, f: Bytes, s: Cursor, g: Fragment)
    requires Good(f, s) && s.pos + FragmentSize(g) <= s.end && FULL_TYPE <= g.kind <= LAST_TYPE
    requires |g.payload| <= BLOCK_SIZE
    requires f[s.pos..s.pos + FragmentSize(g)] == Physical(c, g)
    ensures Parse(c, f, s) == Outcome(g.kind, g.payload, [], s.(pos := s.pos + FragmentSize(g)))
  {
    var p := Physical(c, g);
    forall i | 0 <= i < FragmentSize(g) && s.pos + i < |f|
      ensures f[s.pos + i] == p[i]
    {
      assert f[s.pos..s.pos + FragmentSize(g)][i] == f[s.pos + i];
    }
    HeaderOf(c, f, s.pos, g);
    hide Fixed32, HeaderSum, HeaderLength;
    assert f[s.pos + HEADER_SIZE..s.pos + FragmentSize(g)] == p[HEADER_SIZE..];
    assert p[HEADER_SIZE..] == g.payload;
  }

  lemma ReadWritten(c: Checksum, f: Bytes, s: Cursor, at: nat, g: Fragment)
    requires Good(f, s) && StartOf(s.pos) == StartOf(at) && HoldsOne(c, f, at, g)
    ensures var o := ReadPhysical(c, f, s);
            o.kind == g.kind && o.payload == g.payload && o.drops == [] && o.next.pos == EndOf(at, g)
  {
    CursorCovers(f, s, at, g);
    var t := if s.end - s.pos >= HEADER_SIZE then s else Refill(f, s);
    ParseWritten(c, f, t, g);
    hide Parse, Physical, PadLength;
  }

  // The file ends before a complete header.
  lemma ReadAtEnd(c: Checksum, f: Bytes, s: Cursor)
    requires Good(f, s) && |f| < StartOf(s.pos) + HEADER_SIZE
    ensures ReadPhysical(c, f, s).kind == END_OF_FILE && ReadPhysical(c, f, s).drops == []
  {
    if s.end - s.pos >= HEADER_SIZE {
      InBuffer(f, s);
    } else if !s.eof {
      InTrailer(f, s);
      var t := Refill(f, s);
      assert t.eof && t.end - t.pos < HEADER_SIZE;
    }
    hide Parse, PadLength, StartOf, Good;
  }

  // The file ends inside a physical record.
  lemma ReadCut(c: Checksum, f: Bytes, s: Cursor, at: nat, g: Fragment)
    requires Good(f, s) && StartOf(s.pos) == StartOf(at) && Fits(at, g) && |f| < EndOf(at, g)
    requires forall i | StartOf(at) <= i < |f| :: f[i] == Physical(c, g)[i - StartOf(at)]
    ensures ReadPhysical(c, f, s).kind == END_OF_FILE && ReadPhysical(c, f, s).drops == []
  {
    if |f| < StartOf(at) + HEADER_SIZE {
      ReadAtEnd(c, f, s);
    } else {
      var t := CutInBuffer(c, f, s, at, g);
      hide *;
      forall i | 0 <= i < FragmentSize(g) && t.pos + i < |f|
        ensures f[t.pos + i] == Physical(c, g)[i]
      {
      }
      HeaderOf(c, f, t.pos, g);
      ParseCut(c, f, t, g);
    }
  }

  // The buffer that the file ends in
  lemma CutInBuffer(c: Checksum, f: Bytes, s: Cursor, at: nat, g: Fragment) returns (t: Cursor)
    requires Good(f, s) && StartOf(s.pos) == StartOf(at) && Fits(at, g) && |f| < EndOf(at, g)
    requires |f| >= StartOf(at) + HEADER_SIZE
    ensures Good(f, t) && t.end - t.pos >= HEADER_SIZE && ReadPhysical(c, f, s) == Parse(c, f, t)
    ensures t.pos == StartOf(at) && t.end == |f| && t.eof
    ensures FragmentSize(g) <= BLOCK_SIZE && t.pos + FragmentSize(g) == EndOf(at, g)
  {
    if s.end - s.pos >= HEADER_SIZE {
      InBuffer(f, s);
    } else if !s.eof {
      InTrailer(f, s);
    }
    hide PadLength, StartOf, Parse;
    t := if s.end - s.pos >= HEADER_SIZE then s else Refill(f, s);
  }

  lemma ParseCut(c: Checksum, f: Bytes, t: Cursor, g: Fragment)
    requires Good(f, t) && t.end - t.pos >= HEADER_SIZE && t.eof && t.end == |f|
    requires HeaderLength(f, t.pos) == |g.payload| && t.pos + FragmentSize(g) > |f|
    ensures Parse(c, f, t).kind == END_OF_FILE && Parse(c, f, t).drops == []
  {
    hide HeaderSum, HeaderLength, Physical;
  }

  // ---- Reading a run of physical records

  ghost function Run(a: Assembly, frags: seq<Fragment>): Assembly
    decreases |frags|
  {
    if frags == [] then a else Run(Feed(a, frags[0].kind, frags[0].payload), frags[1..])
  }

  lemma {:induction false} ScanHeld(c: Checksum, f: Bytes, s: Cursor, a: Assembly, at: nat, frags: seq<Fragment>)
      returns (t: Cursor)
    requires Good(f, s) && StartOf(s.pos) == StartOf(at) && Holds(c, f, at, frags)
    ensures Good(f, t) && StartOf(t.pos) == StartOf(LayEnd(frags, at))
    ensures Scan(c, f, s, a) == Scan(c, f, t, Run(a, frags))
    decreases |frags|
  {
    if frags == [] {
      return s;
    }
    ReadWritten(c, f, s, at, frags[0]);
    ScanStep(c, f, s, a);
    var o := ReadPhysical(c, f, s);
    hide Scan, Good, Feed, ReadPhysical, PadLength, StartOf, HoldsOne;
    assert a.(drops := a.drops + []) == a;
    t := ScanHeld(c, f, o.next, Feed(a, o.kind, o.payload), EndOf(at, frags[0]), frags[1..]);
  }

  // The bytes reported lost
  ghost function Total(drops: seq<nat>): nat {
    if drops == [] then 0 else Total(drops[..|drops| - 1]) + drops[|drops| - 1]
  }

  lemma TotalWith(drops: seq<nat>, n: nat)
    ensures Total(drops + [n]) == Total(drops) + n
  {
    assert (drops + [n])[..|drops|] == drops;
  }

  // The bytes of the record being put together
  ghost function Pending(a: Assembly): nat {
    if a.scratch.Some? then |a.scratch.value| else 0
  }

  // The whole records that a run of fragments makes up. The rest of a record whose beginning is
  // missing is reported byte by byte.
  lemma {:induction false} RunRecord(a: Assembly, record: Bytes, at: nat, begin: bool)
    requires begin ==> a.scratch.None?
    ensures var b := Run(a, Fragments(record, at, begin));
            && b.scratch.None?
            && (begin ==> b == Assembly(a.out + [record], None, a.drops))
            && (!begin && a.scratch.Some? ==> b == Assembly(a.out + [a.scratch.value + record], None, a.drops))
            && (!begin && a.scratch.None? ==> b.out == a.out && Total(b.drops) == Total(a.drops) + |record|)
    decreases |record|, if Available(at) == 0 then 1 else 0
  {
    var n := Cut(record, at);
    var f := FragmentAt(record, at, begin);
    RunFirst(a, record, at, begin);
    TotalWith(a.drops, |f.payload|);
    if n == |record| {
      assert record[..n] == record;
      hide Run, Fragments, Cut, EndOf;
    } else {
      NextOffset(record, at, begin);
      hide Run, Fragments, Cut, EndOf, StartOf, Available, Fits, PadLength;
      var b := Feed(a, f.kind, f.payload);
      RunRecord(b, record[n..], EndOf(at, f), false);
      assert record[..n] + record[n..] == record;
      if a.scratch.Some? {
        Regroup(a.scratch.value, record[..n], record[n..]);
      }
    }
  }

  lemma RunFirst(a: Assembly, record: Bytes, at: nat, begin: bool)
    ensures var n := Cut(record, at);
            var f := FragmentAt(record, at, begin);
            var b := Feed(a, f.kind, f.payload);
            Run(a, Fragments(record, at, begin))
            == if n == |record| then b else Run(b, Fragments(record[n..], EndOf(at, f), false))
  {
    hide StartOf, EndOf, Available, Fits, PadLength, Feed;
    var frags := Fragments(record, at, begin);
    var n := Cut(record, at);
    if n == |record| {
      assert frags[1..] == [];
    } else {
      assert frags[1..] == Fragments(record[n..], EndOf(at, frags[0]), false);
    }
  }

  // An incomplete record delivers and reports nothing.
  lemma {:induction false} RunPart(a: Assembly, record: Bytes, at: nat, begin: bool, j: nat)
    requires if begin then a.scratch.None? else a.scratch.Some?
    requires j < |Fragments(record, at, begin)|
    ensures var b := Run(a, Fragments(record, at, begin)[..j]);
            && b.out == a.out && b.drops == a.drops && (j > 0 ==> b.scratch.Some?)
            && Pending(b) == Pending(a) + |Joined(Fragments(record, at, begin)[..j])|
    decreases j
  {
    if j > 0 {
      NextOffset(record, at, begin);
      hide StartOf, EndOf, Available, Fits, PadLength;
      var f := FragmentAt(record, at, begin);
      var frags := Fragments(record, at, begin);
      var n := Cut(record, at);
      assert frags[..j][0] == f;
      if n < |record| {
        assert frags[1..] == Fragments(record[n..], EndOf(at, f), false);
        assert frags[..j][1..] == frags[1..][..j - 1];
        RunPart(Feed(a, f.kind, f.payload), record[n..], EndOf(at, f), false, j - 1);
      }
    }
  }

  lemma NoRecords(c: Checksum, at: nat)
    ensures RecordsAt([], at) == [] && EndAt([], at) == at
  {
  }

  lemma {:induction false} ScanRecords(c: Checksum, f: Bytes, s: Cursor, out: seq<Bytes>, drops: seq<nat>,
                                       at: nat, records: seq<Bytes>) returns (t: Cursor)
    requires Good(f, s) && StartOf(s.pos) == StartOf(at) && Holds(c, f, at, RecordsAt(records, at))
    ensures Good(f, t) && StartOf(t.pos) == StartOf(EndAt(records, at))
    ensures Scan(c, f, s, Assembly(out, None, drops)) == Scan(c, f, t, Assembly(out + records, None, drops))
    decreases |records|
  {
    hide Scan, Good, Holds, Run, Fragments, LayEnd, PadLength, StartOf;
    if records == [] {
      assert out + records == out;
      NoRecords(c, at);
      return s;
    }
    var frags := Fragments(records[0], at, true);
    var next := LayEnd(frags, at);
    HoldsConcat(c, f, at, frags, RecordsAt(records[1..], next));
    t := ScanHeld(c, f, s, Assembly(out, None, drops), at, frags);
    RunRecord(Assembly(out, None, drops), records[0], at, true);
    assert out + [records[0]] + records[1..] == out + records;
    t := ScanRecords(c, f, t, out + [records[0]], drops, next, records[1..]);
  }

  // ---- Truncation

  lemma {:induction false} RecordsConcat(a: seq<Bytes>, b: seq<Bytes>, at: nat)
    ensures RecordsAt(a + b, at) == RecordsAt(a, at) + RecordsAt(b, EndAt(a, at))
    ensures EndAt(a + b, at) == EndAt(b, EndAt(a, at)) >= EndAt(a, at)
    decreases |a|
  {
    hide Fragments;
    if a == [] {
      assert a + b == b;
    } else {
      hide LayEnd;
      var frags := Fragments(a[0], at, true);
      var next := LayEnd(frags, at);
      assert (a + b)[0] == a[0] && (a + b)[1..] == a[1..] + b;
      RecordsConcat(a[1..], b, next);
      EndConcat(frags, RecordsAt(a[1..], next), at);
      Regroup(frags, RecordsAt(a[1..], next), RecordsAt(b, EndAt(a, at)));
    }
    EndsAtEnd(a, b, at);
  }

  lemma EndsAtEnd(a: seq<Bytes>, b: seq<Bytes>, at: nat)
    requires RecordsAt(a + b, at) == RecordsAt(a, at) + RecordsAt(b, EndAt(a, at))
    ensures EndAt(a + b, at) == EndAt(b, EndAt(a, at)) >= EndAt(a, at)
  {
    hide RecordsAt, LayEnd;
    EndConcat(RecordsAt(a, at), RecordsAt(b, EndAt(a, at)), at);
  }

  lemma {:induction false} EndConcat(a: seq<Fragment>, b: seq<Fragment>, at: nat)
    ensures LayEnd(a + b, at) == LayEnd(b, LayEnd(a, at))
    decreases |a|
  {
    if a == [] {
      assert a + b == b;
    } else {
      assert (a + b)[0] == a[0] && (a + b)[1..] == a[1..] + b;
      EndConcat(a[1..], b, EndOf(at, a[0]));
    }
  }

  // A file that holds the fragments, cut inside them, read up to the cut.
  lemma {:induction false} ScanCut(c: Checksum, f: Bytes, n: nat, s: Cursor, a: Assembly, at: nat, frags: seq<Fragment>)
      returns (j: nat)
    requires Holds(c, f, at, frags) && n <= |f| && at <= n < LayEnd(frags, at)
    requires Good(f[..n], s) && StartOf(s.pos) == StartOf(at)
    ensures j < |frags| && Scan(c, f[..n], s, a) == Run(a, frags[..j]).(scratch := None)
    decreases |frags|
  {
    var g := frags[0];
    var o := ReadPhysical(c, f[..n], s);
    ScanStep(c, f[..n], s, a);
    assert a.(drops := a.drops + []) == a;
    if n < EndOf(at, g) {
      forall i | StartOf(at) <= i < n
        ensures f[..n][i] == Physical(c, g)[i - StartOf(at)]
      {
        assert f[StartOf(at)..EndOf(at, g)][i - StartOf(at)] == f[i];
      }
      ReadCut(c, f[..n], s, at, g);
      return 0;
    }
    assert f[..n][StartOf(at)..EndOf(at, g)] == f[StartOf(at)..EndOf(at, g)];
    ReadWritten(c, f[..n], s, at, g);
    hide Scan, Good, Feed, ReadPhysical, PadLength, StartOf, HoldsOne;
    j := ScanCut(c, f, n, o.next, Feed(a, o.kind, o.payload), EndOf(at, g), frags[1..]);
    j := j + 1;
    assert frags[..j][1..] == frags[1..][..j - 1];
  }

  lemma FirstRecord(records: seq<Bytes>, at: nat)
    requires records != []
    ensures RecordsAt(records, at)
         == Fragments(records[0], at, true) + RecordsAt(records[1..], LayEnd(Fragments(records[0], at, true), at))
  {
    hide Fragments, LayEnd;
  }

  lemma OneRecord(record: Bytes, at: nat)
    ensures RecordsAt([record], at) == Fragments(record, at, true)
    ensures EndAt([record], at) == LayEnd(Fragments(record, at, true), at)
  {
    hide Fragments, LayEnd;
    var one := [record];
    assert one[1..] == [];
    assert Fragments(record, at, true) + [] == Fragments(record, at, true);
  }

  // A record list split around one record.
  lemma Split(c: Checksum, records: seq<Bytes>, m: nat)
    requires m < |records|
    ensures RecordsAt(records, 0)
            == RecordsAt(records[..m], 0)
               + (Fragments(records[m], EndAt(records[..m], 0), true)
                  + RecordsAt(records[m + 1..], EndAt(records[..m + 1], 0)))
    ensures EndAt(records[..m + 1], 0)
            == LayEnd(Fragments(records[m], EndAt(records[..m], 0), true), EndAt(records[..m], 0))
  {
    hide *;
    var at := EndAt(records[..m], 0);
    assert records == records[..m] + records[m..];
    RecordsConcat(records[..m], records[m..], 0);
    assert records[m..][0] == records[m] && records[m..][1..] == records[m + 1..];
    FirstRecord(records[m..], at);
    assert records[..m + 1] == records[..m] + [records[m]];
    RecordsConcat(records[..m], [records[m]], 0);
    OneRecord(records[m], at);
  }

  // Cut anywhere, a file gives back exactly the records that lie wholly before the cut, and
  // nothing is reported; uncut, it gives back all of them.
  lemma TruncatedFile(c: Checksum, records: seq<Bytes>, n: nat, m: nat)
    requires n <= |FileOf(c, records)| && m <= |records|
    requires EndAt(records[..m], 0) <= n && (m < |records| ==> n < EndAt(records[..m + 1], 0))
    ensures ReadOf(c, FileOf(c, records)[..n]) == Assembly(records[..m], None, [])
  {
    var f := FileOf(c, records);
    var at := EndAt(records[..m], 0);
    var whole := RecordsAt(records[..m], 0);
    FileIsHeld(c, records);
    hide FileOf, EndAt, RecordsAt, Holds, Scan, Run, Fragments;
    if m < |records| {
      var frags := Fragments(records[m], at, true);
      var rest := RecordsAt(records[m + 1..], EndAt(records[..m + 1], 0));
      Split(c, records, m);
      HoldsConcat(c, f, 0, whole, frags + rest);
      LayEndIs(records[..m]);
      HoldsConcat(c, f, at, frags, rest);
      TruncatedPrefix(c, f, n, records[..m]);
      var s := ScanRecords(c, f[..n], START, [], [], 0, records[..m]);
      var j := ScanCut(c, f, n, s, Assembly([] + records[..m], None, []), at, frags);
      RunPart(Assembly([] + records[..m], None, []), records[m], at, true, j);
      assert [] + records[..m] == records[..m];
    } else {
      assert records[..m] == records && f[..n] == f;
      var s := ScanRecords(c, f, START, [], [], 0, records);
      assert [] + records == records;
      ReadAtEnd(c, f, s);
      ScanStep(c, f, s, Assembly(records, None, []));
    }
  }

  lemma LayEndIs(records: seq<Bytes>)
    ensures LayEnd(RecordsAt(records, 0), 0) == EndAt(records, 0)
  {
  }

  lemma TruncatedPrefix(c: Checksum, f: Bytes, n: nat, records: seq<Bytes>)
    requires Holds(c, f, 0, RecordsAt(records, 0)) && EndAt(records, 0) <= n <= |f|
    ensures Holds(c, f[..n], 0, RecordsAt(records, 0))
  {
    HoldsAgree(c, f, f[..n], 0, RecordsAt(records, 0));
  }

  // Writing and reading are inverse, for any list of records and any points of reopening.
  lemma RoundTrip(c: Checksum, records: seq<Bytes>)
    ensures ReadOf(c, FileOf(c, records)) == Assembly(records, None, [])
  {
    var f := FileOf(c, records);
    FileIsHeld(c, records);
    assert records[..|records|] == records && f[..|f|] == f;
    TruncatedFile(c, records, |f|, |records|);
  }
}
