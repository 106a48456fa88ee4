/** The log reader, from the start of a file and with checksums on: physical records out of
    32 KB buffers, logical records out of those, and the list of reported drops. */
module LogReader {
  import opened InternalKeys
  import opened Coding
  import opened LogFormat

  // The two outcomes that are not record types, numbered after the last record type.
  const END_OF_FILE := 5
  const BAD_RECORD := 6

  // The buffer is file[pos..end]; `end` is also how far the file has been read.
  datatype Cursor = Cursor(pos: nat, end: nat, eof: bool)

  datatype Outcome = Outcome(kind: nat, payload: Bytes, drops: seq<nat>, next: Cursor)

  const START := Cursor(0, 0, false)

  // Full buffers end on block boundaries; only the last, short one ends the file.
  ghost predicate Good(f: Bytes, s: Cursor) {
    && s.pos <= s.end <= |f| && s.end - s.pos <= BLOCK_SIZE
    && (if s.eof then s.end == |f| && s.end - s.pos <= |f| % BLOCK_SIZE else s.end % BLOCK_SIZE == 0)
  }

  function Refill(f: Bytes, s: Cursor): (r: Cursor)
    requires Good(f, s) && !s.eof
    ensures Good(f, r) && (r.eof || (r.end > s.end && r.end - r.pos == BLOCK_SIZE))
  {
    if |f| - s.end < BLOCK_SIZE then Cursor(s.end, |f|, true) else Cursor(s.end, s.end + BLOCK_SIZE, false)
  }

  function HeaderSum(f: Bytes, at: nat): nat
    requires at + HEADER_SIZE <= |f|
  {
    DecodeFixed32(f[at..at + 4])
  }

  function HeaderLength(f: Bytes, at: nat): nat
    requires at + HEADER_SIZE <= |f|
  {
    var low: int := f[at + 4];
    var high: int := f[at + 5];
    low + 256 * high
  }

  // The part of ReadPhysicalRecord behind a complete header in the buffer.
  function Parse(c: Checksum, f: Bytes, s: Cursor): (r: Outcome)
    requires Good(f, s) && s.end - s.pos >= HEADER_SIZE
    ensures Good(f, r.next) && r.next.end == s.end && r.next.eof == s.eof && r.next.pos > s.pos
  {
    var length := HeaderLength(f, s.pos);
    var kind := f[s.pos + 6];
    var cleared := s.(pos := s.end);
    if HEADER_SIZE + length > s.end - s.pos then
      if s.eof then Outcome(END_OF_FILE, [], [], cleared)
      else Outcome(BAD_RECORD, [], [s.end - s.pos], cleared)
    else if kind == ZERO_TYPE && length == 0 then
      Outcome(BAD_RECORD, [], [], cleared)
    else
      var payload := f[s.pos + HEADER_SIZE..s.pos + HEADER_SIZE + length];
      if HeaderSum(f, s.pos) != c.value(kind, payload) then
        Outcome(BAD_RECORD, [], [s.end - s.pos], cleared)
      else
        Outcome(kind, payload, [], s.(pos := s.pos + HEADER_SIZE + length))
  }

  function ReadPhysical(c: Checksum, f: Bytes, s: Cursor): (r: Outcome)
    requires Good(f, s)
    ensures Good(f, r.next) && (r.kind == END_OF_FILE || r.next.pos > s.pos)
    decreases if s.eof then 0 else 1, |f| - s.end
  {
    if s.end - s.pos >= HEADER_SIZE then Parse(c, f, s)
    else if s.eof then Outcome(END_OF_FILE, [], [], s.(pos := s.end))
    else ReadPhysical(c, f, Refill(f, s))
  }

  // ---- Reassembly

  // What has been delivered and reported, and the record under construction.
  datatype Assembly = Assembly(out: seq<Bytes>, scratch: Option<Bytes>, drops: seq<nat>)

  // The reports once a new record starts: a non-empty unfinished one is reported.
  function Abandon(a: Assembly): seq<nat> {
    if a.scratch.Some? && a.scratch.value != [] then a.drops + [|a.scratch.value|] else a.drops
  }

  // What ReadRecord does with one physical record that is not the end of the file.
  function Feed(a: Assembly, kind: nat, payload: Bytes): Assembly {
    if kind == FULL_TYPE then
      Assembly(a.out + [payload], None, Abandon(a))
    else if kind == FIRST_TYPE then
      Assembly(a.out, Some(payload), Abandon(a))
    else if kind == MIDDLE_TYPE then
      if a.scratch.None? then a.(drops := a.drops + [|payload|])
      else a.(scratch := Some(a.scratch.value + payload))
    else if kind == LAST_TYPE then
      if a.scratch.None? then a.(drops := a.drops + [|payload|])
      else Assembly(a.out + [a.scratch.value + payload], None, a.drops)
    else if kind == BAD_RECORD then
      if a.scratch.None? then a else Assembly(a.out, None, a.drops + [|a.scratch.value|])
    else
      Assembly(a.out, None, a.drops + [|payload| + if a.scratch.Some? then |a.scratch.value| else 0])
  }

  // Everything read from a cursor on: an unfinished record at the end is dropped silently.
  ghost function Scan(c: Checksum, f: Bytes, s: Cursor, a: Assembly): Assembly
    requires Good(f, s)
    decreases |f| - s.pos
  {
    var o := ReadPhysical(c, f, s);
    var b := a.(drops := a.drops + o.drops);
    if o.kind == END_OF_FILE then b.(scratch := None) else Scan(c, f, o.next, Feed(b, o.kind, o.payload))
  }

  lemma ScanStep(c: Checksum, f: Bytes, s: Cursor, a: Assembly)
    requires Good(f, s)
    ensures var o := ReadPhysical(c, f, s);
            var b := a.(drops := a.drops + o.drops);
            && Good(f, o.next) && (o.kind == END_OF_FILE || o.next.pos > s.pos)
            && Scan(c, f, s, a)
               == if o.kind == END_OF_FILE then b.(scratch := None) else Scan(c, f, o.next, Feed(b, o.kind, o.payload))
  {
    hide ReadPhysical, Feed;
  }

  ghost function ReadOf(c: Checksum, f: Bytes): Assembly {
    Scan(c, f, START, Assembly([], None, []))
  }

  lemma SliceOfSlice(f: Bytes, at: nat, end: nat, i: nat, j: nat)
    requires at <= end <= |f| && i <= j <= end - at
    ensures f[at..end][i..j] == f[at + i..at + j]
  {
    forall k | 0 <= k < j - i
      ensures f[at..end][i..j][k] == f[at + i..at + j][k]
    {
      assert f[at..end][i + k] == f[at + (i + k)];
    }
  }

  // The header at the front of a buffer: record type, payload, reported drops and bytes used.
  function ParseBytes(c: Checksum, b: Bytes, eof: bool): (r: (nat, Bytes, seq<nat>, nat))
    requires |b| >= HEADER_SIZE
    ensures r.3 <= |b|
  {
    var length := HeaderLength(b, 0);
    var kind := b[6];
    if HEADER_SIZE + length > |b| then
      if eof then (END_OF_FILE, [], [], |b|) else (BAD_RECORD, [], [|b|], |b|)
    else if kind == ZERO_TYPE && length == 0 then (BAD_RECORD, [], [], |b|)
    else if HeaderSum(b, 0) != c.value(kind, b[HEADER_SIZE..HEADER_SIZE + length]) then (BAD_RECORD, [], [|b|], |b|)
    else (kind, b[HEADER_SIZE..HEADER_SIZE + length], [], HEADER_SIZE + length)
  }

  lemma ParseIs(c: Checksum, f: Bytes, s: Cursor)
    requires Good(f, s) && s.end - s.pos >= HEADER_SIZE
    ensures var r := ParseBytes(c, f[s.pos..s.end], s.eof);
            Parse(c, f, s) == Outcome(r.0, r.1, r.2, s.(pos := s.pos + r.3))
  {
    var b := f[s.pos..s.end];
    SliceOfSlice(f, s.pos, s.end, 0, 4);
    assert HeaderSum(b, 0) == HeaderSum(f, s.pos) && HeaderLength(b, 0) == HeaderLength(f, s.pos);
    var length := HeaderLength(b, 0);
    hide HeaderSum, HeaderLength, Good;
    if HEADER_SIZE + length <= |b| {
      SliceOfSlice(f, s.pos, s.end, HEADER_SIZE, HEADER_SIZE + length);
    }
  }

  method CheckHeader(c: Checksum, b: Bytes, eof: bool) returns (kind: nat, result: Bytes, drops: seq<nat>, used: nat)
    requires |b| >= HEADER_SIZE
    ensures (kind, result, drops, used) == ParseBytes(c, b, eof)
  {
    var length := HeaderLength(b, 0);
    kind := b[6];
    if HEADER_SIZE + length > |b| {
      if eof {
        return END_OF_FILE, [], [], |b|;
      }
      return BAD_RECORD, [], [|b|], |b|;
    }
    if kind == ZERO_TYPE && length == 0 {
      return BAD_RECORD, [], [], |b|;
    }
    result := b[HEADER_SIZE..HEADER_SIZE + length];
    if HeaderSum(b, 0) != c.value(kind, result) {
      return BAD_RECORD, [], [|b|], |b|;
    }
    return kind, result, [], HEADER_SIZE + length;
  }

  class Reader {
    const c: Checksum
    const file: Bytes
    var buffer: Bytes
    var endOfBuffer: nat
    var eof: bool
    var drops: seq<nat>

    constructor (c: Checksum, file: Bytes)
      ensures Valid() && At() == START && drops == [] && this.c == c && this.file == file
    {
      this.c, this.file := c, file;
      buffer, endOfBuffer, eof, drops := [], 0, false, [];
    }

    ghost predicate Valid()
      reads this
    {
      && |buffer| <= endOfBuffer <= |file|
      && buffer == file[endOfBuffer - |buffer|..endOfBuffer]
      && Good(file, At())
    }

    ghost function At(): Cursor
      requires |buffer| <= endOfBuffer
      reads this
    {
      Cursor(endOfBuffer - |buffer|, endOfBuffer, eof)
    }

    // Reader::ReadPhysicalRecord
    method ReadPhysicalRecord() returns (kind: nat, result: Bytes)
      requires Valid()
      modifies this
      ensures Valid()
      ensures var o := ReadPhysical(c, file, old(At()));
              kind == o.kind && result == o.payload && At() == o.next && drops == old(drops) + o.drops
    {
      hide Parse;
      ghost var outcome := ReadPhysical(c, file, At());
      while |buffer| < HEADER_SIZE
        invariant Valid() && drops == old(drops)
        invariant ReadPhysical(c, file, At()) == outcome
        decreases !eof, |file| - endOfBuffer
      {
        if eof {
          buffer := [];
          return END_OF_FILE, [];
        }
        var n := if |file| - endOfBuffer < BLOCK_SIZE then |file| - endOfBuffer else BLOCK_SIZE;
        buffer := file[endOfBuffer..endOfBuffer + n];
        endOfBuffer := endOfBuffer + n;
        eof := n < BLOCK_SIZE;
      }
      kind, result := ParseBuffer();
    }

    // The part behind a complete header: what the buffer says, and how much of it is used up
    method ParseBuffer() returns (kind: nat, result: Bytes)
      requires Valid() && |buffer| >= HEADER_SIZE
      modifies this
      ensures Valid()
      ensures var o := Parse(c, file, old(At()));
              kind == o.kind && result == o.payload && At() == o.next && drops == old(drops) + o.drops
    {
      ParseIs(c, file, At());
      hide Parse, ParseBytes, Good;
      var drop, used;
      kind, result, drop, used := CheckHeader(c, buffer, eof);
      drops := drops + drop;
      buffer := buffer[used..];
    }

    // Reader::ReadRecord
    method ReadRecord(ghost out: seq<Bytes>) returns (ok: bool, record: Bytes)
      requires Valid()
      modifies this
      ensures Valid()
      ensures Scan(c, file, old(At()), Assembly(out, None, old(drops)))
              == if ok then Scan(c, file, At(), Assembly(out + [record], None, drops)) else Assembly(out, None, drops)
      ensures ok ==> At().pos > old(At()).pos
    {
      hide ReadPhysical, Scan, Good;
      ghost var target := Scan(c, file, At(), Assembly(out, None, drops));
      var scratch: Bytes := [];
      var inFragmentedRecord := false;
      while true
        invariant Valid() && (!inFragmentedRecord ==> scratch == [])
        invariant target
               == Scan(c, file, At(), Assembly(out, if inFragmentedRecord then Some(scratch) else None, drops))
        invariant old(At()).pos <= At().pos <= |file|
        decreases |file| - At().pos
      {
        ScanStep(c, file, At(), Assembly(out, if inFragmentedRecord then Some(scratch) else None, drops));
        var kind, fragment := ReadPhysicalRecord();
        if kind == FULL_TYPE {
          if inFragmentedRecord && scratch != [] {
            drops := drops + [|scratch|];
          }
          return true, fragment;
        } else if kind == FIRST_TYPE {
          if inFragmentedRecord && scratch != [] {
            drops := drops + [|scratch|];
          }
          scratch := fragment;
          inFragmentedRecord := true;
        } else if kind == MIDDLE_TYPE {
          if !inFragmentedRecord {
            drops := drops + [|fragment|];
          } else {
            scratch := scratch + fragment;
          }
        } else if kind == LAST_TYPE {
          if !inFragmentedRecord {
            drops := drops + [|fragment|];
          } else {
            return true, scratch + fragment;
          }
        } else if kind == END_OF_FILE {
          return false, [];
        } else if kind == BAD_RECORD {
          if inFragmentedRecord {
            drops := drops + [|scratch|];
            inFragmentedRecord := false;
            scratch := [];
          }
        } else {
          drops := drops + [|fragment| + if inFragmentedRecord then |scratch| else 0];
          inFragmentedRecord := false;
          scratch := [];
        }
      }
    }
  }

  // Reading a file to its end, as log replay and manifest recovery do.
  method ReadAll(c: Checksum, file: Bytes) returns (records: seq<Bytes>, drops: seq<nat>)
    ensures ReadOf(c, file) == Assembly(records, None, drops)
  {
    hide Scan;
    var reader := new Reader(c, file);
    records := [];
    var more := true;
    while more
      invariant reader.Valid() && reader.c == c && reader.file == file && fresh(reader)
      invariant ReadOf(c, file)
             == if more then Scan(c, file, reader.At(), Assembly(records, None, reader.drops))
                else Assembly(records, None, reader.drops)
      decreases more, |file| - reader.At().pos
    {
      var record;
      more, record := reader.ReadRecord(records);
      if more {
        records := records + [record];
      }
    }
    drops := reader.drops;
  }
}
