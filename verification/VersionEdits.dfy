/** Version edits as bytes: what the manifest's log records hold. */
module VersionEdits {
  import opened InternalKeys
  import opened Coding

  const COMPARATOR_TAG := 1
  const LOG_NUMBER_TAG := 2
  const NEXT_FILE_NUMBER_TAG := 3
  const LAST_SEQUENCE_TAG := 4
  const COMPACT_POINTER_TAG := 5
  const DELETED_FILE_TAG := 6
  const NEW_FILE_TAG := 7
  const PREV_LOG_NUMBER_TAG := 9

  // Keys are encoded internal keys.
  datatype NewFile = NewFile(number: Long, size: Long, smallest: Bytes, largest: Bytes)

  datatype Edit = Edit(
    comparator: Option<Bytes>, logNumber: Option<Long>, prevLogNumber: Option<Long>,
    nextFileNumber: Option<Long>, lastSequence: Option<Long>,
    compactPointers: seq<(nat, Bytes)>, deletedFiles: set<(nat, Long)>, newFiles: seq<(nat, NewFile)>)

  ghost predicate Valid(e: Edit) {
    && (e.comparator.Some? ==> |e.comparator.value| < WORD_LIMIT)
    && (forall i | 0 <= i < |e.compactPointers| :: ValidPointer(e.compactPointers[i]))
    && (forall d | d in e.deletedFiles :: d.0 < NUM_LEVELS)
    && (forall i | 0 <= i < |e.newFiles| :: ValidFile(e.newFiles[i]))
  }

  ghost predicate ValidPointer(p: (nat, Bytes)) {
    p.0 < NUM_LEVELS && |p.1| < WORD_LIMIT
  }

  ghost predicate ValidFile(f: (nat, NewFile)) {
    f.0 < NUM_LEVELS && |f.1.smallest| < WORD_LIMIT && |f.1.largest| < WORD_LIMIT
  }

  // ---- Encoding

  function Number(tag: nat, n: Option<Long>): Bytes {
    if n.Some? then Varint(tag) + Varint(n.value) else []
  }

  function Pointer(p: (nat, Bytes)): Bytes
    requires ValidPointer(p)
  {
    Varint(COMPACT_POINTER_TAG) + (Varint(p.0) + Prefixed(p.1))
  }

  function Deleted(d: (nat, Long)): Bytes {
    Varint(DELETED_FILE_TAG) + (Varint(d.0) + Varint(d.1))
  }

  function Added(f: (nat, NewFile)): Bytes
    requires ValidFile(f)
  {
    Varint(NEW_FILE_TAG)
    + (Varint(f.0) + (Varint(f.1.number) + (Varint(f.1.size) + (Prefixed(f.1.smallest) + Prefixed(f.1.largest)))))
  }

  function Pointers(ps: seq<(nat, Bytes)>): Bytes
    requires forall i | 0 <= i < |ps| :: ValidPointer(ps[i])
  {
    if ps == [] then [] else Pointer(ps[0]) + Pointers(ps[1..])
  }

  function Deletions(ds: seq<(nat, Long)>): Bytes {
    if ds == [] then [] else Deleted(ds[0]) + Deletions(ds[1..])
  }

  function Additions(fs: seq<(nat, NewFile)>): Bytes
    requires forall i | 0 <= i < |fs| :: ValidFile(fs[i])
  {
    if fs == [] then [] else Added(fs[0]) + Additions(fs[1..])
  }

  // The deleted files are written in some order; the set keeps none.
  ghost predicate Lists(order: seq<(nat, Long)>, files: set<(nat, Long)>) {
    forall d :: d in order <==> d in files
  }

  function Comparator(c: Option<Bytes>): Bytes
    requires c.Some? ==> |c.value| < WORD_LIMIT
  {
    if c.Some? then Varint(COMPARATOR_TAG) + Prefixed(c.value) else []
  }

  ghost function Encoded(e: Edit, order: seq<(nat, Long)>): Bytes
    requires Valid(e)
  {
    Comparator(e.comparator)
    + (Number(LOG_NUMBER_TAG, e.logNumber)
       + (Number(PREV_LOG_NUMBER_TAG, e.prevLogNumber)
          + (Number(NEXT_FILE_NUMBER_TAG, e.nextFileNumber)
             + (Number(LAST_SEQUENCE_TAG, e.lastSequence)
                + (Pointers(e.compactPointers) + (Deletions(order) + (Additions(e.newFiles) + [])))))))
  }

  // One byte tells which number follows.
  function Tagged(tag: Byte, n: Option<Long>): Bytes {
    if n.Some? then [tag] + Varint(n.value) else []
  }

  // An edit in numbers: its parts in this order, absent ones left out
  lemma EditBytes(e: Edit, order: seq<(nat, Long)>)
    requires Valid(e)
    ensures Encoded(e, order)
         == (if e.comparator.Some? then [1] + (Varint(|e.comparator.value|) + e.comparator.value) else [])
          + (Tagged(2, e.logNumber) + (Tagged(9, e.prevLogNumber) + (Tagged(3, e.nextFileNumber)
          + (Tagged(4, e.lastSequence) + (Pointers(e.compactPointers) + (Deletions(order) + Additions(e.newFiles)))))))
  {
    assert Varint(1) == [1] && Varint(2) == [2] && Varint(3) == [3] && Varint(4) == [4] && Varint(9) == [9];
    assert Additions(e.newFiles) + [] == Additions(e.newFiles);
    hide Pointers, Deletions, Additions, Varint;
  }

  lemma ItemBytes(p: (nat, Bytes), d: (nat, Long), f: (nat, NewFile))
    requires ValidPointer(p) && ValidFile(f)
    ensures Pointer(p) == [5] + (Varint(p.0) + (Varint(|p.1|) + p.1))
    ensures Deleted(d) == [6] + (Varint(d.0) + Varint(d.1))
    ensures Added(f) == [7] + (Varint(f.0) + (Varint(f.1.number) + (Varint(f.1.size)
                          + ((Varint(|f.1.smallest|) + f.1.smallest) + (Varint(|f.1.largest|) + f.1.largest)))))
  {
  }

  // The lists of an edit follow one another item by item.
  lemma ListBytes(p: (nat, Bytes), ps: seq<(nat, Bytes)>, d: (nat, Long), ds: seq<(nat, Long)>,
                  f: (nat, NewFile), fs: seq<(nat, NewFile)>)
    requires (forall i | 0 <= i < |ps| :: ValidPointer(ps[i])) && (forall i | 0 <= i < |fs| :: ValidFile(fs[i]))
    requires ValidPointer(p) && ValidFile(f)
    ensures Pointers([]) == [] && Pointers([p] + ps) == Pointer(p) + Pointers(ps)
    ensures Deletions([]) == [] && Deletions([d] + ds) == Deleted(d) + Deletions(ds)
    ensures Additions([]) == [] && Additions([f] + fs) == Added(f) + Additions(fs)
  {
    hide Pointer, Deleted, Added;
    assert ([p] + ps)[1..] == ps && ([d] + ds)[1..] == ds && ([f] + fs)[1..] == fs;
  }

  // ---- Decoding

  function GetLevel(b: Bytes): (r: Option<(nat, Bytes)>)
    ensures r.Some? ==> r.value.0 < NUM_LEVELS && |r.value.1| < |b|
  {
    var v := GetVarint32(b);
    if v.None? || v.value.0 >= NUM_LEVELS then None else Some(v.value)
  }

  // What one tag adds to the edit
  function Field(tag: nat, b: Bytes, e: Edit): (r: Option<(Edit, Bytes)>)
    ensures r.Some? ==> |r.value.1| < |b|
  {
    if tag == COMPARATOR_TAG then
      var s := GetPrefixed(b);
      if s.None? then None else Some((e.(comparator := Some(s.value.0)), s.value.1))
    else if tag == LOG_NUMBER_TAG then
      var n := GetVarint64(b);
      if n.None? then None else Some((e.(logNumber := Some(n.value.0)), n.value.1))
    else if tag == PREV_LOG_NUMBER_TAG then
      var n := GetVarint64(b);
      if n.None? then None else Some((e.(prevLogNumber := Some(n.value.0)), n.value.1))
    else if tag == NEXT_FILE_NUMBER_TAG then
      var n := GetVarint64(b);
      if n.None? then None else Some((e.(nextFileNumber := Some(n.value.0)), n.value.1))
    else if tag == LAST_SEQUENCE_TAG then
      var n := GetVarint64(b);
      if n.None? then None else Some((e.(lastSequence := Some(n.value.0)), n.value.1))
    else if tag == COMPACT_POINTER_TAG then
      var level := GetLevel(b);
      if level.None? then None else
      var key := GetPrefixed(level.value.1);
      if key.None? then None else
      Some((e.(compactPointers := e.compactPointers + [(level.value.0, key.value.0)]), key.value.1))
    else if tag == DELETED_FILE_TAG then
      var level := GetLevel(b);
      if level.None? then None else
      var number := GetVarint64(level.value.1);
      if number.None? then None else
      Some((e.(deletedFiles := e.deletedFiles + {(level.value.0, number.value.0)}), number.value.1))
    else if tag == NEW_FILE_TAG then
      var level := GetLevel(b);
      if level.None? then None else
      var f := File(level.value.1);
      if f.None? then None else Some((e.(newFiles := e.newFiles + [(level.value.0, f.value.0)]), f.value.1))
    else None
  }

  function File(b: Bytes): (r: Option<(NewFile, Bytes)>)
    ensures r.Some? ==> |r.value.1| < |b|
  {
    var number := GetVarint64(b);
    if number.None? then None else
    var size := GetVarint64(number.value.1);
    if size.None? then None else
    var smallest := GetPrefixed(size.value.1);
    if smallest.None? then None else
    var largest := GetPrefixed(smallest.value.1);
    if largest.None? then None else
    Some((NewFile(number.value.0, size.value.0, smallest.value.0, largest.value.0), largest.value.1))
  }

  // None is a corruption: a bad field, an unknown tag, or bytes that are no tag.
  function Parse(b: Bytes, e: Edit): Option<Edit>
    decreases |b|
  {
    var tag := GetVarint32(b);
    if tag.None? then if b == [] then Some(e) else None
    else
      var f := Field(tag.value.0, tag.value.1, e);
      if f.None? then None else Parse(f.value.1, f.value.0)
  }

  // VersionEdit::Clear leaves the compaction pointers in place.
  function Cleared(e: Edit): Edit {
    Edit(None, None, None, None, None, e.compactPointers, {}, [])
  }

  // ---- The class

  class VersionEdit {
    var e: Edit

    constructor ()
      ensures e == Edit(None, None, None, None, None, [], {}, [])
    {
      e := Edit(None, None, None, None, None, [], {}, []);
    }

    // VersionEdit::EncodeTo, with the set's iteration order as a parameter
    method EncodeTo(order: seq<(nat, Long)>) returns (dst: Bytes)
      requires Valid(e)
      ensures dst == Encoded(e, order)
    {
      hide Comparator, Number, Pointer, Deleted, Added;
      var head := Comparator(e.comparator);
      var log := Number(LOG_NUMBER_TAG, e.logNumber);
      var prev := Number(PREV_LOG_NUMBER_TAG, e.prevLogNumber);
      var nextFile := Number(NEXT_FILE_NUMBER_TAG, e.nextFileNumber);
      var last := Number(LAST_SEQUENCE_TAG, e.lastSequence);
      var pointers := PointersOf(e.compactPointers);
      var deletions := DeletionsOf(order);
      var additions := AdditionsOf(e.newFiles);
      dst := head + (log + (prev + (nextFile + (last + (pointers + (deletions + (additions + [])))))));
    }

    // VersionEdit::DecodeFrom
    method DecodeFrom(src: Bytes) returns (ok: bool)
      modifies this
      ensures var r := Parse(src, Cleared(old(e)));
              && (ok <==> r.Some?)
              && (ok ==> e == r.value)
    {
      hide Field;
      e := Cleared(e);
      ghost var target := Parse(src, e);
      var input := src;
      var tag := GetVarint32(input);
      while tag.Some?
        invariant tag == GetVarint32(input) && Parse(input, e) == target
        decreases |input|
      {
        var f := Field(tag.value.0, tag.value.1, e);
        if f.None? {
          return false;
        }
        e, input := f.value.0, f.value.1;
        tag := GetVarint32(input);
      }
      ok := input == [];
    }
  }

  // The loops of EncodeTo
  method PointersOf(ps: seq<(nat, Bytes)>) returns (dst: Bytes)
    requires forall i | 0 <= i < |ps| :: ValidPointer(ps[i])
    ensures dst == Pointers(ps)
  {
    hide Pointer;
    dst := [];
    var i := 0;
    assert ps[0..] == ps;
    while i < |ps|
      invariant 0 <= i <= |ps| && dst + Pointers(ps[i..]) == Pointers(ps)
    {
      assert ps[i..][1..] == ps[i + 1..];
      dst := dst + Pointer(ps[i]);
      i := i + 1;
    }
  }

  method DeletionsOf(ds: seq<(nat, Long)>) returns (dst: Bytes)
    ensures dst == Deletions(ds)
  {
    hide Deleted;
    dst := [];
    var i := 0;
    assert ds[0..] == ds;
    while i < |ds|
      invariant 0 <= i <= |ds| && dst + Deletions(ds[i..]) == Deletions(ds)
    {
      assert ds[i..][1..] == ds[i + 1..];
      dst := dst + Deleted(ds[i]);
      i := i + 1;
    }
  }

  method AdditionsOf(fs: seq<(nat, NewFile)>) returns (dst: Bytes)
    requires forall i | 0 <= i < |fs| :: ValidFile(fs[i])
    ensures dst == Additions(fs)
  {
    hide Added;
    dst := [];
    var i := 0;
    assert fs[0..] == fs;
    while i < |fs|
      invariant 0 <= i <= |fs| && dst + Additions(fs[i..]) == Additions(fs)
    {
      assert fs[i..][1..] == fs[i + 1..] && ValidFile(fs[i]);
      dst := dst + Added(fs[i]);
      i := i + 1;
    }
  }

  // ---- Round trip

  lemma ParseTagged(tag: Word, payload: Bytes, e: Edit, e': Edit, rest: Bytes)
    requires Field(tag, payload, e) == Some((e', rest))
    ensures Parse(Varint(tag) + payload, e) == Parse(rest, e')
  {
    Varint32RoundTrip(tag, payload);
    hide Field, Varint, GetVarint32;
  }

  // ---- What is refused

  lemma ParseRefused(tag: Word, payload: Bytes, e: Edit)
    requires Field(tag, payload, e).None?
    ensures Parse(Varint(tag) + payload, e).None?
  {
    Varint32RoundTrip(tag, payload);
    hide Field, Varint, GetVarint32;
  }

  // A tag that is none of these, 8 included, is a corruption.
  lemma UnknownTag(tag: Word, payload: Bytes, e: Edit)
    requires tag !in {1, 2, 3, 4, 5, 6, 7, 9}
    ensures Parse(Varint(tag) + payload, e).None?
  {
    ParseRefused(tag, payload, e);
  }

  // So is a level that does not exist.
  lemma UnknownLevel(tag: Word, level: Word, payload: Bytes, e: Edit)
    requires 5 <= tag <= 7 && level >= 7
    ensures Parse(Varint(tag) + (Varint(level) + payload), e).None?
  {
    Varint32RoundTrip(level, payload);
    hide Varint, GetVarint32;
    ParseRefused(tag, Varint(level) + payload, e);
  }

  // And bytes behind the last field that are no tag
  lemma CutTag(tag: Word, k: nat, e: Edit)
    requires 0 < k < |Varint(tag)|
    ensures Parse(Varint(tag)[..k], e).None?
  {
    CutVarint(tag, 5, k);
    hide Varint, TakeVarint, Field;
  }

  lemma ParseComparator(c: Option<Bytes>, e: Edit, rest: Bytes)
    requires c.Some? ==> |c.value| < WORD_LIMIT
    ensures Parse(Comparator(c) + rest, e) == Parse(rest, if c.Some? then e.(comparator := c) else e)
  {
    if c.Some? {
      var payload := Prefixed(c.value) + rest;
      assert Comparator(c) + rest == Varint(COMPARATOR_TAG) + payload;
      PrefixedRoundTrip(c.value, rest);
      hide Prefixed, GetPrefixed, Varint, Parse;
      ParseTagged(COMPARATOR_TAG, payload, e, e.(comparator := c), rest);
    } else {
      assert [] + rest == rest;
    }
  }

  function Numbered(tag: nat, n: Option<Long>, e: Edit): Edit {
    if n.None? then e
    else if tag == LOG_NUMBER_TAG then e.(logNumber := n)
    else if tag == PREV_LOG_NUMBER_TAG then e.(prevLogNumber := n)
    else if tag == NEXT_FILE_NUMBER_TAG then e.(nextFileNumber := n)
    else e.(lastSequence := n)
  }

  lemma ParseNumber(tag: nat, n: Option<Long>, e: Edit, rest: Bytes)
    requires tag == LOG_NUMBER_TAG || tag == PREV_LOG_NUMBER_TAG || tag == NEXT_FILE_NUMBER_TAG || tag == LAST_SEQUENCE_TAG
    ensures Parse(Number(tag, n) + rest, e) == Parse(rest, Numbered(tag, n, e))
  {
    if n.Some? {
      var payload := Varint(n.value) + rest;
      assert Number(tag, n) + rest == Varint(tag) + payload;
      Varint64RoundTrip(n.value, rest);
      hide Varint, GetVarint64, Parse;
      ParseTagged(tag, payload, e, Numbered(tag, n, e), rest);
    } else {
      assert [] + rest == rest;
    }
  }

  lemma LevelRoundTrip(level: nat, rest: Bytes)
    requires level < NUM_LEVELS
    ensures GetLevel(Varint(level) + rest) == Some((level, rest))
  {
    Varint32RoundTrip(level, rest);
  }

  lemma ParsePointer(p: (nat, Bytes), e: Edit, more: Bytes)
    requires ValidPointer(p)
    ensures Parse(Pointer(p) + more, e) == Parse(more, e.(compactPointers := e.compactPointers + [p]))
  {
    var payload := Varint(p.0) + (Prefixed(p.1) + more);
    assert Pointer(p) + more == Varint(COMPACT_POINTER_TAG) + payload;
    LevelRoundTrip(p.0, Prefixed(p.1) + more);
    PrefixedRoundTrip(p.1, more);
    hide Prefixed, GetPrefixed, Varint, Parse, GetLevel;
    ParseTagged(COMPACT_POINTER_TAG, payload, e, e.(compactPointers := e.compactPointers + [p]), more);
  }

  lemma {:induction false} ParsePointers(ps: seq<(nat, Bytes)>, e: Edit, rest: Bytes)
    requires forall i | 0 <= i < |ps| :: ValidPointer(ps[i])
    ensures Parse(Pointers(ps) + rest, e) == Parse(rest, e.(compactPointers := e.compactPointers + ps))
    decreases |ps|
  {
    hide Parse, Pointer, ValidPointer;
    if ps == [] {
      assert Pointers(ps) + rest == rest && e.compactPointers + ps == e.compactPointers;
    } else {
      var more := Pointers(ps[1..]) + rest;
      Regroup(Pointer(ps[0]), Pointers(ps[1..]), rest);
      ParsePointer(ps[0], e, more);
      var next := e.(compactPointers := e.compactPointers + [ps[0]]);
      ParsePointers(ps[1..], next, rest);
      Regroup(e.compactPointers, [ps[0]], ps[1..]);
      assert [ps[0]] + ps[1..] == ps;
      assert next.(compactPointers := next.compactPointers + ps[1..]) == e.(compactPointers := e.compactPointers + ps);
    }
  }

  lemma ParseDeletion(d: (nat, Long), e: Edit, more: Bytes)
    requires d.0 < NUM_LEVELS
    ensures Parse(Deleted(d) + more, e) == Parse(more, e.(deletedFiles := e.deletedFiles + {d}))
  {
    var payload := Varint(d.0) + (Varint(d.1) + more);
    assert Deleted(d) + more == Varint(DELETED_FILE_TAG) + payload;
    LevelRoundTrip(d.0, Varint(d.1) + more);
    Varint64RoundTrip(d.1, more);
    hide Varint, Parse, GetLevel, GetVarint64;
    ParseTagged(DELETED_FILE_TAG, payload, e, e.(deletedFiles := e.deletedFiles + {d}), more);
  }

  lemma {:induction false} ParseDeletions(ds: seq<(nat, Long)>, e: Edit, rest: Bytes)
    requires forall i | 0 <= i < |ds| :: ds[i].0 < NUM_LEVELS
    ensures Parse(Deletions(ds) + rest, e) == Parse(rest, e.(deletedFiles := e.deletedFiles + set d | d in ds))
    decreases |ds|
  {
    hide Parse, Deleted;
    if ds == [] {
      assert Deletions(ds) + rest == rest && e.deletedFiles + (set d | d in ds) == e.deletedFiles;
    } else {
      var more := Deletions(ds[1..]) + rest;
      Regroup(Deleted(ds[0]), Deletions(ds[1..]), rest);
      ParseDeletion(ds[0], e, more);
      var next := e.(deletedFiles := e.deletedFiles + {ds[0]});
      ParseDeletions(ds[1..], next, rest);
      SetOfTail(ds);
      assert next.(deletedFiles := next.deletedFiles + set x | x in ds[1..])
          == e.(deletedFiles := e.deletedFiles + set x | x in ds);
    }
  }

  lemma SetOfTail(ds: seq<(nat, Long)>)
    requires ds != []
    ensures (set x | x in ds) == {ds[0]} + set x | x in ds[1..]
  {
    assert ds == [ds[0]] + ds[1..];
  }

  lemma FileRoundTrip(f: NewFile, rest: Bytes)
    requires |f.smallest| < WORD_LIMIT && |f.largest| < WORD_LIMIT
    ensures File(Varint(f.number) + (Varint(f.size) + (Prefixed(f.smallest) + (Prefixed(f.largest) + rest)))) == Some((f, rest))
  {
    var last := Prefixed(f.largest) + rest;
    Varint64RoundTrip(f.number, Varint(f.size) + (Prefixed(f.smallest) + last));
    Varint64RoundTrip(f.size, Prefixed(f.smallest) + last);
    PrefixedRoundTrip(f.smallest, last);
    PrefixedRoundTrip(f.largest, rest);
    hide Varint, Prefixed, GetVarint64, GetPrefixed;
  }

  lemma AddedBytes(f: (nat, NewFile), rest: Bytes)
    requires ValidFile(f)
    ensures Added(f) + rest
         == Varint(NEW_FILE_TAG)
            + (Varint(f.0) + (Varint(f.1.number) + (Varint(f.1.size) + (Prefixed(f.1.smallest) + (Prefixed(f.1.largest) + rest)))))
  {
    hide Varint, Prefixed;
  }

  lemma ParseAddition(f: (nat, NewFile), e: Edit, more: Bytes)
    requires ValidFile(f)
    ensures Parse(Added(f) + more, e) == Parse(more, e.(newFiles := e.newFiles + [f]))
  {
    var tail := Varint(f.1.number) + (Varint(f.1.size) + (Prefixed(f.1.smallest) + (Prefixed(f.1.largest) + more)));
    AddedBytes(f, more);
    FieldAddition(f, e, more, tail);
    hide Varint, Parse, GetLevel, File, Added, Prefixed, Field;
    ParseTagged(NEW_FILE_TAG, Varint(f.0) + tail, e, e.(newFiles := e.newFiles + [f]), more);
  }

  lemma FieldAddition(f: (nat, NewFile), e: Edit, more: Bytes, tail: Bytes)
    requires ValidFile(f)
    requires tail == Varint(f.1.number) + (Varint(f.1.size) + (Prefixed(f.1.smallest) + (Prefixed(f.1.largest) + more)))
    ensures Field(NEW_FILE_TAG, Varint(f.0) + tail, e) == Some((e.(newFiles := e.newFiles + [f]), more))
  {
    hide Varint, GetLevel, File, Prefixed, GetPrefixed, GetVarint64;
    LevelRoundTrip(f.0, tail);
    FileRoundTrip(f.1, more);
  }

  lemma {:induction false} ParseAdditions(fs: seq<(nat, NewFile)>, e: Edit, rest: Bytes)
    requires forall i | 0 <= i < |fs| :: ValidFile(fs[i])
    ensures Parse(Additions(fs) + rest, e) == Parse(rest, e.(newFiles := e.newFiles + fs))
    decreases |fs|
  {
    hide Parse, Added, ValidFile;
    if fs == [] {
      assert Additions(fs) + rest == rest && e.newFiles + fs == e.newFiles;
    } else {
      var more := Additions(fs[1..]) + rest;
      Regroup(Added(fs[0]), Additions(fs[1..]), rest);
      ParseAddition(fs[0], e, more);
      var next := e.(newFiles := e.newFiles + [fs[0]]);
      ParseAdditions(fs[1..], next, rest);
      Regroup(e.newFiles, [fs[0]], fs[1..]);
      assert [fs[0]] + fs[1..] == fs;
      assert next.(newFiles := next.newFiles + fs[1..]) == e.(newFiles := e.newFiles + fs);
    }
  }

  // Decoding an encoded edit gives it back, whatever the order of the deleted files; only
  // compaction pointers that were there before stay in front.
  lemma RoundTrip(e: Edit, order: seq<(nat, Long)>, was: Edit)
    requires Valid(e) && Lists(order, e.deletedFiles)
    ensures Parse(Encoded(e, order), Cleared(was)) == Some(e.(compactPointers := was.compactPointers + e.compactPointers))
  {
    var c := Cleared(was);
    var files := Additions(e.newFiles) + [];
    var deletions := Deletions(order) + files;
    var pointers := Pointers(e.compactPointers) + deletions;
    var last := Number(LAST_SEQUENCE_TAG, e.lastSequence) + pointers;
    var nextFile := Number(NEXT_FILE_NUMBER_TAG, e.nextFileNumber) + last;
    var prev := Number(PREV_LOG_NUMBER_TAG, e.prevLogNumber) + nextFile;
    var log := Number(LOG_NUMBER_TAG, e.logNumber) + prev;
    hide Parse, Number, Comparator, Pointers, Deletions, Additions;
    ParseComparator(e.comparator, c, log);
    var c1 := c.(comparator := e.comparator);
    ParseNumber(LOG_NUMBER_TAG, e.logNumber, c1, prev);
    var c2 := c1.(logNumber := e.logNumber);
    ParseNumber(PREV_LOG_NUMBER_TAG, e.prevLogNumber, c2, nextFile);
    var c3 := c2.(prevLogNumber := e.prevLogNumber);
    ParseNumber(NEXT_FILE_NUMBER_TAG, e.nextFileNumber, c3, last);
    var c4 := c3.(nextFileNumber := e.nextFileNumber);
    ParseNumber(LAST_SEQUENCE_TAG, e.lastSequence, c4, pointers);
    var c5 := c4.(lastSequence := e.lastSequence);
    BodyRoundTrip(e, order, c5);
  }

  lemma BodyRoundTrip(e: Edit, order: seq<(nat, Long)>, c: Edit)
    requires Valid(e) && Lists(order, e.deletedFiles) && c.deletedFiles == {} && c.newFiles == []
    ensures Parse(Pointers(e.compactPointers) + (Deletions(order) + (Additions(e.newFiles) + [])), c)
         == Some(c.(compactPointers := c.compactPointers + e.compactPointers,
                    deletedFiles := e.deletedFiles, newFiles := e.newFiles))
  {
    var files := Additions(e.newFiles) + [];
    hide Parse, Pointers, Deletions, Additions;
    ParsePointers(e.compactPointers, c, Deletions(order) + files);
    var c1 := c.(compactPointers := c.compactPointers + e.compactPointers);
    forall i | 0 <= i < |order|
      ensures order[i].0 < NUM_LEVELS
    {
      assert order[i] in order;
    }
    ParseDeletions(order, c1, files);
    var c2 := c1.(deletedFiles := e.deletedFiles);
    assert {} + (set d | d in order) == e.deletedFiles;
    ParseAdditions(e.newFiles, c2, []);
    assert [] + e.newFiles == e.newFiles;
    ParseNothing(c2.(newFiles := e.newFiles));
  }

  lemma ParseNothing(e: Edit)
    ensures Parse([], e) == Some(e)
  {
  }
}
