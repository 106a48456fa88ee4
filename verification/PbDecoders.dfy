/** The nanopb decoder: varints with their overflow rules, tags, skipping, substreams, and the
    field-by-field filling of a structure that holds the defaults. */
module PbDecoders {
  import opened InternalKeys
  import opened Coding
  import opened PbSchemas

  const PB_MAX_REQUIRED_FIELDS := 64

  // ---- Varints

  // The multibyte case of pb_decode_varint32, after k groups of seven bits. Bits beyond the
  // 32nd are allowed only as the sign extension of a negative number.
  function MoreVarint32(b: Bytes, k: nat, result: nat): (r: Option<(nat, Bytes)>)
    ensures r.Some? ==> |r.value.1| < |b|
    decreases |b|
  {
    if b == [] then None else
    var byte: int := b[0];
    var low := byte % 128;
    if 7 * k >= 32 then
      var signExtension := if 7 * k < 63 then 0xFF else 0x01;
      if low != 0 && (result < 0x8000_0000 || byte != signExtension) then None
      else if byte >= 128 then MoreVarint32(b[1..], k + 1, result)
      else Some((result, b[1..]))
    else
      var sum := result + low * Pow128(k) % WORD_LIMIT;
      if byte >= 128 then MoreVarint32(b[1..], k + 1, sum)
      else if k == 4 && byte / 16 % 8 != 0 then None
      else Some((sum, b[1..]))
  }

  function DecodeVarint32(b: Bytes): (r: Option<(nat, Bytes)>)
    ensures r.Some? ==> |r.value.1| < |b|
  {
    if b == [] then None else
    var byte: int := b[0];
    if byte < 128 then Some((byte, b[1..])) else MoreVarint32(b[1..], 1, byte - 128)
  }

  // ---- Tags and skipping

  datatype Tag = Eof(rest: Bytes) | Malformed | Tag(wireType: nat, number: nat, rest: Bytes)

  // A zero tag ends the message like the end of the stream does.
  function DecodeTag(b: Bytes): (r: Tag)
    ensures r.Tag? ==> |r.rest| < |b|
  {
    if b == [] then Eof([]) else
    var v := DecodeVarint32(b);
    if v.None? then Malformed
    else if v.value.0 == 0 then Eof(v.value.1)
    else Tag(v.value.0 % 8, v.value.0 / 8, v.value.1)
  }

  function Take(b: Bytes, n: nat): Option<(Bytes, Bytes)> {
    if |b| < n then None else Some((b[..n], b[n..]))
  }

  // pb_make_string_substream: the substream and what follows it
  function TakeString(b: Bytes): (r: Option<(Bytes, Bytes)>)
    ensures r.Some? ==> |r.value.1| < |b| && |r.value.0| < |b|
  {
    var size := DecodeVarint32(b);
    if size.None? then None else Take(size.value.1, size.value.0)
  }

  function SkipVarint(b: Bytes): (r: Option<Bytes>)
    ensures r.Some? ==> |r.value| < |b|
  {
    if b == [] then None else if b[0] < 128 then Some(b[1..]) else SkipVarint(b[1..])
  }

  function SkipField(wireType: nat, b: Bytes): (r: Option<Bytes>)
    ensures r.Some? ==> |r.value| <= |b|
  {
    if wireType == WT_VARINT then SkipVarint(b)
    else if wireType == WT_64BIT then if |b| < 8 then None else Some(b[8..])
    else if wireType == WT_STRING then
      var s := TakeString(b);
      if s.None? then None else Some(s.value.1)
    else if wireType == WT_32BIT then if |b| < 4 then None else Some(b[4..])
    else None
  }

  // ---- Defaults

  function Initial(f: Field): Datum
    decreases f, 0
  {
    if f.ltype.Submessage? then Msg(Defaults(f.ltype.fields)) else f.initial
  }

  function DefaultSlot(f: Field): Slot
    decreases f, 1
  {
    match f.rule
    case Required => One(Initial(f))
    case Optional => Maybe(false, Initial(f))
    case Repeated(_) => Many([])
    case OneOf(_) => Choice(None)
  }

  // pb_message_set_to_defaults
  function Defaults(fields: seq<Field>): (r: seq<Slot>)
    ensures |r| == |fields| && forall i | 0 <= i < |fields| :: r[i] == DefaultSlot(fields[i])
    decreases fields
  {
    seq(|fields|, i requires 0 <= i < |fields| => DefaultSlot(fields[i]))
  }

  // What the descriptor's own fields can hold, each a pb_size_t
  predicate Describable(f: Field) {
    && f.tag <= PB_SIZE_MAX
    && (f.rule.Repeated? ==> f.rule.arraySize <= PB_SIZE_MAX)
    && (f.ltype.BytesArray? || f.ltype.CString? || f.ltype.FixedBytes? ==> f.ltype.dataSize <= PB_SIZE_MAX)
  }

  // Descriptors as the generator emits them: distinct positive tags that leave room for the
  // wire type, sizes that fit their fields, and defaults of the field's type.
  ghost predicate WellFormed(fields: seq<Field>)
    decreases fields
  {
    && (forall i | 0 <= i < |fields| :: 0 < fields[i].tag < 0x2000_0000)
    && (forall i, j | 0 <= i < j < |fields| :: fields[i].tag != fields[j].tag)
    && (forall i | 0 <= i < |fields| :: WellFormedField(fields[i]))
  }

  ghost predicate WellFormedField(f: Field)
    decreases f
  {
    Describable(f) && if f.ltype.Submessage? then WellFormed(f.ltype.fields) else Shaped(f.ltype, f.initial)
  }

  lemma {:induction false} DefaultsShaped(fields: seq<Field>)
    requires WellFormed(fields)
    ensures ShapedAll(fields, Defaults(fields))
    decreases fields
  {
    forall i | 0 <= i < |fields|
      ensures ShapedSlot(fields[i], Defaults(fields)[i])
    {
      InitialShaped(fields[i]);
    }
  }

  lemma {:induction false} InitialShaped(f: Field)
    requires WellFormedField(f)
    ensures Shaped(f.ltype, Initial(f)) && ShapedSlot(f, DefaultSlot(f))
    decreases f
  {
    if f.ltype.Submessage? {
      DefaultsShaped(f.ltype.fields);
    }
  }

  // ---- Values

  // A C string ends at the first zero byte.
  function UpToZero(b: Bytes): (r: Bytes)
    ensures |r| <= |b| && 0 !in r
    ensures 0 !in b ==> r == b
  {
    if b == [] || b[0] == 0 then [] else [b[0]] + UpToZero(b[1..])
  }

  function Signed(n: nat, limit: nat): int
    requires limit > 0
  {
    var low := n % (2 * limit);
    if low >= limit then low - 2 * limit else low
  }

  function UnZigZag(n: nat): int { if n % 2 == 1 then -(n / 2) - 1 else n / 2 }

  // Whether the number survives the cast to the field's size.
  predicate InSigned(n: int, w: Width) { -SignedLimit(w) <= n < SignedLimit(w) }

  // The field decoders behind PB_DECODERS. An existing submessage is merged into.
  function DecodeValue(lt: LType, b: Bytes, old_: Datum): (r: Option<(Datum, Bytes)>)
    requires lt.Submessage? ==> Shaped(lt, old_) && WellFormed(lt.fields)
    ensures r.Some? ==> Shaped(lt, r.value.0) && |r.value.1| < |b|
    decreases lt, 0, 0
  {
    match lt
    case Bool =>
      var v := DecodeVarint32(b);
      if v.None? then None else Some((Num(if v.value.0 != 0 then 1 else 0), v.value.1))
    case Varint(w) =>
      var v := GetVarint64(b);
      if v.None? then None else
      // Fields of up to 32 bits take the low 32 bits as a signed number.
      var n := Signed(v.value.0, if w.W64? then 0x8000_0000_0000_0000 else 0x8000_0000);
      if InSigned(n, w) then Some((Num(n), v.value.1)) else None
    case UVarint(w) =>
      var v := GetVarint64(b);
      if v.None? || v.value.0 >= 2 * SignedLimit(w) then None else Some((Num(v.value.0), v.value.1))
    case SVarint(w) =>
      var v := GetVarint64(b);
      if v.None? || !InSigned(UnZigZag(v.value.0), w) then None else Some((Num(UnZigZag(v.value.0)), v.value.1))
    case Fixed32 =>
      if |b| < 4 then None else
      WordRange(b[..4]);
      Some((Num(DecodeFixed32(b[..4])), b[4..]))
    case Fixed64 =>
      if |b| < 8 then None else
      WordRange(b[..8][..4]);
      WordRange(b[..8][4..]);
      Some((Num(DecodeFixed64(b[..8])), b[8..]))
    case BytesArray(size) =>
      var s := TakeString(b);
      if s.None? || |s.value.0| > PB_SIZE_MAX || BYTES_HEADER + |s.value.0| > size then None
      else Some((Blob(s.value.0), s.value.1))
    case CString(size) =>
      var s := TakeString(b);
      if s.None? || |s.value.0| + 1 > size then None else Some((Blob(UpToZero(s.value.0)), s.value.1))
    case FixedBytes(size) =>
      var s := TakeString(b);
      if s.None? || |s.value.0| > PB_SIZE_MAX then None
      else if |s.value.0| == 0 then Some((Blob(seq(size, _ => 0)), s.value.1))
      else if |s.value.0| != size then None
      else Some((Blob(s.value.0), s.value.1))
    case Submessage(fields) =>
      var s := TakeString(b);
      if s.None? then None else
      var m := DecodeFields(fields, old_.slots, {}, s.value.0);
      if m.None? then None else Some((Msg(m.value.0), s.value.1))
  }

  lemma WordRange(b: Bytes)
    requires |b| == 4
    ensures DecodeFixed32(b) < WORD_LIMIT
  {
  }

  function Fresh(lt: LType): Datum {
    if lt.Submessage? then Msg(Defaults(lt.fields)) else Num(0)
  }

  // A packed array: items until the substream or the array is full. Left-over bytes are an error.
  function DecodePacked(lt: LType, b: Bytes, items: seq<Datum>, arraySize: nat): (r: Option<seq<Datum>>)
    requires Packable(lt) && ShapedItems(lt, items)
    ensures r.Some? ==> ShapedItems(lt, r.value)
    decreases lt, 1, |b|
  {
    if b == [] then Some(items)
    else if |items| >= arraySize then None
    else
      var v := DecodeValue(lt, b, Fresh(lt));
      if v.None? then None else DecodePacked(lt, v.value.1, items + [v.value.0], arraySize)
  }

  // decode_static_field, on the field's own part of the structure
  function DecodeSlot(f: Field, wireType: nat, b: Bytes, s: Slot): (r: Option<(Slot, Bytes)>)
    requires ShapedSlot(f, s) && WellFormedField(f)
    ensures r.Some? ==> ShapedSlot(f, r.value.0) && |r.value.1| < |b|
    decreases f, 0, 0
  {
    match f.rule
    case Required =>
      var v := DecodeValue(f.ltype, b, s.value);
      if v.None? then None else Some((One(v.value.0), v.value.1))
    case Optional =>
      var v := DecodeValue(f.ltype, b, s.value);
      if v.None? then None else Some((Maybe(true, v.value.0), v.value.1))
    case Repeated(size) =>
      if wireType == WT_STRING && Packable(f.ltype) then
        var t := TakeString(b);
        if t.None? then None else
        var items := DecodePacked(f.ltype, t.value.0, s.items, size);
        if items.None? then None else Some((Many(items.value), t.value.1))
      else if |s.items| >= size then None
      else
        FreshShaped(f);
        var v := DecodeValue(f.ltype, b, Fresh(f.ltype));
        if v.None? then None else
        ItemShaped(f.ltype, s.items, v.value.0);
        Some((Many(s.items + [v.value.0]), v.value.1))
    case OneOf(_) =>
      FreshShaped(f);
      var v := DecodeValue(f.ltype, b, Fresh(f.ltype));
      if v.None? then None else Some((Choice(Some(v.value.0)), v.value.1))
  }

  lemma ItemShaped(lt: LType, items: seq<Datum>, v: Datum)
    requires ShapedItems(lt, items) && Shaped(lt, v)
    ensures ShapedItems(lt, items + [v])
  {
  }

  // The structure with a new part for field i. Setting a member of a union unsets the others.
  function Stored(fields: seq<Field>, slots: seq<Slot>, i: nat, s: Slot): (r: seq<Slot>)
    requires |slots| == |fields| && i < |fields|
    ensures |r| == |slots|
  {
    seq(|slots|, j requires 0 <= j < |slots| =>
      if j == i then s
      else if fields[i].rule.OneOf? && fields[j].rule == fields[i].rule then Choice(None)
      else slots[j])
  }

  lemma StoredShaped(fields: seq<Field>, slots: seq<Slot>, i: nat, s: Slot)
    requires i < |fields| && ShapedAll(fields, slots) && ShapedSlot(fields[i], s)
    ensures ShapedAll(fields, Stored(fields, slots, i, s))
  {
  }

  lemma FreshShaped(f: Field)
    requires WellFormedField(f)
    ensures f.ltype.Submessage? ==> Shaped(f.ltype, Fresh(f.ltype))
  {
    if f.ltype.Submessage? {
      DefaultsShaped(f.ltype.fields);
    }
  }

  // The place of a tag among the fields.
  function Find(fields: seq<Field>, tag: nat): (r: Option<nat>)
    ensures r.Some? ==> r.value < |fields| && fields[r.value].tag == tag
    ensures r.None? ==> forall i | 0 <= i < |fields| :: fields[i].tag != tag
  {
    if fields == [] then None
    else if fields[|fields| - 1].tag == tag then Some(|fields| - 1)
    else Find(fields[..|fields| - 1], tag)
  }

  function RequiredBefore(fields: seq<Field>, n: nat): nat
    requires n <= |fields|
  {
    if n == 0 then 0 else RequiredBefore(fields, n - 1) + if fields[n - 1].rule.Required? then 1 else 0
  }

  lemma {:induction false} RequiredIndex(d: seq<Field>, n: nat, q: nat) returns (j: nat)
    requires n <= |d| && q < RequiredBefore(d, n)
    ensures j < n && d[j].rule.Required? && RequiredBefore(d, j) == q
    decreases n
  {
    if q < RequiredBefore(d, n - 1) {
      j := RequiredIndex(d, n - 1, q);
    } else {
      j := n - 1;
    }
  }

  lemma {:induction false} RequiredGrows(d: seq<Field>, m: nat, n: nat)
    requires m <= n <= |d|
    ensures RequiredBefore(d, m) <= RequiredBefore(d, n)
    ensures m < n && d[m].rule.Required? ==> RequiredBefore(d, m) < RequiredBefore(d, n)
    decreases n
  {
    if m < n {
      RequiredGrows(d, m, n - 1);
    }
  }

  lemma {:induction false} RequiredBeforeCounts(d: seq<Field>, n: nat)
    requires n <= |d|
    ensures RequiredBefore(d, n) == |set i | 0 <= i < n && d[i].rule.Required?|
    decreases n
  {
    if n > 0 {
      RequiredBeforeCounts(d, n - 1);
      var less := set i | 0 <= i < n - 1 && d[i].rule.Required?;
      var all := set i | 0 <= i < n && d[i].rule.Required?;
      assert all == if d[n - 1].rule.Required? then less + {n - 1} else less;
    }
  }

  // The first 64 required fields are kept track of.
  function Mark(fields: seq<Field>, i: nat, seen: set<nat>): set<nat>
    requires i < |fields|
  {
    var index := RequiredBefore(fields, i);
    if fields[i].rule.Required? && index < PB_MAX_REQUIRED_FIELDS then seen + {index} else seen
  }

  function RequiredCount(fields: seq<Field>): nat {
    var n := RequiredBefore(fields, |fields|);
    if n > PB_MAX_REQUIRED_FIELDS then PB_MAX_REQUIRED_FIELDS else n
  }

  function Finished(fields: seq<Field>, slots: seq<Slot>, seen: set<nat>, rest: Bytes): Option<(seq<Slot>, Bytes)> {
    if forall k | 0 <= k < RequiredCount(fields) :: k in seen then Some((slots, rest)) else None
  }

  // pb_decode_noinit: the structure, and what is left of the stream
  function DecodeFields(fields: seq<Field>, slots: seq<Slot>, seen: set<nat>, b: Bytes): (r: Option<(seq<Slot>, Bytes)>)
    requires ShapedAll(fields, slots) && WellFormed(fields)
    ensures r.Some? ==> ShapedAll(fields, r.value.0)
    decreases fields, 1, |b|
  {
    match DecodeTag(b)
    case Eof(rest) => Finished(fields, slots, seen, rest)
    case Malformed => None
    case Tag(wireType, number, rest) =>
      var place := Find(fields, number);
      if place.None? then
        var skipped := SkipField(wireType, rest);
        if skipped.None? then None else DecodeFields(fields, slots, seen, skipped.value)
      else
        var i := place.value;
        var d := DecodeSlot(fields[i], wireType, rest, slots[i]);
        if d.None? then None else
        StoredShaped(fields, slots, i, d.value.0);
        DecodeFields(fields, Stored(fields, slots, i, d.value.0), Mark(fields, i, seen), d.value.1)
  }

  // pb_decode
  function Decode(fields: seq<Field>, b: Bytes): Option<(seq<Slot>, Bytes)>
    requires WellFormed(fields)
  {
    DefaultsShaped(fields);
    DecodeFields(fields, Defaults(fields), {}, b)
  }
}
