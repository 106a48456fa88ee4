/** Decoding what was encoded gives the structure back, also through a descriptor that knows only
    some of the fields. */
module PbRoundTrips {
  import opened InternalKeys
  import opened Coding
  import opened PbSchemas
  import opened PbDecoders

  // ---- What survives encoding: everything but the storage behind absent optional values

  function CanonValue(lt: LType, v: Datum): Datum
    requires Shaped(lt, v)
    decreases lt, 0
  {
    if lt.Submessage? then Msg(CanonSlots(lt.fields, v.slots)) else v
  }

  function CanonSlots(fields: seq<Field>, slots: seq<Slot>): (r: seq<Slot>)
    requires ShapedAll(fields, slots)
    ensures |r| == |fields| && forall i | 0 <= i < |r| :: r[i] == CanonSlot(fields[i], slots[i])
    decreases fields, 0
  {
    seq(|fields|, i requires 0 <= i < |fields| => CanonSlot(fields[i], slots[i]))
  }

  function CanonSlot(f: Field, s: Slot): Slot
    requires ShapedSlot(f, s)
    decreases f, 0
  {
    match f.rule
    case Required => One(CanonValue(f.ltype, s.value))
    case Optional => if s.has then Maybe(true, CanonValue(f.ltype, s.value)) else Maybe(false, Initial(f))
    case Repeated(_) => Many(CanonItems(f.ltype, s.items))
    case OneOf(_) => Choice(if s.chosen.Some? then Some(CanonValue(f.ltype, s.chosen.value)) else None)
  }

  function CanonItems(lt: LType, items: seq<Datum>): (r: seq<Datum>)
    requires ShapedItems(lt, items)
    ensures |r| == |items| && forall i | 0 <= i < |items| :: r[i] == CanonValue(lt, items[i])
    decreases lt, 1
  {
    seq(|items|, i requires 0 <= i < |items| => CanonValue(lt, items[i]))
  }

  // ---- Values fitting their descriptor

  ghost predicate Storable(lt: LType, v: Datum)
    requires Shaped(lt, v)
    decreases lt, 0
  {
    match lt
    case BytesArray(size) => BYTES_HEADER + |v.bytes| <= size
    case CString(size) => |v.bytes| + 1 <= size && |v.bytes| < WORD_LIMIT
    case FixedBytes(size) => size <= PB_SIZE_MAX
    case Submessage(fields) => StorableAll(fields, v.slots) && |EncodeFields(fields, v.slots)| < WORD_LIMIT
    case _ => true
  }

  ghost predicate StorableAll(fields: seq<Field>, slots: seq<Slot>)
    requires ShapedAll(fields, slots)
    decreases fields, 0
  {
    && (forall i | 0 <= i < |fields| :: StorableSlot(fields[i], slots[i]))
    && OneChosen(fields, slots)
  }

  // A union holds one of its members.
  ghost predicate OneChosen(fields: seq<Field>, slots: seq<Slot>)
    requires ShapedAll(fields, slots)
  {
    forall i, j | 0 <= i < j < |fields| && fields[i].rule.OneOf? && fields[i].rule == fields[j].rule ::
      !(IsChosen(slots[i]) && IsChosen(slots[j]))
  }

  predicate IsChosen(s: Slot) { s.Choice? && s.chosen.Some? }

  ghost predicate StorableSlot(f: Field, s: Slot)
    requires ShapedSlot(f, s)
    decreases f, 0
  {
    match f.rule
    case Required => Storable(f.ltype, s.value)
    case Optional => s.has ==> Storable(f.ltype, s.value)
    case OneOf(_) => s.chosen.Some? ==> Storable(f.ltype, s.chosen.value)
    case Repeated(size) =>
      && |s.items| <= size && StorableItems(f.ltype, s.items)
      && (Packable(f.ltype) ==> |EncodePacked(f.ltype, s.items)| < WORD_LIMIT)
  }

  ghost predicate StorableItems(lt: LType, items: seq<Datum>)
    requires ShapedItems(lt, items)
    decreases lt, 1
  {
    forall i | 0 <= i < |items| :: Storable(lt, items[i])
  }

  // Everything that decoding can give back is accepted by the encoder.
  lemma {:induction false} StorableIsEncodable(fields: seq<Field>, slots: seq<Slot>)
    requires ShapedAll(fields, slots) && StorableAll(fields, slots)
    ensures EncodableAll(fields, slots)
    decreases fields, 0
  {
    forall i | 0 <= i < |fields| ensures EncodableSlot(fields[i], slots[i]) {
      SlotIsEncodable(fields[i], slots[i]);
    }
  }

  lemma {:induction false} SlotIsEncodable(f: Field, s: Slot)
    requires ShapedSlot(f, s) && StorableSlot(f, s)
    ensures EncodableSlot(f, s)
    decreases f, 1
  {
    if s.Many? {
      forall i | 0 <= i < |s.items| ensures Encodable(f.ltype, s.items[i]) {
        ValueIsEncodable(f.ltype, s.items[i]);
      }
    } else if s.One? || (s.Maybe? && s.has) || (s.Choice? && s.chosen.Some?) {
      ValueIsEncodable(f.ltype, if s.Choice? then s.chosen.value else s.value);
    }
  }

  lemma {:induction false} ValueIsEncodable(lt: LType, v: Datum)
    requires Shaped(lt, v) && Storable(lt, v)
    ensures Encodable(lt, v)
    decreases lt, 0
  {
    if lt.Submessage? {
      StorableIsEncodable(lt.fields, v.slots);
    }
  }

  // What the encoder refuses: more items than the array has room for, and a length that does
  // not fit the room of a bytes field.
  lemma RefusedIff(f: Field, items: seq<Datum>, bytes: Bytes)
    requires |bytes| <= PB_SIZE_MAX
    ensures f.rule.Repeated? && !f.ltype.BytesArray? && !f.ltype.Submessage? && ShapedItems(f.ltype, items) ==>
              (EncodableSlot(f, Many(items)) <==> |items| <= f.rule.arraySize)
    ensures f.ltype.BytesArray? && f.rule.Required? ==>
              (EncodableSlot(f, One(Blob(bytes))) <==> SizeBytes(SIZE_TYPE) + |bytes| <= f.ltype.dataSize)
  {
    if f.rule.Repeated? && !f.ltype.BytesArray? && !f.ltype.Submessage? && ShapedItems(f.ltype, items) {
      forall i | 0 <= i < |items| ensures Shaped(f.ltype, items[i]) && Encodable(f.ltype, items[i]) {
      }
      assert EncodableItems(f.ltype, items);
    }
  }

  // ---- Varints and strings

  lemma Pow128Values()
    ensures Pow128(1) == 128 && Pow128(2) == 16384 && Pow128(3) == 2097152 && Pow128(4) == 268435456
  {
    assert Pow128(2) == 128 * Pow128(1);
    assert Pow128(3) == 128 * Pow128(2);
    assert Pow128(4) == 128 * Pow128(3);
  }

  // One group of bits below the 32nd
  lemma MoreStep(byte: Byte, rest: Bytes, k: nat, acc: nat)
    requires k <= 4
    ensures MoreVarint32([byte] + rest, k, acc)
         == var sum := acc + byte % 128 * Pow128(k) % WORD_LIMIT;
            if byte >= 128 then MoreVarint32(rest, k + 1, sum)
            else if k == 4 && byte >= 16 then None else Some((sum, rest))
  {
    assert ([byte] + rest)[1..] == rest;
    hide Pow128;
  }

  lemma {:induction false} MoreRoundTrip(m: nat, k: nat, acc: nat, rest: Bytes)
    requires 1 <= k <= 4 && m > 0 && acc + m * Pow128(k) < WORD_LIMIT
    ensures MoreVarint32(Coding.Varint(m) + rest, k, acc) == Some((acc + m * Pow128(k), rest))
    decreases m
  {
    if m < 128 {
      assert Coding.Varint(m) == [m];
      MoreStep(m, rest, k, acc);
      MoreLast(m, k, acc);
      hide Pow128, Coding.Varint, MoreVarint32;
    } else {
      var low: Byte := 128 + m % 128;
      assert Coding.Varint(m) + rest == [low] + (Coding.Varint(m / 128) + rest);
      MoreStep(low, Coding.Varint(m / 128) + rest, k, acc);
      MoreNext(m, k, acc);
      hide Pow128, Coding.Varint, MoreVarint32;
      MoreRoundTrip(m / 128, k + 1, acc + m % 128 * Pow128(k), rest);
    }
  }

  lemma MoreLast(m: nat, k: nat, acc: nat)
    requires 1 <= k <= 4 && 0 < m < 128 && acc + m * Pow128(k) < WORD_LIMIT
    ensures m * Pow128(k) % WORD_LIMIT == m * Pow128(k) && (k == 4 ==> m < 16)
  {
    Pow128Values();
  }

  lemma MoreNext(m: nat, k: nat, acc: nat)
    requires 1 <= k <= 4 && m >= 128 && acc + m * Pow128(k) < WORD_LIMIT
    ensures k < 4 && Pow128(k + 1) == 128 * Pow128(k)
    ensures m % 128 * Pow128(k) % WORD_LIMIT == m % 128 * Pow128(k)
    ensures acc + m % 128 * Pow128(k) + m / 128 * Pow128(k + 1) == acc + m * Pow128(k)
  {
    Pow128Values();
    if k == 1 {
    } else if k == 2 {
    } else if k == 3 {
    }
  }

  lemma Varint32Decodes(n: Word, rest: Bytes)
    ensures DecodeVarint32(Coding.Varint(n) + rest) == Some((n, rest))
  {
    var b := Coding.Varint(n) + rest;
    if n < 128 {
      assert b[1..] == rest;
    } else {
      assert b[0] == 128 + n % 128 && b[1..] == Coding.Varint(n / 128) + rest;
      Pow128Values();
      MoreRoundTrip(n / 128, 1, n % 128, rest);
    }
  }

  lemma StringDecodes(s: Bytes, rest: Bytes)
    requires |s| < WORD_LIMIT
    ensures TakeString(Delimited(s) + rest) == Some((s, rest))
  {
    assert Delimited(s) + rest == Coding.Varint(|s|) + (s + rest);
    Varint32Decodes(|s|, s + rest);
    assert (s + rest)[..|s|] == s && (s + rest)[|s|..] == rest;
  }

  lemma TagDecodes(tag: nat, wireType: nat, rest: Bytes)
    requires 0 < tag < 0x2000_0000 && wireType < 8
    ensures DecodeTag(TagBytes(tag, wireType) + rest) == Tag(wireType, tag, rest)
  {
    Varint32Decodes(8 * tag + wireType, rest);
  }

  // ---- One value

  lemma BoolRoundTrip(v: Datum, rest: Bytes, old_: Datum)
    requires Shaped(Bool, v)
    ensures DecodeValue(Bool, EncodeValue(Bool, v) + rest, old_) == Some((v, rest))
  {
    Varint32Decodes(v.n, rest);
    hide DecodeVarint32, Coding.Varint;
  }

  lemma ZigZagDecodes(n: int)
    ensures UnZigZag(ZigZag(n)) == n
  {
  }

  lemma UnsignedRoundTrip(lt: LType, v: Datum, rest: Bytes, old_: Datum)
    requires (lt.UVarint? || lt.SVarint?) && Shaped(lt, v)
    ensures DecodeValue(lt, EncodeValue(lt, v) + rest, old_) == Some((v, rest))
  {
    ZigZagDecodes(v.n);
    Varint64RoundTrip(if lt.SVarint? then ZigZag(v.n) else v.n, rest);
    hide GetVarint64, Coding.Varint, UnZigZag;
  }

  // What a signed field makes of a 64-bit varint: its low 32 bits in two's complement, or all 64.
  function SignedMeaning(w: Width, u: Long): int {
    if w.W64? then (if u < 0x8000_0000_0000_0000 then u else u - 0x1_0000_0000_0000_0000)
    else if u % 0x1_0000_0000 < 0x8000_0000 then u % 0x1_0000_0000
    else u % 0x1_0000_0000 - 0x1_0000_0000
  }

  lemma SignedTwoWays(w: Width, u: Long)
    ensures Signed(u, if w.W64? then 0x8000_0000_0000_0000 else 0x8000_0000) == SignedMeaning(w, u)
  {
  }

  lemma SignedRead(w: Width, b: Bytes, u: Long, rest: Bytes, old_: Datum)
    requires GetVarint64(b) == Some((u, rest))
    ensures var n := Signed(u, if w.W64? then 0x8000_0000_0000_0000 else 0x8000_0000);
            DecodeValue(Varint(w), b, old_) == if InSigned(n, w) then Some((Num(n), rest)) else None
  {
    hide GetVarint64, Signed, SignedLimit, InSigned;
  }

  // Any varint is read that way, as long as the field can hold the number.
  lemma SignedDecode(w: Width, u: Long, rest: Bytes, old_: Datum)
    ensures DecodeValue(Varint(w), Coding.Varint(u) + rest, old_)
         == if -SignedLimit(w) <= SignedMeaning(w, u) < SignedLimit(w) then Some((Num(SignedMeaning(w, u)), rest)) else None
  {
    var n := SignedMeaning(w, u);
    assert InSigned(n, w) <==> -SignedLimit(w) <= n < SignedLimit(w);
    hide *;
    SignedTwoWays(w, u);
    Varint64RoundTrip(u, rest);
    SignedRead(w, Coding.Varint(u) + rest, u, rest, old_);
  }

  function TwosComplement(n: int): (u: Long)
    requires -0x8000_0000_0000_0000 <= n < 0x8000_0000_0000_0000
  {
    if n < 0 then n + LONG_LIMIT else n
  }

  lemma SignedKept(w: Width, n: int)
    requires -SignedLimit(w) <= n < SignedLimit(w)
    ensures SignedMeaning(w, TwosComplement(n)) == n
  {
  }

  lemma SignedEncoding(w: Width, v: Datum)
    requires Shaped(Varint(w), v)
    ensures v.Num? && -SignedLimit(w) <= v.n < SignedLimit(w)
    ensures EncodeValue(Varint(w), v) == Coding.Varint(TwosComplement(v.n))
  {
  }

  lemma SignedRoundTrip(w: Width, v: Datum, rest: Bytes, old_: Datum)
    requires Shaped(Varint(w), v)
    ensures DecodeValue(Varint(w), EncodeValue(Varint(w), v) + rest, old_) == Some((v, rest))
  {
    SignedEncoding(w, v);
    SignedKept(w, v.n);
    hide *;
    SignedDecode(w, TwosComplement(v.n), rest, old_);
  }

  lemma FixedRoundTrip(lt: LType, v: Datum, rest: Bytes, old_: Datum)
    requires (lt.Fixed32? || lt.Fixed64?) && Shaped(lt, v)
    ensures DecodeValue(lt, EncodeValue(lt, v) + rest, old_) == Some((v, rest))
  {
    if lt.Fixed32? {
      Fixed32RoundTrip(v.n);
      assert (Coding.Fixed32(v.n) + rest)[..4] == Coding.Fixed32(v.n);
      assert (Coding.Fixed32(v.n) + rest)[4..] == rest;
      hide DecodeFixed32, Coding.Fixed32;
    } else {
      Fixed64RoundTrip(v.n);
      assert (Coding.Fixed64(v.n) + rest)[..8] == Coding.Fixed64(v.n);
      assert (Coding.Fixed64(v.n) + rest)[8..] == rest;
      hide DecodeFixed64, Coding.Fixed64;
    }
  }

  lemma ScalarRoundTrip(lt: LType, v: Datum, rest: Bytes, old_: Datum)
    requires Packable(lt) && Shaped(lt, v)
    ensures DecodeValue(lt, EncodeValue(lt, v) + rest, old_) == Some((v, rest))
  {
    if lt.Bool? {
      BoolRoundTrip(v, rest, old_);
    } else if lt.Fixed32? || lt.Fixed64? {
      FixedRoundTrip(lt, v, rest, old_);
    } else if lt.Varint? {
      SignedRoundTrip(lt.width, v, rest, old_);
    } else {
      UnsignedRoundTrip(lt, v, rest, old_);
    }
  }

  lemma StringRoundTrip(lt: LType, v: Datum, rest: Bytes, old_: Datum)
    requires (lt.BytesArray? || lt.CString? || lt.FixedBytes?) && Shaped(lt, v) && Storable(lt, v)
    ensures DecodeValue(lt, EncodeValue(lt, v) + rest, old_) == Some((v, rest))
  {
    StringDecodes(v.bytes, rest);
    hide TakeString, Delimited;
    if lt.FixedBytes? && lt.dataSize == 0 {
      assert v.bytes == seq(0, _ => 0);
    }
  }

  lemma {:induction false} ValueRoundTrip(lt: LType, v: Datum, rest: Bytes, old_: Datum)
    requires Shaped(lt, v) && Storable(lt, v)
    requires lt.Submessage? ==> WellFormed(lt.fields) && old_ == Msg(Defaults(lt.fields)) && Shaped(lt, old_)
    ensures DecodeValue(lt, EncodeValue(lt, v) + rest, old_) == Some((CanonValue(lt, v), rest))
    decreases lt, 0
  {
    if Packable(lt) {
      ScalarRoundTrip(lt, v, rest, old_);
    } else if !lt.Submessage? {
      StringRoundTrip(lt, v, rest, old_);
    } else {
      StringDecodes(EncodeFields(lt.fields, v.slots), rest);
      MessageRoundTrip(lt.fields, v.slots);
    }
  }

  lemma SkipsVarint(n: nat, rest: Bytes)
    ensures SkipVarint(Coding.Varint(n) + rest) == Some(rest)
  {
    var b := Coding.Varint(n) + rest;
    if n < 128 {
      assert b[1..] == rest;
    } else {
      assert b[1..] == Coding.Varint(n / 128) + rest;
      SkipsVarint(n / 128, rest);
    }
  }

  lemma SkipsValue(lt: LType, v: Datum, rest: Bytes)
    requires Shaped(lt, v) && Storable(lt, v)
    ensures SkipField(WireType(lt), EncodeValue(lt, v) + rest) == Some(rest)
  {
    match lt
    case Bool => SkipsVarint(v.n, rest);
    case Varint(w) => SkipsVarint(if v.n < 0 then v.n + LONG_LIMIT else v.n, rest);
    case UVarint(_) => SkipsVarint(v.n, rest);
    case SVarint(_) => SkipsVarint(ZigZag(v.n), rest);
    case Fixed32 => assert (Coding.Fixed32(v.n) + rest)[4..] == rest;
    case Fixed64 => assert (Coding.Fixed64(v.n) + rest)[8..] == rest;
    case BytesArray(_) => StringDecodes(v.bytes, rest);
    case CString(_) => StringDecodes(v.bytes, rest);
    case FixedBytes(size) => StringDecodes(v.bytes, rest);
    case Submessage(fields) => StringDecodes(EncodeFields(fields, v.slots), rest);
  }

  // ---- One record of a message

  lemma FindsPlace(fields: seq<Field>, i: nat)
    requires WellFormed(fields) && i < |fields|
    ensures Find(fields, fields[i].tag) == Some(i)
  {
  }

  lemma KnownRecord(d: seq<Field>, slots: seq<Slot>, seen: set<nat>, j: nat, wireType: nat, payload: Bytes,
                    s: Slot, rest: Bytes)
    requires WellFormed(d) && ShapedAll(d, slots) && j < |d| && wireType < 8
    requires ShapedSlot(d[j], slots[j]) && WellFormedField(d[j])
    requires DecodeSlot(d[j], wireType, payload, slots[j]) == Some((s, rest))
    ensures ShapedAll(d, Stored(d, slots, j, s))
    ensures DecodeFields(d, slots, seen, TagBytes(d[j].tag, wireType) + payload)
         == DecodeFields(d, Stored(d, slots, j, s), Mark(d, j, seen), rest)
  {
    TagDecodes(d[j].tag, wireType, payload);
    FindsPlace(d, j);
    StoredShaped(d, slots, j, s);
    hide DecodeSlot, Stored, Mark, TagBytes, DecodeTag, Find, WellFormedField, ShapedSlot;
  }

  lemma UnknownRecord(d: seq<Field>, slots: seq<Slot>, seen: set<nat>, tag: nat, wireType: nat, payload: Bytes, rest: Bytes)
    requires WellFormed(d) && ShapedAll(d, slots) && 0 < tag < 0x2000_0000 && wireType < 8
    requires Find(d, tag).None? && SkipField(wireType, payload) == Some(rest)
    ensures DecodeFields(d, slots, seen, TagBytes(tag, wireType) + payload) == DecodeFields(d, slots, seen, rest)
  {
    TagDecodes(tag, wireType, payload);
    hide DecodeSlot, Stored, Mark, TagBytes, DecodeTag, Find, SkipField;
  }

  // ---- One field of a message

  lemma {:induction false} PackedRoundTrip(lt: LType, items: seq<Datum>, done: seq<Datum>, size: nat)
    requires Packable(lt) && ShapedItems(lt, items) && ShapedItems(lt, done) && |done| + |items| <= size
    ensures DecodePacked(lt, EncodePacked(lt, items), done, size) == Some(done + items)
    decreases |items|
  {
    hide EncodeValue, DecodeValue, Shaped;
    if items == [] {
      assert done + items == done;
    } else {
      ScalarRoundTrip(lt, items[0], EncodePacked(lt, items[1..]), Fresh(lt));
      ItemShaped(lt, done, items[0]);
      PackedRoundTrip(lt, items[1..], done + [items[0]], size);
      assert done + [items[0]] + items[1..] == done + items;
    }
  }

  lemma StoredAlone(d: seq<Field>, slots: seq<Slot>, j: nat, s: Slot)
    requires |slots| == |d| && j < |d|
    requires d[j].rule.OneOf? ==> forall i | 0 <= i < |d| && i != j && d[i].rule == d[j].rule :: slots[i] == Choice(None)
    ensures Stored(d, slots, j, s) == slots[j := s]
  {
  }

  // Where a field's encoding may be decoded: its part holds the default, and no other member of
  // its union is chosen.
  ghost predicate Ready(d: seq<Field>, slots: seq<Slot>, j: nat, s: Slot) {
    && WellFormed(d) && ShapedAll(d, slots) && j < |d| && WellFormedField(d[j])
    && ShapedSlot(d[j], slots[j]) && ShapedSlot(d[j], s) && StorableSlot(d[j], s)
    && slots[j] == DefaultSlot(d[j])
    && (d[j].rule.OneOf? && IsChosen(s) ==>
          forall i | 0 <= i < |d| && i != j && d[i].rule == d[j].rule :: slots[i] == Choice(None))
  }

  lemma {:induction false} SingularRoundTrip(d: seq<Field>, slots: seq<Slot>, seen: set<nat>, j: nat, s: Slot, v: Datum,
                                             tail: Bytes)
    requires Ready(d, slots, j, s) && !d[j].rule.Repeated?
    requires Shaped(d[j].ltype, v) && Storable(d[j].ltype, v)
    requires d[j].rule.Required? ==> s == One(v)
    requires d[j].rule.Optional? ==> s == Maybe(true, v)
    requires d[j].rule.OneOf? ==> s == Choice(Some(v))
    ensures ShapedAll(d, slots[j := CanonSlot(d[j], s)])
    ensures DecodeFields(d, slots, seen, EncodeSlot(d[j], s) + tail)
         == DecodeFields(d, slots[j := CanonSlot(d[j], s)], Mark(d, j, seen), tail)
    decreases d[j], 0
  {
    var f := d[j];
    var payload := EncodeValue(f.ltype, v) + tail;
    InitialShaped(f);
    FreshShaped(f);
    ValueRoundTrip(f.ltype, v, tail, Initial(f));
    ValueRoundTrip(f.ltype, v, tail, Fresh(f.ltype));
    StoredAlone(d, slots, j, CanonSlot(f, s));
    Regroup(TagBytes(f.tag, WireType(f.ltype)), EncodeValue(f.ltype, v), tail);
    hide DecodeValue, EncodeValue, CanonValue, TagBytes, ShapedAll, WellFormed, Mark, Stored, Storable;
    assert EncodeSlot(f, s) + tail == TagBytes(f.tag, WireType(f.ltype)) + payload;
    KnownRecord(d, slots, seen, j, WireType(f.ltype), payload, CanonSlot(f, s), tail);
  }

  // The items of an unpacked array, one record each.
  lemma {:induction false} ItemRoundTrip(d: seq<Field>, slots: seq<Slot>, seen: set<nat>, j: nat, v: Datum, rest: Bytes)
    requires WellFormed(d) && ShapedAll(d, slots) && j < |d| && WellFormedField(d[j]) && ShapedSlot(d[j], slots[j])
    requires d[j].rule.Repeated? && !Packable(d[j].ltype) && |slots[j].items| < d[j].rule.arraySize
    requires Shaped(d[j].ltype, v) && Storable(d[j].ltype, v)
    ensures var s := Many(slots[j].items + [CanonValue(d[j].ltype, v)]);
            && ShapedAll(d, slots[j := s])
            && DecodeFields(d, slots, seen, EncodeTagged(d[j], v) + rest) == DecodeFields(d, slots[j := s], seen, rest)
    decreases d[j], 0
  {
    var f := d[j];
    var payload := EncodeValue(f.ltype, v) + rest;
    var s := Many(slots[j].items + [CanonValue(f.ltype, v)]);
    FreshShaped(f);
    ValueRoundTrip(f.ltype, v, rest, Fresh(f.ltype));
    assert EncodeTagged(f, v) + rest == TagBytes(f.tag, WireType(f.ltype)) + payload;
    StoredAlone(d, slots, j, s);
    hide DecodeValue, EncodeValue, EncodeTagged, CanonValue, TagBytes, ShapedAll, WellFormed, Stored, Storable;
    KnownRecord(d, slots, seen, j, WireType(f.ltype), payload, s, rest);
  }

  lemma CanonTail(lt: LType, items: seq<Datum>, done: seq<Datum>)
    requires ShapedItems(lt, items) && items != []
    ensures ShapedItems(lt, items[1..])
    ensures done + [CanonValue(lt, items[0])] + CanonItems(lt, items[1..]) == done + CanonItems(lt, items)
  {
    hide CanonValue;
  }

  lemma {:induction false} ItemsRoundTrip(d: seq<Field>, slots: seq<Slot>, seen: set<nat>, j: nat, items: seq<Datum>,
                                          done: seq<Datum>, tail: Bytes)
    requires WellFormed(d) && ShapedAll(d, slots) && j < |d| && WellFormedField(d[j]) && ShapedSlot(d[j], slots[j])
    requires d[j].rule.Repeated? && !Packable(d[j].ltype) && |done| + |items| <= d[j].rule.arraySize
    requires ShapedItems(d[j].ltype, items) && StorableItems(d[j].ltype, items)
    requires slots[j] == Many(done)
    ensures ShapedAll(d, slots[j := Many(done + CanonItems(d[j].ltype, items))])
    ensures DecodeFields(d, slots, seen, EncodeItems(d[j], items) + tail)
         == DecodeFields(d, slots[j := Many(done + CanonItems(d[j].ltype, items))], seen, tail)
    decreases d[j], 1, |items|
  {
    var f := d[j];
    if items == [] {
      assert done + CanonItems(f.ltype, items) == done && slots[j := Many(done)] == slots;
      assert EncodeItems(f, items) + tail == tail;
    } else {
      var rest := EncodeItems(f, items[1..]) + tail;
      var more := done + [CanonValue(f.ltype, items[0])];
      var next := slots[j := Many(more)];
      Regroup(EncodeTagged(f, items[0]), EncodeItems(f, items[1..]), tail);
      ItemRoundTrip(d, slots, seen, j, items[0], rest);
      assert ShapedSlot(d[j], next[j]);
      CanonTail(f.ltype, items, done);
      hide EncodeTagged, EncodeItems, CanonValue, ShapedAll, WellFormed, ShapedSlot, DecodeFields, CanonItems, WellFormedField;
      ItemsRoundTrip(d, next, seen, j, items[1..], more, tail);
      assert next[j := Many(done + CanonItems(f.ltype, items))] == slots[j := Many(done + CanonItems(f.ltype, items))];
    }
  }

  lemma {:induction false} ArrayRoundTrip(d: seq<Field>, slots: seq<Slot>, seen: set<nat>, j: nat, s: Slot, tail: Bytes)
    requires Ready(d, slots, j, s) && d[j].rule.Repeated?
    ensures ShapedAll(d, slots[j := CanonSlot(d[j], s)])
    ensures DecodeFields(d, slots, seen, EncodeSlot(d[j], s) + tail)
         == DecodeFields(d, slots[j := CanonSlot(d[j], s)], seen, tail)
    decreases d[j], 2
  {
    var f := d[j];
    var items := s.items;
    if items == [] {
      assert CanonItems(f.ltype, items) == [] && slots[j := Many([])] == slots;
      assert EncodeSlot(f, s) + tail == tail;
    } else if Packable(f.ltype) {
      var data := EncodePacked(f.ltype, items);
      var payload := Delimited(data) + tail;
      assert EncodeSlot(f, s) + tail == TagBytes(f.tag, WT_STRING) + payload;
      StringDecodes(data, tail);
      PackedRoundTrip(f.ltype, items, [], f.rule.arraySize);
      assert [] + items == items && CanonItems(f.ltype, items) == items;
      StoredAlone(d, slots, j, s);
      hide DecodePacked, EncodePacked, CanonValue, TagBytes, ShapedAll, WellFormed, Stored, Storable, TakeString, Delimited;
      KnownRecord(d, slots, seen, j, WT_STRING, payload, s, tail);
    } else {
      assert [] + CanonItems(f.ltype, items) == CanonItems(f.ltype, items);
      ItemsRoundTrip(d, slots, seen, j, items, [], tail);
    }
  }

  lemma {:induction false} SlotRoundTrip(d: seq<Field>, slots: seq<Slot>, seen: set<nat>, j: nat, s: Slot, tail: Bytes)
      returns (now: set<nat>)
    requires Ready(d, slots, j, s)
    ensures now == seen || now == Mark(d, j, seen)
    ensures d[j].rule.Required? ==> now == Mark(d, j, seen)
    ensures ShapedAll(d, slots[j := CanonSlot(d[j], s)])
    ensures DecodeFields(d, slots, seen, EncodeSlot(d[j], s) + tail)
         == DecodeFields(d, slots[j := CanonSlot(d[j], s)], now, tail)
    decreases d[j], 3
  {
    var f := d[j];
    if f.rule.Repeated? {
      ArrayRoundTrip(d, slots, seen, j, s, tail);
      return seen;
    }
    if (f.rule.Optional? && !s.has) || (f.rule.OneOf? && s.chosen.None?) {
      assert slots[j := CanonSlot(f, s)] == slots;
      assert EncodeSlot(f, s) + tail == tail;
      return seen;
    }
    var v := if f.rule.OneOf? then s.chosen.value else s.value;
    SingularRoundTrip(d, slots, seen, j, s, v, tail);
    return Mark(d, j, seen);
  }

  // ---- A field the descriptor does not know

  lemma {:induction false} SkipsItems(d: seq<Field>, slots: seq<Slot>, seen: set<nat>, f: Field, items: seq<Datum>, tail: Bytes)
    requires WellFormed(d) && ShapedAll(d, slots) && 0 < f.tag < 0x2000_0000 && Find(d, f.tag).None?
    requires ShapedItems(f.ltype, items) && StorableItems(f.ltype, items)
    ensures DecodeFields(d, slots, seen, EncodeItems(f, items) + tail) == DecodeFields(d, slots, seen, tail)
    decreases |items|
  {
    if items == [] {
      assert EncodeItems(f, items) + tail == tail;
    } else {
      var rest := EncodeItems(f, items[1..]) + tail;
      var payload := EncodeValue(f.ltype, items[0]) + rest;
      SkipsValue(f.ltype, items[0], rest);
      Regroup(EncodeTagged(f, items[0]), EncodeItems(f, items[1..]), tail);
      Regroup(TagBytes(f.tag, WireType(f.ltype)), EncodeValue(f.ltype, items[0]), rest);
      assert EncodeItems(f, items) + tail == TagBytes(f.tag, WireType(f.ltype)) + payload;
      hide EncodeItems, EncodeTagged, EncodeValue, TagBytes, SkipField, DecodeFields, WellFormed, ShapedAll, Find, Storable, Shaped;
      UnknownRecord(d, slots, seen, f.tag, WireType(f.ltype), payload, rest);
      SkipsItems(d, slots, seen, f, items[1..], tail);
    }
  }

  lemma SkipsPacked(d: seq<Field>, slots: seq<Slot>, seen: set<nat>, f: Field, data: Bytes, tail: Bytes)
    requires WellFormed(d) && ShapedAll(d, slots) && 0 < f.tag < 0x2000_0000 && Find(d, f.tag).None?
    requires |data| < WORD_LIMIT
    ensures DecodeFields(d, slots, seen, TagBytes(f.tag, WT_STRING) + Delimited(data) + tail)
         == DecodeFields(d, slots, seen, tail)
  {
    var payload := Delimited(data) + tail;
    StringDecodes(data, tail);
    assert TagBytes(f.tag, WT_STRING) + Delimited(data) + tail == TagBytes(f.tag, WT_STRING) + payload;
    hide TagBytes, TakeString, DecodeFields, WellFormed, ShapedAll, Find;
    UnknownRecord(d, slots, seen, f.tag, WT_STRING, payload, tail);
  }

  lemma SkipsSlot(d: seq<Field>, slots: seq<Slot>, seen: set<nat>, f: Field, s: Slot, tail: Bytes)
    requires WellFormed(d) && ShapedAll(d, slots) && 0 < f.tag < 0x2000_0000 && Find(d, f.tag).None?
    requires ShapedSlot(f, s) && StorableSlot(f, s)
    ensures DecodeFields(d, slots, seen, EncodeSlot(f, s) + tail) == DecodeFields(d, slots, seen, tail)
  {
    hide DecodeFields, WellFormed, ShapedAll, Find, EncodeItems, EncodePacked, EncodeTagged, TagBytes, Delimited;
    assert [] + tail == tail;
    if f.rule.Repeated? {
      if s.items == [] {
      } else if Packable(f.ltype) {
        SkipsPacked(d, slots, seen, f, EncodePacked(f.ltype, s.items), tail);
      } else {
        SkipsItems(d, slots, seen, f, s.items, tail);
      }
    } else if (f.rule.OneOf? && s.chosen.Some?) || f.rule.Required? || (f.rule.Optional? && s.has) {
      SkipsOne(d, slots, seen, f, if f.rule.OneOf? then s.chosen.value else s.value, tail);
    }
  }

  lemma SkipsOne(d: seq<Field>, slots: seq<Slot>, seen: set<nat>, f: Field, v: Datum, tail: Bytes)
    requires WellFormed(d) && ShapedAll(d, slots) && 0 < f.tag < 0x2000_0000 && Find(d, f.tag).None?
    requires Shaped(f.ltype, v) && Storable(f.ltype, v)
    ensures DecodeFields(d, slots, seen, EncodeTagged(f, v) + tail) == DecodeFields(d, slots, seen, tail)
  {
    var payload := EncodeValue(f.ltype, v) + tail;
    SkipsValue(f.ltype, v, tail);
    assert EncodeTagged(f, v) + tail == TagBytes(f.tag, WireType(f.ltype)) + payload;
    hide EncodeValue, TagBytes, SkipField, DecodeFields, WellFormed, ShapedAll, Find;
    UnknownRecord(d, slots, seen, f.tag, WireType(f.ltype), payload, tail);
  }

  // ---- Whole messages

  // A field that both descriptors have is the same in both; each may have fields of its own.
  ghost predicate Agree(d: seq<Field>, e: seq<Field>) {
    forall j, i | 0 <= j < |d| && 0 <= i < |e| && d[j].tag == e[i].tag :: d[j] == e[i]
  }

  // Where the writer has a field of the descriptor; its end if it has not.
  ghost function Place(d: seq<Field>, e: seq<Field>, j: nat): (i: nat)
    requires Agree(d, e) && j < |d|
    ensures i <= |e|
    ensures i < |e| ==> e[i] == d[j]
    ensures i == |e| <==> forall k | 0 <= k < |e| :: e[k].tag != d[j].tag
  {
    if Find(e, d[j].tag).Some? then Find(e, d[j].tag).value else |e|
  }

  // The structure once the first k of the writer's fields are decoded.
  ghost function Expected(d: seq<Field>, e: seq<Field>, slots: seq<Slot>, k: nat): (r: seq<Slot>)
    requires Agree(d, e) && ShapedAll(e, slots) && k <= |e|
    ensures |r| == |d|
    ensures forall j | 0 <= j < |d| ::
              r[j] == if Place(d, e, j) < k then CanonSlot(e[Place(d, e, j)], slots[Place(d, e, j)]) else DefaultSlot(d[j])
  {
    seq(|d|, j requires 0 <= j < |d| =>
      var i := Place(d, e, j);
      if i < k then CanonSlot(e[i], slots[i]) else DefaultSlot(d[j]))
  }

  // Of the required fields kept track of, those among the writer's first k were seen.
  ghost predicate SeenSoFar(d: seq<Field>, e: seq<Field>, k: nat, seen: set<nat>)
    requires Agree(d, e)
  {
    forall j | 0 <= j < |d| && d[j].rule.Required? ::
      RequiredBefore(d, j) in seen <==> Place(d, e, j) < k && RequiredBefore(d, j) < PB_MAX_REQUIRED_FIELDS
  }

  // Whether the writer has each of the first 64 required fields
  ghost predicate HasRequired(d: seq<Field>, e: seq<Field>) {
    forall j | 0 <= j < |d| && d[j].rule.Required? && |set i | 0 <= i < j && d[i].rule.Required?| < 64 ::
      exists k :: 0 <= k < |e| && e[k].tag == d[j].tag
  }

  lemma RequiredIsFound(d: seq<Field>, e: seq<Field>, seen: set<nat>, j: nat)
    requires Agree(d, e) && SeenSoFar(d, e, |e|, seen) && j < |d| && d[j].rule.Required? && RequiredBefore(d, j) < 64
    ensures RequiredBefore(d, j) in seen <==> exists k :: 0 <= k < |e| && e[k].tag == d[j].tag
  {
  }

  // At the end of the message the decoder succeeds exactly if the writer has them.
  lemma FinishedIff(d: seq<Field>, e: seq<Field>, seen: set<nat>, slots: seq<Slot>)
    requires Agree(d, e) && SeenSoFar(d, e, |e|, seen)
    ensures forall rest :: Finished(d, slots, seen, rest) == if HasRequired(d, e) then Some((slots, rest)) else None
  {
    forall j | 0 <= j < |d| ensures RequiredBefore(d, j) == |set i | 0 <= i < j && d[i].rule.Required?| {
      RequiredBeforeCounts(d, j);
    }
    if HasRequired(d, e) {
      forall q | 0 <= q < RequiredCount(d)
        ensures q in seen
      {
        var j := RequiredIndex(d, |d|, q);
        RequiredIsFound(d, e, seen, j);
      }
    } else {
      var j :| 0 <= j < |d| && d[j].rule.Required? && |set i | 0 <= i < j && d[i].rule.Required?| < 64
               && !exists k :: 0 <= k < |e| && e[k].tag == d[j].tag;
      RequiredIsFound(d, e, seen, j);
      RequiredGrows(d, j, |d|);
    }
  }

  lemma PlaceIs(d: seq<Field>, e: seq<Field>, k: nat, j: nat)
    requires WellFormed(d) && WellFormed(e) && Agree(d, e) && k < |e| && j < |d|
    ensures Place(d, e, j) == k <==> Find(d, e[k].tag) == Some(j)
  {
    FindsPlace(e, k);
    FindsPlace(d, j);
  }

  lemma NextPlace(d: seq<Field>, e: seq<Field>, slots: seq<Slot>, k: nat)
    requires WellFormed(d) && WellFormed(e) && Agree(d, e) && ShapedAll(e, slots) && k < |e|
    ensures ShapedSlot(e[k], slots[k])
    ensures var p := Find(d, e[k].tag);
            if p.None? then Expected(d, e, slots, k + 1) == Expected(d, e, slots, k)
            else
              && d[p.value] == e[k] && Place(d, e, p.value) == k
              && Expected(d, e, slots, k + 1) == Expected(d, e, slots, k)[p.value := CanonSlot(e[k], slots[k])]
  {
    assert ShapedSlot(e[k], slots[k]);
    hide CanonSlot, DefaultSlot, ShapedSlot, WellFormed, Agree, Find, Place, Expected;
    var p := Find(d, e[k].tag);
    forall j | 0 <= j < |d|
      ensures Place(d, e, j) == k <==> p == Some(j)
    {
      PlaceIs(d, e, k, j);
    }
    var (now, next) := (Expected(d, e, slots, k), Expected(d, e, slots, k + 1));
    assert forall j | 0 <= j < |d| :: Place(d, e, j) != k ==> next[j] == now[j];
    if p.Some? {
      assert next == now[p.value := CanonSlot(e[k], slots[k])];
    } else {
      assert next == now;
    }
  }

  lemma UnionsClear(d: seq<Field>, e: seq<Field>, slots: seq<Slot>, k: nat, j: nat)
    requires Agree(d, e) && ShapedAll(e, slots) && OneChosen(e, slots) && WellFormed(d) && WellFormed(e)
    requires k < |e| && j < |d| && d[j] == e[k] && d[j].rule.OneOf? && Place(d, e, j) == k
    requires IsChosen(slots[k])
    ensures forall i | 0 <= i < |d| && i != j && d[i].rule == d[j].rule :: Expected(d, e, slots, k)[i] == Choice(None)
  {
    forall i | 0 <= i < |d| && i != j && d[i].rule == d[j].rule
      ensures Expected(d, e, slots, k)[i] == Choice(None)
    {
      var p := Place(d, e, i);
      if p < k {
        assert ShapedSlot(e[p], slots[p]);
        assert !(IsChosen(slots[k]) && IsChosen(slots[p]));
      }
    }
  }

  lemma RequiredApart(d: seq<Field>, i: nat, j: nat)
    requires i < |d| && j < |d| && i != j && d[i].rule.Required? && d[j].rule.Required?
    ensures RequiredBefore(d, i) != RequiredBefore(d, j)
  {
    RequiredGrows(d, if i < j then i else j, if i < j then j else i);
  }

  lemma OthersElsewhere(d: seq<Field>, e: seq<Field>, k: nat, j: nat)
    requires Agree(d, e) && WellFormed(d) && j < |d| && k < |e| && Place(d, e, j) == k
    ensures forall i | 0 <= i < |d| && i != j :: Place(d, e, i) != k
  {
    forall i | 0 <= i < |d| && i != j ensures Place(d, e, i) != k {
      var tags := (d[i].tag, d[j].tag);
    }
  }

  lemma MarksSeen(d: seq<Field>, e: seq<Field>, k: nat, j: nat, seen: set<nat>)
    requires Agree(d, e) && SeenSoFar(d, e, k, seen) && j < |d| && k < |e| && Place(d, e, j) == k && WellFormed(d)
    ensures SeenSoFar(d, e, k + 1, Mark(d, j, seen))
    ensures !d[j].rule.Required? ==> SeenSoFar(d, e, k + 1, seen)
  {
    OthersElsewhere(d, e, k, j);
    hide WellFormed, Agree, Place, RequiredBefore;
    forall i | 0 <= i < |d| && i != j && d[i].rule.Required? && d[j].rule.Required?
      ensures RequiredBefore(d, i) != RequiredBefore(d, j)
    {
      RequiredApart(d, i, j);
    }
  }

  lemma {:induction false} FieldStep(d: seq<Field>, e: seq<Field>, slots: seq<Slot>, k: nat, seen: set<nat>, tail: Bytes)
      returns (now: set<nat>)
    requires WellFormed(d) && WellFormed(e) && Agree(d, e) && ShapedAll(e, slots) && StorableAll(e, slots) && k < |e|
    requires ShapedAll(d, Expected(d, e, slots, k)) && SeenSoFar(d, e, k, seen) && ShapedSlot(e[k], slots[k])
    ensures ShapedAll(d, Expected(d, e, slots, k + 1)) && SeenSoFar(d, e, k + 1, now)
    ensures DecodeFields(d, Expected(d, e, slots, k), seen, EncodeSlot(e[k], slots[k]) + tail)
         == DecodeFields(d, Expected(d, e, slots, k + 1), now, tail)
    decreases e, 0
  {
    var cur := Expected(d, e, slots, k);
    var p := Find(d, e[k].tag);
    NextPlace(d, e, slots, k);
    assert StorableSlot(e[k], slots[k]) && 0 < e[k].tag < 0x2000_0000;
    if p.None? {
      SkipsSlot(d, cur, seen, e[k], slots[k], tail);
      NothingSeen(d, e, k, seen);
      return seen;
    }
    var j := p.value;
    if d[j].rule.OneOf? && IsChosen(slots[k]) {
      UnionsClear(d, e, slots, k, j);
    }
    assert ShapedSlot(d[j], cur[j]) && WellFormedField(d[j]);
    assert Ready(d, cur, j, slots[k]);
    hide Ready, EncodeSlot, DecodeFields, CanonSlot, ShapedAll, WellFormed, StorableAll, WellFormedField;
    now := SlotRoundTrip(d, cur, seen, j, slots[k], tail);
    MarksSeen(d, e, k, j, seen);
  }

  lemma NothingSeen(d: seq<Field>, e: seq<Field>, k: nat, seen: set<nat>)
    requires Agree(d, e) && SeenSoFar(d, e, k, seen) && k < |e| && Find(d, e[k].tag).None?
    ensures SeenSoFar(d, e, k + 1, seen)
  {
    forall i | 0 <= i < |d|
      ensures Place(d, e, i) != k
    {
    }
  }

  lemma {:induction false} RestRoundTrip(d: seq<Field>, e: seq<Field>, slots: seq<Slot>, k: nat, seen: set<nat>, tail: Bytes)
      returns (now: set<nat>)
    requires WellFormed(d) && WellFormed(e) && Agree(d, e) && ShapedAll(e, slots) && StorableAll(e, slots) && k <= |e|
    requires ShapedAll(d, Expected(d, e, slots, k)) && SeenSoFar(d, e, k, seen) && ShapedAll(e[k..], slots[k..])
    ensures ShapedAll(d, Expected(d, e, slots, |e|)) && SeenSoFar(d, e, |e|, now)
    ensures DecodeFields(d, Expected(d, e, slots, k), seen, EncodeFields(e[k..], slots[k..]) + tail)
         == DecodeFields(d, Expected(d, e, slots, |e|), now, tail)
    decreases e, 1, |e| - k
  {
    if k == |e| {
      assert EncodeFields(e[k..], slots[k..]) + tail == tail;
      return seen;
    } else {
      assert e[k..][0] == e[k] && slots[k..][0] == slots[k];
      assert e[k..][1..] == e[k + 1..] && slots[k..][1..] == slots[k + 1..];
      RestShaped(e[k..], slots[k..]);
      var rest := EncodeFields(e[k + 1..], slots[k + 1..]);
      Regroup(EncodeSlot(e[k], slots[k]), rest, tail);
      hide DecodeFields, EncodeFields, EncodeSlot, ShapedAll, WellFormed, Agree, StorableAll, Expected;
      now := FieldStep(d, e, slots, k, seen, rest + tail);
      now := RestRoundTrip(d, e, slots, k + 1, now, tail);
    }
  }

  lemma RestShaped(e: seq<Field>, slots: seq<Slot>)
    requires ShapedAll(e, slots) && e != []
    ensures ShapedSlot(e[0], slots[0]) && ShapedAll(e[1..], slots[1..])
  {
    hide ShapedSlot;
  }

  // Whatever follows the encoded message on the stream is read as if the message's values had
  // been there from the start and its required fields had been seen.
  lemma {:induction false} PrefixDecodes(d: seq<Field>, e: seq<Field>, slots: seq<Slot>, tail: Bytes)
      returns (seen: set<nat>)
    requires WellFormed(d) && WellFormed(e) && Agree(d, e) && ShapedAll(e, slots) && StorableAll(e, slots)
    ensures ShapedAll(d, Expected(d, e, slots, |e|)) && SeenSoFar(d, e, |e|, seen)
    ensures Decode(d, EncodeFields(e, slots) + tail) == DecodeFields(d, Expected(d, e, slots, |e|), seen, tail)
    decreases e, 2
  {
    DefaultsShaped(d);
    assert Expected(d, e, slots, 0) == Defaults(d);
    assert e[0..] == e && slots[0..] == slots;
    seen := RestRoundTrip(d, e, slots, 0, {}, tail);
  }

  // Decoding through a descriptor that shares some fields with the writer's, in any order. It
  // succeeds exactly if the writer has each of the first 64 required fields; then the shared
  // fields have the writer's values, the others their defaults, and the message is read to its end.
  lemma {:induction false} PartialDecode(d: seq<Field>, e: seq<Field>, slots: seq<Slot>)
    requires WellFormed(d) && WellFormed(e) && Agree(d, e) && ShapedAll(e, slots) && StorableAll(e, slots)
    ensures var r := Decode(d, EncodeFields(e, slots));
            && (r.Some? <==> HasRequired(d, e))
            && (r.Some? ==>
                  && |r.value.0| == |d| && r.value.1 == []
                  && (forall j, i | 0 <= j < |d| && 0 <= i < |e| && d[j].tag == e[i].tag ::
                        ShapedSlot(e[i], slots[i]) && r.value.0[j] == CanonSlot(d[j], slots[i]))
                  && (forall j | 0 <= j < |d| && (forall i | 0 <= i < |e| :: d[j].tag != e[i].tag) ::
                        r.value.0[j] == DefaultSlot(d[j])))
    decreases e, 3
  {
    var seen := PrefixDecodes(d, e, slots, []);
    var all := Expected(d, e, slots, |e|);
    FinishedIff(d, e, seen, all);
    assert EncodeFields(e, slots) + [] == EncodeFields(e, slots);
    EndsAtOnce(d, all, seen);
    forall j, i | 0 <= j < |d| && 0 <= i < |e| && d[j].tag == e[i].tag
      ensures ShapedSlot(e[i], slots[i]) && all[j] == CanonSlot(d[j], slots[i])
    {
      FindsPlace(e, i);
    }
  }

  lemma EndsAtOnce(d: seq<Field>, slots: seq<Slot>, seen: set<nat>)
    requires WellFormed(d) && ShapedAll(d, slots)
    ensures DecodeFields(d, slots, seen, []) == Finished(d, slots, seen, [])
  {
  }

  ghost predicate Fits(fields: seq<Field>, slots: seq<Slot>)
  {
    WellFormed(fields) && ShapedAll(fields, slots) && StorableAll(fields, slots)
  }

  lemma OwnFields(fields: seq<Field>)
    requires WellFormed(fields)
    ensures Agree(fields, fields) && HasRequired(fields, fields)
    ensures forall j | 0 <= j < |fields| :: Place(fields, fields, j) == j
  {
    forall j | 0 <= j < |fields|
      ensures Find(fields, fields[j].tag) == Some(j)
    {
      FindsPlace(fields, j);
    }
  }

  // Decode of encode gives the structure back, with the default behind each absent optional,
  // and consumes all bytes.
  lemma {:induction false} MessageRoundTrip(fields: seq<Field>, slots: seq<Slot>)
    requires Fits(fields, slots)
    ensures Decode(fields, EncodeFields(fields, slots)) == Some((CanonSlots(fields, slots), []))
    decreases fields, 4
  {
    OwnFields(fields);
    PartialDecode(fields, fields, slots);
    hide CanonSlot, EncodeFields, Decode, ShapedSlot, Find, HasRequired, Agree;
    assert Decode(fields, EncodeFields(fields, slots)).value.0 == CanonSlots(fields, slots);
  }

  // A zero byte behind the message ends it, whatever follows.
  lemma NullTerminated(fields: seq<Field>, slots: seq<Slot>, rest: Bytes)
    requires Fits(fields, slots)
    ensures Decode(fields, EncodeFields(fields, slots) + ([0] + rest)) == Some((CanonSlots(fields, slots), rest))
  {
    OwnFields(fields);
    var seen := PrefixDecodes(fields, fields, slots, [0] + rest);
    FinishedIff(fields, fields, seen, Expected(fields, fields, slots, |fields|));
    assert ([0] + rest)[1..] == rest;
    assert DecodeTag([0] + rest) == Eof(rest);
    hide CanonSlot, EncodeFields, Decode, ShapedSlot, Find;
    assert Expected(fields, fields, slots, |fields|) == CanonSlots(fields, slots);
  }
}
