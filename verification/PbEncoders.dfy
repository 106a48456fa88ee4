/** The nanopb encoder on output streams, writing and sizing. */
module PbEncoders {
  import opened InternalKeys
  import opened Coding
  import opened PbSchemas

  datatype Status = Ok | StreamFull | ArraySizeExceeded | BytesSizeExceeded | SubmessageSizeChanged

  // A stream that writes keeps to its limit; one that only sizes has none.
  class OStream {
    const writing: bool
    const maxSize: nat
    var bytesWritten: nat
    var out: Bytes

    ghost predicate Valid()
      reads this
    {
      writing ==> bytesWritten <= maxSize
    }

    constructor Sizing()
      ensures Valid() && !writing && bytesWritten == 0 && out == []
    {
      writing, maxSize, bytesWritten, out := false, 0, 0, [];
    }

    // A stream, or a substream that continues where `out` ends.
    constructor Writing(maxSize: nat, out: Bytes)
      ensures Valid() && writing && bytesWritten == 0 && this.out == out && this.maxSize == maxSize
    {
      writing, bytesWritten := true, 0;
      this.maxSize, this.out := maxSize, out;
    }

    ghost predicate Room(n: nat)
      reads this
    {
      writing ==> bytesWritten + n <= maxSize
    }
  }

  // The stream took exactly these bytes.
  twostate predicate Took(stream: OStream, b: Bytes)
    reads stream
  {
    && stream.Valid() && stream.bytesWritten == old(stream.bytesWritten) + |b|
    && stream.out == if stream.writing then old(stream.out) + b else old(stream.out)
  }

  // A refused value may have been written in part, but never past the limit.
  twostate predicate Kept(stream: OStream)
    reads stream
  {
    && stream.Valid() && old(stream.out) <= stream.out && old(stream.bytesWritten) <= stream.bytesWritten
    && (stream.writing ==> |stream.out| - |old(stream.out)| == stream.bytesWritten - old(stream.bytesWritten))
  }

  // pb_write with data
  method Write(stream: OStream, b: Bytes) returns (status: Status)
    requires stream.Valid()
    modifies stream
    ensures status == if old(stream.Room(|b|)) then Ok else StreamFull
    ensures if status.Ok? then Took(stream, b) else Kept(stream)
  {
    if |b| > 0 && stream.writing {
      if stream.bytesWritten + |b| > stream.maxSize {
        return StreamFull;
      }
      stream.out := stream.out + b;
    }
    stream.bytesWritten := stream.bytesWritten + |b|;
    return Ok;
  }

  // pb_write without data, on a sizing stream
  method Count(stream: OStream, ghost b: Bytes, n: nat) returns (status: Status)
    requires stream.Valid() && !stream.writing && n == |b|
    modifies stream
    ensures status == Ok && Took(stream, b)
  {
    stream.bytesWritten := stream.bytesWritten + n;
    return Ok;
  }

  method EncodeVarint(stream: OStream, n: nat) returns (status: Status)
    requires stream.Valid()
    modifies stream
    ensures status == if old(stream.Room(|Coding.Varint(n)|)) then Ok else StreamFull
    ensures if status.Ok? then Took(stream, Coding.Varint(n)) else Kept(stream)
  {
    if n <= 0x7F {
      status := Write(stream, [n]);
      return;
    }
    var buffer := VarintBuffer(n);
    status := Write(stream, buffer);
  }

  // The loop of pb_encode_varint
  method VarintBuffer(n: nat) returns (buffer: Bytes)
    requires n > 0
    ensures buffer == Coding.Varint(n)
  {
    buffer := [];
    var value: nat := n;
    var last: Byte := 0;
    ghost var front: Bytes := [];
    while value > 0
      invariant value > 0 ==> Coding.Varint(n) == buffer + Coding.Varint(value)
      invariant value == 0 ==> buffer == front + [last + 128] && last < 128 && Coding.Varint(n) == front + [last]
    {
      front := buffer;
      last := value % 128;
      buffer := buffer + [last + 128];
      SplitVarint(front, last, value);
      value := value / 128;
    }
    buffer := buffer[|buffer| - 1 := buffer[|buffer| - 1] - 128];
    assert buffer == front + [last];
  }

  lemma SplitVarint(front: Bytes, last: Byte, value: nat)
    requires last == value % 128
    ensures value >= 128 ==> front + Coding.Varint(value) == front + [last + 128] + Coding.Varint(value / 128)
    ensures value < 128 ==> front + Coding.Varint(value) == front + [last] && value / 128 == 0
  {
  }

  // What every encoder promises: it succeeds exactly if the value is encodable and its bytes
  // have room, and then the stream took exactly those bytes.
  twostate predicate Encoded(status: Status, encodable: bool, stream: OStream, b: Bytes)
    reads stream
  {
    && (status.Ok? <==> encodable && old(stream.Room(|b|)))
    && (if status.Ok? then Took(stream, b) else Kept(stream))
    && !status.SubmessageSizeChanged?
  }

  method EncodeString(stream: OStream, b: Bytes) returns (status: Status)
    requires stream.Valid()
    modifies stream
    ensures Encoded(status, true, stream, Delimited(b))
  {
    status := EncodeVarint(stream, |b|);
    if status.Ok? {
      status := Write(stream, b);
      assert status.Ok? && stream.writing ==>
               old(stream.out) + Delimited(b) == old(stream.out) + Coding.Varint(|b|) + b;
    }
  }

  // ---- Values

  // The field encoders behind PB_ENCODERS
  method EncodeValue(stream: OStream, lt: LType, v: Datum) returns (status: Status)
    requires stream.Valid() && Shaped(lt, v)
    modifies stream
    ensures Encoded(status, Encodable(lt, v), stream, PbSchemas.EncodeValue(lt, v))
    decreases lt, 0
  {
    match lt
    case Bool => status := EncodeVarint(stream, v.n);
    case Varint(_) => status := EncodeVarint(stream, if v.n < 0 then v.n + LONG_LIMIT else v.n);
    case UVarint(_) => status := EncodeVarint(stream, v.n);
    case SVarint(_) => status := EncodeVarint(stream, ZigZag(v.n));
    case Fixed32 => status := Write(stream, Coding.Fixed32(v.n));
    case Fixed64 => status := Write(stream, Coding.Fixed64(v.n));
    case BytesArray(size) =>
      if BYTES_HEADER + |v.bytes| > size {
        return BytesSizeExceeded;
      }
      status := EncodeString(stream, v.bytes);
    case CString(_) => status := EncodeString(stream, v.bytes);
    case FixedBytes(_) => status := EncodeString(stream, v.bytes);
    case Submessage(fields) => status := EncodeSubmessage(stream, fields, v.slots);
  }

  // pb_encode_tag_for_field and the value
  method EncodeTagged(stream: OStream, f: Field, v: Datum) returns (status: Status)
    requires stream.Valid() && Shaped(f.ltype, v)
    modifies stream
    ensures Encoded(status, Encodable(f.ltype, v), stream, PbSchemas.EncodeTagged(f, v))
    decreases f.ltype, 1
  {
    hide PbSchemas.EncodeValue, Encodable, Shaped, Coding.Varint;
    ghost var tag := TagBytes(f.tag, WireType(f.ltype));
    ghost var value := PbSchemas.EncodeValue(f.ltype, v);
    status := EncodeVarint(stream, 8 * f.tag + WireType(f.ltype));
    if status.Ok? {
      assert Took(stream, tag);
      status := EncodeValue(stream, f.ltype, v);
      assert stream.writing && status.Ok? ==> old(stream.out) + tag + value == old(stream.out) + (tag + value);
    }
  }

  // pb_encode_submessage: measure, then write into a substream of exactly that size. The check
  // that the size has not changed never fires.
  method EncodeSubmessage(stream: OStream, fields: seq<Field>, slots: seq<Slot>) returns (status: Status)
    requires stream.Valid() && ShapedAll(fields, slots)
    modifies stream
    ensures Encoded(status, EncodableAll(fields, slots), stream, Delimited(EncodeFields(fields, slots)))
    decreases fields, 1
  {
    hide EncodeFields, EncodableAll, ShapedAll, Coding.Varint;
    ghost var message := EncodeFields(fields, slots);
    ghost var prefix := Coding.Varint(|message|);
    var substream := new OStream.Sizing();
    status := EncodeMessage(substream, fields, slots);
    if !status.Ok? {
      return;
    }
    var size := substream.bytesWritten;
    status := EncodeVarint(stream, size);
    if !status.Ok? {
      return;
    }
    assert Took(stream, prefix);
    if !stream.writing {
      status := Count(stream, message, size);
      return;
    }
    if stream.bytesWritten + size > stream.maxSize {
      return StreamFull;
    }
    substream := new OStream.Writing(size, stream.out);
    status := EncodeMessage(substream, fields, slots);
    stream.bytesWritten := stream.bytesWritten + substream.bytesWritten;
    stream.out := substream.out;
    if substream.bytesWritten != size {
      return SubmessageSizeChanged;
    }
    assert old(stream.out) + prefix + message == old(stream.out) + (prefix + message);
  }

  // pb_encode
  method EncodeMessage(stream: OStream, fields: seq<Field>, slots: seq<Slot>) returns (status: Status)
    requires stream.Valid() && ShapedAll(fields, slots)
    modifies stream
    ensures Encoded(status, EncodableAll(fields, slots), stream, EncodeFields(fields, slots))
    decreases fields, 0
  {
    hide PbSchemas.EncodeSlot, EncodableSlot, ShapedSlot, EncodeFields;
    ghost var whole := EncodeFields(fields, slots);
    ghost var written: Bytes := [];
    status := Ok;
    var i := 0;
    assert fields[0..] == fields && slots[0..] == slots && [] + whole == whole;
    while i < |fields|
      invariant 0 <= i <= |fields| && ShapedAll(fields[i..], slots[i..])
      invariant whole == written + EncodeFields(fields[i..], slots[i..])
      invariant forall j | 0 <= j < i :: EncodableSlot(fields[j], slots[j])
      invariant Took(stream, written) && status.Ok?
    {
      ghost var part := PbSchemas.EncodeSlot(fields[i], slots[i]);
      NextField(fields, slots, i, written);
      assert |whole| >= |written| + |part|;
      status := EncodeSlot(stream, fields[i], slots[i]);
      if !status.Ok? {
        assert EncodableAll(fields, slots) ==> EncodableSlot(fields[i], slots[i]);
        return;
      }
      Regroup(old(stream.out), written, part);
      written := written + part;
      i := i + 1;
    }
    NoFields(written);
    assert fields[i..] == [] && slots[i..] == [];
  }

  lemma NoFields(written: Bytes)
    ensures ShapedAll([], []) && written + EncodeFields([], []) == written
  {
  }

  lemma NextField(fields: seq<Field>, slots: seq<Slot>, i: nat, written: Bytes)
    requires i < |fields| == |slots| && ShapedAll(fields[i..], slots[i..])
    ensures ShapedSlot(fields[i], slots[i]) && ShapedAll(fields[i + 1..], slots[i + 1..])
    ensures written + EncodeFields(fields[i..], slots[i..])
         == written + PbSchemas.EncodeSlot(fields[i], slots[i]) + EncodeFields(fields[i + 1..], slots[i + 1..])
  {
    hide ShapedSlot, PbSchemas.EncodeSlot;
    assert fields[i..][0] == fields[i] && slots[i..][0] == slots[i];
    assert fields[i..][1..] == fields[i + 1..] && slots[i..][1..] == slots[i + 1..];
    ShapedRest(fields[i..], slots[i..]);
  }

  lemma ShapedRest(fields: seq<Field>, slots: seq<Slot>)
    requires ShapedAll(fields, slots) && fields != []
    ensures ShapedSlot(fields[0], slots[0]) && ShapedAll(fields[1..], slots[1..])
  {
    hide ShapedSlot;
  }

  // encode_basic_field
  method EncodeSlot(stream: OStream, f: Field, s: Slot) returns (status: Status)
    requires stream.Valid() && ShapedSlot(f, s)
    modifies stream
    ensures Encoded(status, EncodableSlot(f, s), stream, PbSchemas.EncodeSlot(f, s))
    decreases f, 0
  {
    status := Ok;
    match f.rule
    case Required => status := EncodeTagged(stream, f, s.value);
    case Optional =>
      if s.has {
        status := EncodeTagged(stream, f, s.value);
      }
    case Repeated(size) => status := EncodeArray(stream, f, s.items, size);
    case OneOf(_) =>
      if s.chosen.Some? {
        status := EncodeTagged(stream, f, s.chosen.value);
      }
  }

  // encode_array: packed if the type allows it
  method EncodeArray(stream: OStream, f: Field, items: seq<Datum>, arraySize: nat) returns (status: Status)
    requires stream.Valid() && f.rule == Repeated(arraySize) && ShapedSlot(f, Many(items))
    modifies stream
    ensures Encoded(status, EncodableSlot(f, Many(items)), stream, PbSchemas.EncodeSlot(f, Many(items)))
    decreases f.ltype, 5
  {
    if |items| == 0 {
      return Ok;
    }
    if |items| > arraySize {
      return ArraySizeExceeded;
    }
    if Packable(f.ltype) {
      status := EncodePackedArray(stream, f, items);
    } else {
      status := EncodeItems(stream, f, items);
    }
  }

  method EncodePackedArray(stream: OStream, f: Field, items: seq<Datum>) returns (status: Status)
    requires stream.Valid() && Packable(f.ltype) && ShapedItems(f.ltype, items)
    modifies stream
    ensures EncodableItems(f.ltype, items)
    ensures Encoded(status, true, stream, TagBytes(f.tag, WT_STRING) + Delimited(EncodePacked(f.ltype, items)))
    decreases f.ltype, 4
  {
    hide EncodePacked, ShapedItems, Coding.Varint, EncodableItems;
    PackedSize(f.ltype, items);
    ghost var data := Delimited(EncodePacked(f.ltype, items));
    ghost var tag := TagBytes(f.tag, WT_STRING);
    status := EncodeVarint(stream, 8 * f.tag + WT_STRING);
    if status.Ok? {
      assert Took(stream, tag);
      status := EncodePackedData(stream, f.ltype, items);
      assert stream.writing && status.Ok? ==> old(stream.out) + tag + data == old(stream.out) + (tag + data);
    }
  }

  // The size of a packed array, by multiplication or on a sizing stream, and then its items
  method EncodePackedData(stream: OStream, lt: LType, items: seq<Datum>) returns (status: Status)
    requires stream.Valid() && Packable(lt) && ShapedItems(lt, items)
    modifies stream
    ensures Encoded(status, true, stream, Delimited(EncodePacked(lt, items)))
    decreases lt, 3
  {
    hide EncodePacked, ShapedItems, Coding.Varint, EncodableItems;
    ghost var data := EncodePacked(lt, items);
    var size := PackedDataSize(lt, items);
    ghost var prefix := Coding.Varint(size);
    status := EncodeVarint(stream, size);
    if !status.Ok? {
      return;
    }
    assert Took(stream, prefix);
    if !stream.writing {
      status := Count(stream, data, size);
      return;
    }
    status := EncodePackedItems(stream, lt, items);
    assert status.Ok? ==> old(stream.out) + prefix + data == old(stream.out) + (prefix + data);
  }

  method PackedDataSize(lt: LType, items: seq<Datum>) returns (size: nat)
    requires Packable(lt) && ShapedItems(lt, items)
    ensures size == |EncodePacked(lt, items)|
    decreases lt, 2
  {
    PackedSize(lt, items);
    if lt.Fixed32? {
      size := 4 * |items|;
    } else if lt.Fixed64? {
      size := 8 * |items|;
    } else {
      var sizeStream := new OStream.Sizing();
      var status := EncodePackedItems(sizeStream, lt, items);
      size := sizeStream.bytesWritten;
    }
  }

  lemma {:induction false} PackedSize(lt: LType, items: seq<Datum>)
    requires Packable(lt) && ShapedItems(lt, items)
    ensures EncodableItems(lt, items)
    ensures lt.Fixed32? ==> |EncodePacked(lt, items)| == 4 * |items|
    ensures lt.Fixed64? ==> |EncodePacked(lt, items)| == 8 * |items|
    decreases |items|
  {
    if items != [] {
      PackedSize(lt, items[1..]);
    }
  }

  lemma PackedEncodable(lt: LType)
    requires Packable(lt)
    ensures forall v | Shaped(lt, v) :: Encodable(lt, v)
  {
  }

  // The loop over a packed array, which encode_array runs on both kinds of stream
  method EncodePackedItems(stream: OStream, lt: LType, items: seq<Datum>) returns (status: Status)
    requires stream.Valid() && Packable(lt) && ShapedItems(lt, items)
    modifies stream
    ensures Encoded(status, true, stream, EncodePacked(lt, items))
    decreases lt, 1
  {
    hide PbSchemas.EncodeValue, Shaped, Encodable, EncodePacked, ShapedItems, Packable;
    ghost var whole := EncodePacked(lt, items);
    ghost var written: Bytes := [];
    var i := 0;
    status := Ok;
    assert items[0..] == items && [] + whole == whole;
    while i < |items|
      invariant 0 <= i <= |items| && ShapedItems(lt, items[i..])
      invariant whole == written + EncodePacked(lt, items[i..])
      invariant Took(stream, written) && status.Ok?
    {
      ghost var part := NextItem(lt, items, i, written);
      assert |whole| >= |written| + |part|;
      status := EncodeValue(stream, lt, items[i]);
      if !status.Ok? {
        return;
      }
      Regroup(old(stream.out), written, part);
      written := written + part;
      i := i + 1;
    }
    NoItems(lt, items[i..], written);
  }

  lemma NextItem(lt: LType, items: seq<Datum>, i: nat, written: Bytes) returns (part: Bytes)
    requires Packable(lt) && i < |items| && ShapedItems(lt, items[i..])
    ensures Shaped(lt, items[i]) && Encodable(lt, items[i]) && ShapedItems(lt, items[i + 1..])
    ensures part == PbSchemas.EncodeValue(lt, items[i])
    ensures written + EncodePacked(lt, items[i..]) == written + part + EncodePacked(lt, items[i + 1..])
  {
    hide PbSchemas.EncodeValue, Shaped;
    PackedEncodable(lt);
    assert items[i..][0] == items[i] && items[i..][1..] == items[i + 1..];
    part := PbSchemas.EncodeValue(lt, items[i]);
  }

  lemma NoItems(lt: LType, items: seq<Datum>, written: Bytes)
    requires items == [] && ShapedItems(lt, items)
    ensures written + EncodePacked(lt, items) == written
  {
  }

  method EncodeItems(stream: OStream, f: Field, items: seq<Datum>) returns (status: Status)
    requires stream.Valid() && ShapedItems(f.ltype, items)
    modifies stream
    ensures Encoded(status, EncodableItems(f.ltype, items), stream, PbSchemas.EncodeItems(f, items))
    decreases f.ltype, 3
  {
    hide PbSchemas.EncodeTagged, Shaped, Encodable;
    ghost var written: Bytes := [];
    var i := 0;
    status := Ok;
    assert items[0..] == items;
    while i < |items|
      invariant 0 <= i <= |items| && ShapedItems(f.ltype, items[i..])
      invariant forall j | 0 <= j < i :: Encodable(f.ltype, items[j])
      invariant PbSchemas.EncodeItems(f, items) == written + PbSchemas.EncodeItems(f, items[i..])
      invariant Took(stream, written) && status.Ok?
    {
      assert items[i..][0] == items[i] && items[i..][1..] == items[i + 1..];
      ghost var part := PbSchemas.EncodeTagged(f, items[i]);
      status := EncodeTagged(stream, f, items[i]);
      assert written + PbSchemas.EncodeItems(f, items[i..]) == written + part + PbSchemas.EncodeItems(f, items[i + 1..]);
      if !status.Ok? {
        return;
      }
      Regroup(old(stream.out), written, part);
      written := written + part;
      i := i + 1;
    }
    assert written + [] == written;
  }

  // pb_get_encoded_size: exact, and defined exactly for encodable structures.
  method GetEncodedSize(fields: seq<Field>, slots: seq<Slot>) returns (ok: bool, size: nat)
    requires ShapedAll(fields, slots)
    ensures ok <==> EncodableAll(fields, slots)
    ensures ok ==> size == |EncodeFields(fields, slots)|
  {
    var stream := new OStream.Sizing();
    var status := EncodeMessage(stream, fields, slots);
    ok, size := status.Ok?, stream.bytesWritten;
  }

  // Encoding into a buffer of the measured size always fits, and writes just that many bytes.
  method EncodeToBuffer(fields: seq<Field>, slots: seq<Slot>, maxSize: nat) returns (status: Status, out: Bytes)
    requires ShapedAll(fields, slots)
    ensures status.Ok? <==> EncodableAll(fields, slots) && |EncodeFields(fields, slots)| <= maxSize
    ensures status.Ok? ==> out == EncodeFields(fields, slots)
    ensures |out| <= maxSize && !status.SubmessageSizeChanged?
  {
    var stream := new OStream.Writing(maxSize, []);
    status := EncodeMessage(stream, fields, slots);
    out := stream.out;
    assert [] + EncodeFields(fields, slots) == EncodeFields(fields, slots);
  }
}
