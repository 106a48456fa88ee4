/** The bytes of an encoded message in numbers, as the Protocol Buffers Encoding specification
    gives them. */
module PbWire {
  import opened InternalKeys
  import opened Coding
  import opened PbSchemas

  // ---- Values

  lemma NumberBytes(lt: LType, v: Datum)
    requires Shaped(lt, v) && Packable(lt)
    ensures lt.Bool? ==> EncodeValue(lt, v) == [v.n]
    ensures lt.UVarint? ==> EncodeValue(lt, v) == Coding.Varint(v.n)
    // A negative number as 64 bits of two's complement
    ensures lt.Varint? ==> EncodeValue(lt, v) == Coding.Varint(if v.n >= 0 then v.n else v.n + 18446744073709551616)
    // 0, -1, 1, -2 and so on as 0, 1, 2, 3 and so on
    ensures lt.SVarint? ==> EncodeValue(lt, v) == Coding.Varint(if v.n >= 0 then 2 * v.n else -2 * v.n - 1)
    // Little-endian words of four and eight bytes
    ensures lt.Fixed32? ==> |EncodeValue(lt, v)| == 4 && LittleEndian(EncodeValue(lt, v)) == v.n
    ensures lt.Fixed64? ==> |EncodeValue(lt, v)| == 8 && LittleEndian(EncodeValue(lt, v)) == v.n
  {
    if lt.Bool? {
      SmallVarint(v.n);
    } else if lt.Fixed32? {
      Word32Bytes(v.n);
    } else if lt.Fixed64? {
      Word64Bytes(v.n);
    }
    hide Coding.Varint, Coding.Fixed32, Coding.Fixed64;
  }

  // Bytes, strings and submessages are preceded by their length.
  lemma DelimitedBytes(lt: LType, v: Datum)
    requires Shaped(lt, v) && !Packable(lt)
    ensures !lt.Submessage? ==> EncodeValue(lt, v) == Coding.Varint(|v.bytes|) + v.bytes
    ensures lt.Submessage? ==>
              var message := EncodeFields(lt.fields, v.slots);
              EncodeValue(lt, v) == Coding.Varint(|message|) + message
  {
    hide Coding.Varint, EncodeFields;
  }

  // ---- Records and messages

  // A record begins with eight times the field's number, plus 0 for a varint, 1 for eight bytes,
  // 2 for a delimited value and 5 for four bytes.
  lemma RecordBytes(f: Field, v: Datum)
    requires Shaped(f.ltype, v)
    ensures EncodeTagged(f, v)
         == Coding.Varint(8 * f.tag + match f.ltype
                                      case Bool => 0
                                      case Varint(_) => 0
                                      case UVarint(_) => 0
                                      case SVarint(_) => 0
                                      case Fixed64 => 1
                                      case BytesArray(_) => 2
                                      case CString(_) => 2
                                      case FixedBytes(_) => 2
                                      case Submessage(_) => 2
                                      case Fixed32 => 5)
          + EncodeValue(f.ltype, v)
  {
    hide Coding.Varint, EncodeValue;
  }

  // What goes out for a field: nothing for an absent one, one record for a value, one record for
  // a whole array of numbers, and one record for each item of another array.
  lemma SlotBytes(f: Field, s: Slot)
    requires ShapedSlot(f, s)
    ensures s.One? ==> EncodeSlot(f, s) == EncodeTagged(f, s.value)
    ensures s.Maybe? ==> EncodeSlot(f, s) == if s.has then EncodeTagged(f, s.value) else []
    ensures s.Choice? ==> EncodeSlot(f, s) == if s.chosen.Some? then EncodeTagged(f, s.chosen.value) else []
    ensures s.Many? && s.items == [] ==> EncodeSlot(f, s) == []
    ensures s.Many? && s.items != [] && Packable(f.ltype) ==>
              var values := EncodePacked(f.ltype, s.items);
              EncodeSlot(f, s) == Coding.Varint(8 * f.tag + 2) + (Coding.Varint(|values|) + values)
    ensures s.Many? && !Packable(f.ltype) ==> EncodeSlot(f, s) == EncodeItems(f, s.items)
  {
    hide Coding.Varint, EncodePacked, EncodeTagged, Shaped;
  }

  // Numbers, and only they, are packed.
  lemma PackedTypes(lt: LType)
    ensures Packable(lt) <==> !lt.BytesArray? && !lt.CString? && !lt.FixedBytes? && !lt.Submessage?
  {
  }

  // The values of a packed array follow one another without keys.
  lemma {:induction false} PackedBytes(lt: LType, a: seq<Datum>, b: seq<Datum>)
    requires ShapedItems(lt, a) && ShapedItems(lt, b)
    ensures ShapedItems(lt, a + b) && EncodePacked(lt, a + b) == EncodePacked(lt, a) + EncodePacked(lt, b)
    decreases |a|
  {
    hide EncodeValue, Shaped;
    if a == [] {
      assert a + b == b;
    } else {
      PackedBytes(lt, a[1..], b);
      assert (a + b)[1..] == a[1..] + b && (a + b)[0] == a[0];
      Regroup(EncodeValue(lt, a[0]), EncodePacked(lt, a[1..]), EncodePacked(lt, b));
    }
  }

  // The items of another array follow one another, each a record.
  lemma {:induction false} ItemsBytes(f: Field, a: seq<Datum>, b: seq<Datum>)
    requires ShapedItems(f.ltype, a) && ShapedItems(f.ltype, b)
    ensures ShapedItems(f.ltype, a + b) && EncodeItems(f, a + b) == EncodeItems(f, a) + EncodeItems(f, b)
    decreases |a|
  {
    hide EncodeTagged, Shaped;
    if a == [] {
      assert a + b == b;
    } else {
      ItemsBytes(f, a[1..], b);
      assert (a + b)[1..] == a[1..] + b && (a + b)[0] == a[0];
      Regroup(EncodeTagged(f, a[0]), EncodeItems(f, a[1..]), EncodeItems(f, b));
    }
  }

  lemma OneItemBytes(f: Field, v: Datum)
    requires Shaped(f.ltype, v)
    ensures EncodePacked(f.ltype, [v]) == EncodeValue(f.ltype, v) && EncodeItems(f, [v]) == EncodeTagged(f, v)
    ensures EncodePacked(f.ltype, []) == [] && EncodeItems(f, []) == []
  {
    hide EncodeTagged, EncodeValue, Shaped;
  }

  // The fields of a message follow one another in the order of the descriptor.
  lemma {:induction false} FieldsBytes(fields: seq<Field>, slots: seq<Slot>, n: nat)
    requires ShapedAll(fields, slots) && n <= |fields|
    ensures ShapedAll(fields[..n], slots[..n]) && ShapedAll(fields[n..], slots[n..])
    ensures EncodeFields(fields, slots) == EncodeFields(fields[..n], slots[..n]) + EncodeFields(fields[n..], slots[n..])
    ensures |fields| == 1 ==> ShapedSlot(fields[0], slots[0]) && EncodeFields(fields, slots) == EncodeSlot(fields[0], slots[0])
    decreases n
  {
    hide EncodeSlot, ShapedSlot;
    if n == 0 {
      assert fields[0..] == fields && slots[0..] == slots;
    } else {
      FieldsBytes(fields[1..], slots[1..], n - 1);
      assert fields[1..][..n - 1] == fields[..n][1..] && slots[1..][..n - 1] == slots[..n][1..];
      assert fields[1..][n - 1..] == fields[n..] && slots[1..][n - 1..] == slots[n..];
    }
  }

  // ---- The specification's own examples

  // Field 1 with 150, and field 2 with "testing"
  lemma KnownRecords()
    ensures EncodeTagged(Field(1, Required, UVarint(W32), Num(0)), Num(150)) == [0x08, 0x96, 0x01]
    ensures EncodeTagged(Field(2, Required, CString(8), Blob([])), Blob([0x74, 0x65, 0x73, 0x74, 0x69, 0x6e, 0x67]))
         == [0x12, 0x07, 0x74, 0x65, 0x73, 0x74, 0x69, 0x6e, 0x67]
  {
    assert Coding.Varint(150) == [0x96, 0x01];
  }

  // Field 4 with 3, 270 and 86942, packed
  lemma KnownPacked()
    ensures EncodeSlot(Field(4, Repeated(3), UVarint(W32), Num(0)), Many([Num(3), Num(270), Num(86942)]))
         == [0x22, 0x06, 0x03, 0x8E, 0x02, 0x9E, 0xA7, 0x05]
  {
    assert Coding.Varint(270) == [0x8E, 0x02];
    assert Coding.Varint(86942) == [0x9E] + Coding.Varint(679) && Coding.Varint(679) == [0xA7, 0x05];
    var items := [Num(3), Num(270), Num(86942)];
    assert items[1..] == [Num(270), Num(86942)] && items[1..][1..] == [Num(86942)];
    assert EncodePacked(UVarint(W32), items[1..][1..]) == [0x9E, 0xA7, 0x05];
    assert EncodePacked(UVarint(W32), items[1..]) == [0x8E, 0x02, 0x9E, 0xA7, 0x05];
    assert EncodePacked(UVarint(W32), items) == [0x03, 0x8E, 0x02, 0x9E, 0xA7, 0x05];
  }

  // A fixed32 field 1 with 0, and a fixed64 field 1 with 1
  lemma KnownWords()
    ensures EncodeTagged(Field(1, Required, Fixed32, Num(0)), Num(0)) == [0x0D, 0, 0, 0, 0]
    ensures EncodeTagged(Field(1, Required, Fixed64, Num(0)), Num(1)) == [0x09, 1, 0, 0, 0, 0, 0, 0, 0]
  {
  }
}
