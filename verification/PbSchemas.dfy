/** nanopb message descriptors with static allocation, the structures they describe, and the
    Protocol Buffers wire format (Protocol Buffers Encoding specification) of such a structure. */
module PbSchemas {
  import opened InternalKeys
  import opened Coding

  // The build chooses the width of pb_size_t: one byte by default, two with PB_FIELD_16BIT, four
  // with PB_FIELD_32BIT as this application builds it. The choice is left open here, so all that
  // follows holds for each.
  datatype SizeType = Size8 | Size16 | Size32

  const SIZE_TYPE: SizeType

  function SizeBytes(t: SizeType): (r: nat)
    ensures r == 1 || r == 2 || r == 4
  {
    match t
    case Size8 => 1
    case Size16 => 2
    case Size32 => 4
  }

  function SizeMax(t: SizeType): (r: nat)
    ensures 255 <= r < WORD_LIMIT
  {
    match t
    case Size8 => 0xFF
    case Size16 => 0xFFFF
    case Size32 => 0xFFFF_FFFF
  }

  const PB_SIZE_MAX := SizeMax(SIZE_TYPE)

  // The header of a bytes field: its length, a pb_size_t
  const BYTES_HEADER := SizeBytes(SIZE_TYPE)

  const WT_VARINT := 0
  const WT_64BIT := 1
  const WT_STRING := 2
  const WT_32BIT := 5

  datatype Width = W8 | W16 | W32 | W64

  // The data types; sizes are those of the field in the structure.
  datatype LType =
    | Bool
    | Varint(width: Width)
    | UVarint(width: Width)
    | SVarint(width: Width)
    | Fixed32
    | Fixed64
    // The length, and room for the rest
    | BytesArray(dataSize: nat)
    | CString(dataSize: nat)
    | FixedBytes(dataSize: nat)
    | Submessage(fields: seq<Field>)

  // A oneof names the union that its members share.
  datatype Rule = Required | Optional | Repeated(arraySize: nat) | OneOf(union: nat)

  // `initial` is the default of a scalar or string field.
  datatype Field = Field(tag: nat, rule: Rule, ltype: LType, initial: Datum)

  datatype Datum = Num(n: int) | Blob(bytes: Bytes) | Msg(slots: seq<Slot>)

  // What the structure holds for a field: an optional value keeps its storage when absent, and
  // of a union's members only the chosen one has a value.
  datatype Slot = One(value: Datum) | Maybe(has: bool, value: Datum) | Many(items: seq<Datum>) | Choice(chosen: Option<Datum>)

  function SignedLimit(w: Width): (r: int)
    ensures 0 < r <= 0x8000_0000_0000_0000
  {
    match w
    case W8 => 0x80
    case W16 => 0x8000
    case W32 => 0x8000_0000
    case W64 => 0x8000_0000_0000_0000
  }

  predicate Packable(lt: LType) {
    lt.Bool? || lt.Varint? || lt.UVarint? || lt.SVarint? || lt.Fixed32? || lt.Fixed64?
  }

  function WireType(lt: LType): (r: nat)
    ensures r < 8
  {
    match lt
    case Fixed32 => WT_32BIT
    case Fixed64 => WT_64BIT
    case BytesArray(_) => WT_STRING
    case CString(_) => WT_STRING
    case FixedBytes(_) => WT_STRING
    case Submessage(_) => WT_STRING
    case _ => WT_VARINT
  }

  // ---- Structures that a descriptor describes

  ghost predicate Shaped(lt: LType, v: Datum)
    decreases lt, 0
  {
    match lt
    case Bool => v.Num? && 0 <= v.n <= 1
    case Varint(w) => v.Num? && -SignedLimit(w) <= v.n < SignedLimit(w)
    case UVarint(w) => v.Num? && 0 <= v.n < 2 * SignedLimit(w)
    case SVarint(w) => v.Num? && -SignedLimit(w) <= v.n < SignedLimit(w)
    case Fixed32 => v.Num? && 0 <= v.n < WORD_LIMIT
    case Fixed64 => v.Num? && 0 <= v.n < LONG_LIMIT
    case BytesArray(_) => v.Blob? && |v.bytes| <= PB_SIZE_MAX
    case CString(size) => v.Blob? && |v.bytes| <= size && 0 !in v.bytes
    case FixedBytes(size) => v.Blob? && |v.bytes| == size
    case Submessage(fields) => v.Msg? && ShapedAll(fields, v.slots)
  }

  ghost predicate ShapedAll(fields: seq<Field>, slots: seq<Slot>)
    decreases fields, 0
  {
    |slots| == |fields| && forall i | 0 <= i < |fields| :: ShapedSlot(fields[i], slots[i])
  }

  ghost predicate ShapedSlot(f: Field, s: Slot)
    decreases f, 0
  {
    match f.rule
    case Required => s.One? && Shaped(f.ltype, s.value)
    case Optional => s.Maybe? && Shaped(f.ltype, s.value)
    case Repeated(_) => s.Many? && ShapedItems(f.ltype, s.items)
    case OneOf(_) => s.Choice? && (s.chosen.Some? ==> Shaped(f.ltype, s.chosen.value))
  }

  ghost predicate ShapedItems(lt: LType, items: seq<Datum>)
    decreases lt, 1
  {
    forall i | 0 <= i < |items| :: Shaped(lt, items[i])
  }

  // ---- The wire format

  function ZigZag(n: int): nat {
    if n < 0 then -2 * n - 1 else 2 * n
  }

  function TagBytes(tag: nat, wireType: nat): Bytes { Coding.Varint(8 * tag + wireType) }

  function Delimited(b: Bytes): Bytes { Coding.Varint(|b|) + b }

  ghost function EncodeValue(lt: LType, v: Datum): Bytes
    requires Shaped(lt, v)
    decreases lt, 0
  {
    match lt
    case Bool => Coding.Varint(v.n)
    case Varint(_) => Coding.Varint(if v.n < 0 then v.n + LONG_LIMIT else v.n)
    case UVarint(_) => Coding.Varint(v.n)
    case SVarint(_) => Coding.Varint(ZigZag(v.n))
    case Fixed32 => Coding.Fixed32(v.n)
    case Fixed64 => Coding.Fixed64(v.n)
    case Submessage(fields) => Delimited(EncodeFields(fields, v.slots))
    case _ => Delimited(v.bytes)
  }

  ghost function EncodeFields(fields: seq<Field>, slots: seq<Slot>): Bytes
    requires ShapedAll(fields, slots)
    decreases fields, 0
  {
    if fields == [] then [] else EncodeSlot(fields[0], slots[0]) + EncodeFields(fields[1..], slots[1..])
  }

  ghost function EncodeTagged(f: Field, v: Datum): Bytes
    requires Shaped(f.ltype, v)
    decreases f.ltype, 1
  {
    TagBytes(f.tag, WireType(f.ltype)) + EncodeValue(f.ltype, v)
  }

  ghost function EncodeSlot(f: Field, s: Slot): Bytes
    requires ShapedSlot(f, s)
    decreases f, 0
  {
    match f.rule
    case Required => EncodeTagged(f, s.value)
    case Optional => if s.has then EncodeTagged(f, s.value) else []
    case OneOf(_) => if s.chosen.Some? then EncodeTagged(f, s.chosen.value) else []
    case Repeated(_) =>
      if s.items == [] then []
      else if Packable(f.ltype) then TagBytes(f.tag, WT_STRING) + Delimited(EncodePacked(f.ltype, s.items))
      else EncodeItems(f, s.items)
  }

  ghost function EncodePacked(lt: LType, items: seq<Datum>): Bytes
    requires ShapedItems(lt, items)
    decreases lt, 1, |items|
  {
    if items == [] then [] else EncodeValue(lt, items[0]) + EncodePacked(lt, items[1..])
  }

  ghost function EncodeItems(f: Field, items: seq<Datum>): Bytes
    requires ShapedItems(f.ltype, items)
    decreases f.ltype, 2, |items|
  {
    if items == [] then [] else EncodeTagged(f, items[0]) + EncodeItems(f, items[1..])
  }

  // ---- What the encoder accepts

  ghost predicate Encodable(lt: LType, v: Datum)
    requires Shaped(lt, v)
    decreases lt, 0
  {
    match lt
    case BytesArray(size) => BYTES_HEADER + |v.bytes| <= size
    case Submessage(fields) => EncodableAll(fields, v.slots)
    case _ => true
  }

  ghost predicate EncodableAll(fields: seq<Field>, slots: seq<Slot>)
    requires ShapedAll(fields, slots)
    decreases fields, 0
  {
    forall i | 0 <= i < |fields| :: EncodableSlot(fields[i], slots[i])
  }

  // Absent values and the items beyond the array are not looked at.
  ghost predicate EncodableSlot(f: Field, s: Slot)
    requires ShapedSlot(f, s)
    decreases f, 0
  {
    match f.rule
    case Required => Encodable(f.ltype, s.value)
    case Optional => s.has ==> Encodable(f.ltype, s.value)
    case OneOf(_) => s.chosen.Some? ==> Encodable(f.ltype, s.chosen.value)
    case Repeated(size) => |s.items| <= size && EncodableItems(f.ltype, s.items)
  }

  ghost predicate EncodableItems(lt: LType, items: seq<Datum>)
    requires ShapedItems(lt, items)
    decreases lt, 1
  {
    forall i | 0 <= i < |items| :: Encodable(lt, items[i])
  }
}
