/** The nanopb field decoders and the message loop, on streams. */
module PbDecoding {
  import opened InternalKeys
  import opened Coding
  import opened PbSchemas
  import opened PbDecoders
  import opened PbFieldIters
  import opened PbStreams
  import opened PbRequired
  import opened PbRoundTrips

  // The scalar decoders behind PB_DECODERS
  method DecodeScalar(s: IStream, lt: LType, ghost old_: Datum) returns (ok: bool, v: Datum)
    requires s.Valid() && Packable(lt)
    modifies s
    ensures var r := PbDecoders.DecodeValue(lt, old(s.View()), old_);
            && (ok <==> r.Some?)
            && (ok ==> v == r.value.0 && Leaves(s, r.value.1))
  {
    v := Num(0);
    if lt.Bool? {
      var value, eof;
      ok, value, eof := PbStreams.DecodeVarint32(s);
      v := Num(if value != 0 then 1 else 0);
    } else if lt.Fixed32? {
      var b;
      ok, b := Read(s, 4);
      if ok {
        v := Num(DecodeFixed32(b));
      }
    } else if lt.Fixed64? {
      var b;
      ok, b := Read(s, 8);
      if ok {
        v := Num(DecodeFixed64(b));
      }
    } else {
      ok, v := DecodeInteger(s, lt, old_);
    }
  }

  method DecodeInteger(s: IStream, lt: LType, ghost old_: Datum) returns (ok: bool, v: Datum)
    requires s.Valid() && (lt.Varint? || lt.UVarint? || lt.SVarint?)
    modifies s
    ensures var r := PbDecoders.DecodeValue(lt, old(s.View()), old_);
            && (ok <==> r.Some?)
            && (ok ==> v == r.value.0 && Leaves(s, r.value.1))
  {
    hide GetVarint64;
    var value;
    ok, value := DecodeVarint64(s);
    if !ok {
      return false, Num(0);
    }
    if lt.Varint? {
      var n := Signed(value, if lt.width.W64? then 0x8000_0000_0000_0000 else 0x8000_0000);
      ok, v := InSigned(n, lt.width), Num(n);
    } else if lt.UVarint? {
      ok, v := value < 2 * SignedLimit(lt.width), Num(value);
    } else {
      var n := UnZigZag(value);
      ok, v := InSigned(n, lt.width), Num(n);
    }
  }

  method DecodeBlob(s: IStream, lt: LType, ghost old_: Datum) returns (ok: bool, v: Datum)
    requires s.Valid() && (lt.BytesArray? || lt.CString? || lt.FixedBytes?)
    modifies s
    ensures var r := PbDecoders.DecodeValue(lt, old(s.View()), old_);
            && (ok <==> r.Some?)
            && (ok ==> v == r.value.0 && Leaves(s, r.value.1))
  {
    hide PbDecoders.TakeString;
    v := Num(0);
    var b;
    var overhead := if lt.BytesArray? then BYTES_HEADER else if lt.CString? then 1 else 0;
    if lt.dataSize < overhead {
      return false, v;
    }
    var room := lt.dataSize - overhead;
    var most := if lt.CString? || (lt.BytesArray? && room <= PB_SIZE_MAX) then room else PB_SIZE_MAX;
    ok, b := ReadString(s, most);
    if ok {
      if lt.BytesArray? {
        v := Blob(b);
      } else if lt.CString? {
        v := Blob(UpToZero(b));
      } else if |b| == 0 {
        v := Blob(seq(lt.dataSize, _ => 0));
      } else {
        ok, v := |b| == lt.dataSize, Blob(b);
      }
    }
  }

  method DecodeValue(s: IStream, lt: LType, old_: Datum) returns (ok: bool, v: Datum)
    requires s.Valid() && (lt.Submessage? ==> Shaped(lt, old_) && WellFormed(lt.fields))
    modifies s
    ensures var r := PbDecoders.DecodeValue(lt, old(s.View()), old_);
            && (ok <==> r.Some?)
            && (ok ==> v == r.value.0 && Leaves(s, r.value.1))
    decreases lt, 1
  {
    if Packable(lt) {
      ok, v := DecodeScalar(s, lt, old_);
    } else if !lt.Submessage? {
      ok, v := DecodeBlob(s, lt, old_);
    } else {
      ok, v := DecodeSubmessage(s, lt, old_);
    }
  }

  // pb_dec_submessage
  method DecodeSubmessage(s: IStream, lt: LType, old_: Datum) returns (ok: bool, v: Datum)
    requires s.Valid() && lt.Submessage? && Shaped(lt, old_) && WellFormed(lt.fields)
    modifies s
    ensures var r := PbDecoders.DecodeValue(lt, old(s.View()), old_);
            && (ok <==> r.Some?)
            && (ok ==> v == r.value.0 && Leaves(s, r.value.1))
    decreases lt, 0
  {
    hide PbDecoders.TakeString, DecodeFields;
    ghost var parts := PbDecoders.TakeString(s.View());
    ghost var beyond := s.Beyond();
    var sub;
    ok, sub := MakeSubstream(s);
    if !ok {
      return false, old_;
    }
    var slots;
    ok, slots := DecodeMessage(sub, lt.fields, old_.slots);
    if ok {
      CloseSubstream(s, sub, parts.value.1, beyond);
    }
    v := Msg(slots);
  }

  // A packed array, in its substream
  method DecodePackedItems(sub: IStream, lt: LType, items: seq<Datum>, arraySize: nat) returns (ok: bool, r: seq<Datum>)
    requires sub.Valid() && Packable(lt) && ShapedItems(lt, items)
    modifies sub
    ensures var d := DecodePacked(lt, old(sub.View()), items, arraySize);
            && (ok <==> d.Some?)
            && (ok ==> r == d.value && sub.Valid() && sub.bytesLeft == 0 && sub.Beyond() == old(sub.Beyond()))
  {
    hide PbDecoders.DecodeValue, Shaped;
    r := items;
    ok := true;
    ghost var target := DecodePacked(lt, sub.View(), items, arraySize);
    while sub.bytesLeft > 0 && |r| < arraySize
      invariant sub.Valid() && ShapedItems(lt, r) && sub.Beyond() == old(sub.Beyond())
      invariant DecodePacked(lt, sub.View(), r, arraySize) == target
      decreases sub.bytesLeft
    {
      ghost var d := PbDecoders.DecodeValue(lt, sub.View(), Fresh(lt));
      var v;
      ok, v := DecodeScalar(sub, lt, Fresh(lt));
      if !ok {
        return false, r;
      }
      ItemShaped(lt, r, v);
      r := r + [v];
    }
    ok := sub.bytesLeft == 0;
  }

  // decode_static_field
  method DecodeField(s: IStream, f: Field, wireType: nat, slot: Slot) returns (ok: bool, r: Slot)
    requires s.Valid() && ShapedSlot(f, slot) && WellFormedField(f)
    modifies s
    ensures var d := DecodeSlot(f, wireType, old(s.View()), slot);
            && (ok <==> d.Some?)
            && (ok ==> r == d.value.0 && Leaves(s, d.value.1))
    decreases f, 0
  {
    hide PbDecoders.DecodeValue;
    r := slot;
    var v;
    match f.rule
    case Required =>
      ok, v := DecodeValue(s, f.ltype, slot.value);
      r := One(v);
    case Optional =>
      ok, v := DecodeValue(s, f.ltype, slot.value);
      r := Maybe(true, v);
    case Repeated(arraySize) =>
      if wireType == WT_STRING && Packable(f.ltype) {
        ok, r := DecodePackedArray(s, f, wireType, slot);
      } else {
        if |slot.items| >= arraySize {
          return false, slot;
        }
        FreshShaped(f);
        ok, v := DecodeValue(s, f.ltype, Fresh(f.ltype));
        r := Many(slot.items + [v]);
      }
    case OneOf(_) =>
      FreshShaped(f);
      ok, v := DecodeValue(s, f.ltype, Fresh(f.ltype));
      r := Choice(Some(v));
  }

  method DecodePackedArray(s: IStream, f: Field, wireType: nat, slot: Slot) returns (ok: bool, r: Slot)
    requires s.Valid() && ShapedSlot(f, slot) && WellFormedField(f)
    requires f.rule.Repeated? && Packable(f.ltype) && wireType == WT_STRING
    modifies s
    ensures var d := DecodeSlot(f, wireType, old(s.View()), slot);
            && (ok <==> d.Some?)
            && (ok ==> r == d.value.0 && Leaves(s, d.value.1))
  {
    hide DecodePacked, PbDecoders.TakeString;
    ghost var parts := PbDecoders.TakeString(s.View());
    ghost var beyond := s.Beyond();
    var sub, items;
    ok, sub := MakeSubstream(s);
    if !ok {
      return false, slot;
    }
    ok, items := DecodePackedItems(sub, f.ltype, slot.items, f.rule.arraySize);
    if ok {
      CloseSubstream(s, sub, parts.value.1, beyond);
    }
    r := Many(items);
  }

  // pb_decode_noinit
  method DecodeMessage(s: IStream, fields: seq<Field>, init: seq<Slot>) returns (ok: bool, slots: seq<Slot>)
    requires s.Valid() && ShapedAll(fields, init) && WellFormed(fields)
    modifies s
    ensures var d := DecodeFields(fields, init, {}, old(s.View()));
            && (ok <==> d.Some?)
            && (ok ==> slots == d.value.0 && Leaves(s, d.value.1))
    // It fails exactly on a record that cannot be read, or without one of the first 64 required fields.
    ensures var r := ReadRecords(fields, init, old(s.View()));
            && (ok <==> r.Some? && Complete(fields, r.value.tags))
            && (ok ==> slots == r.value.slots && Leaves(s, r.value.rest))
    decreases fields, 1
  {
    DecodesIffComplete(fields, init, s.View());
    assert PbDecoders.DecodeTag([]) == Eof([]);
    hide DecodeSlot, Stored, PbDecoders.DecodeTag, PbDecoders.SkipField, ShapedAll, WellFormed, RequiredCount, DecodeFields,
         ReadRecords, Complete;
    ghost var target := DecodeFields(fields, init, {}, s.View());
    var iter := new FieldIter(fields);
    var fieldsSeen: set<nat> := {};
    slots := init;
    var more := true;
    while more && s.bytesLeft > 0
      invariant s.Valid() && s.Beyond() == old(s.Beyond()) && |slots| == |fields| && ShapedAll(fields, slots)
      invariant fresh(iter) && iter.Valid() && iter.fields == fields
      invariant target == if more then DecodeFields(fields, slots, fieldsSeen, s.View()) else Finished(fields, slots, fieldsSeen, s.View())
      decreases more, s.bytesLeft
    {
      MessageStep(fields, slots, fieldsSeen, s.View());
      ghost var record := s.View();
      var wireType, tag, eof;
      ok, wireType, tag, eof := PbStreams.DecodeTag(s);
      if !ok {
        if !eof {
          return false, slots;
        }
        more := false;
      } else {
        ok, slots, fieldsSeen := DecodeRecord(s, iter, slots, fieldsSeen, wireType, tag, record);
        if !ok {
          return false, slots;
        }
      }
    }
    MessageStep(fields, slots, fieldsSeen, []);
    assert more ==> s.View() == [];
    ok := CheckRequired(iter, fieldsSeen);
  }

  // One record, behind its tag: find the field and decode it, or skip.
  method DecodeRecord(s: IStream, iter: FieldIter, slots: seq<Slot>, seen: set<nat>, wireType: nat, tag: nat, ghost record: Bytes)
      returns (ok: bool, slots': seq<Slot>, seen': set<nat>)
    requires s.Valid() && iter.Valid() && ShapedAll(iter.fields, slots) && WellFormed(iter.fields)
    requires PbDecoders.DecodeTag(record) == Tag(wireType, tag, s.View())
    modifies s, iter
    ensures iter.Valid() && ShapedAll(iter.fields, slots')
    ensures var fields := iter.fields;
            if ok then
              && s.Valid() && s.Beyond() == old(s.Beyond()) && |s.View()| <= |old(s.View())|
              && DecodeFields(fields, slots', seen', s.View()) == DecodeFields(fields, slots, seen, record)
            else DecodeFields(fields, slots, seen, record).None?
    decreases iter.fields, 0
  {
    slots', seen' := slots, seen;
    var fields := iter.fields;
    MessageStep(fields, slots, seen, record);
    hide DecodeSlot, Stored, PbDecoders.DecodeTag, PbDecoders.SkipField, WellFormed, DecodeFields, PbDecoders.Find;
    // Without fields there is nothing to find.
    var found := false;
    if fields != [] {
      found := iter.Find(tag);
    }
    if !found {
      assert PbDecoders.Find(fields, tag).None?;
      ok := PbStreams.SkipField(s, wireType);
      return;
    }
    var i := iter.pos;
    FoundIs(fields, i, tag);
    KnownStep(fields, slots, seen, record, i);
    if fields[i].rule.Required? && iter.requiredFieldIndex < PB_MAX_REQUIRED_FIELDS {
      seen' := seen + {iter.requiredFieldIndex};
    }
    var part;
    ok, part := DecodeField(s, fields[i], wireType, slots[i]);
    if ok {
      slots' := Stored(fields, slots, i, part);
    }
  }

  // The end of pb_decode_noinit's loop, and a record of an unknown field
  lemma MessageStep(fields: seq<Field>, slots: seq<Slot>, seen: set<nat>, b: Bytes)
    requires ShapedAll(fields, slots) && WellFormed(fields)
    ensures var t := PbDecoders.DecodeTag(b);
            && (t.Eof? ==> DecodeFields(fields, slots, seen, b) == Finished(fields, slots, seen, t.rest))
            && (t.Malformed? ==> DecodeFields(fields, slots, seen, b).None?)
            && (t.Tag? && PbDecoders.Find(fields, t.number).None? ==>
                  DecodeFields(fields, slots, seen, b)
                  == if PbDecoders.SkipField(t.wireType, t.rest).None? then None
                     else DecodeFields(fields, slots, seen, PbDecoders.SkipField(t.wireType, t.rest).value))
  {
    hide DecodeSlot, PbDecoders.SkipField, Mark;
  }

  // A record of a known field
  lemma KnownStep(fields: seq<Field>, slots: seq<Slot>, seen: set<nat>, b: Bytes, i: nat)
    requires ShapedAll(fields, slots) && WellFormed(fields) && PbDecoders.DecodeTag(b).Tag?
    requires PbDecoders.Find(fields, PbDecoders.DecodeTag(b).number) == Some(i)
    ensures ShapedSlot(fields[i], slots[i]) && WellFormedField(fields[i])
    ensures var t := PbDecoders.DecodeTag(b);
            var d := DecodeSlot(fields[i], t.wireType, t.rest, slots[i]);
            if d.None? then DecodeFields(fields, slots, seen, b).None?
            else
              && ShapedAll(fields, Stored(fields, slots, i, d.value.0))
              && DecodeFields(fields, slots, seen, b)
                 == DecodeFields(fields, Stored(fields, slots, i, d.value.0), Mark(fields, i, seen), d.value.1)
  {
    var t := PbDecoders.DecodeTag(b);
    assert ShapedSlot(fields[i], slots[i]) && WellFormedField(fields[i]);
    hide DecodeSlot, PbDecoders.SkipField, Mark;
    var d := DecodeSlot(fields[i], t.wireType, t.rest, slots[i]);
    if d.Some? {
      StoredShaped(fields, slots, i, d.value.0);
    }
  }

  // Whether the tracked required fields were all seen
  method CheckRequired(iter: FieldIter, seen: set<nat>) returns (ok: bool)
    requires iter.Valid()
    modifies iter
    ensures ok <==> forall k | 0 <= k < RequiredCount(iter.fields) :: k in seen
  {
    var count := iter.CountRequired();
    if count > PB_MAX_REQUIRED_FIELDS {
      count := PB_MAX_REQUIRED_FIELDS;
    }
    var i := 0;
    while i < count
      invariant 0 <= i <= count && forall k | 0 <= k < i :: k in seen
    {
      if i !in seen {
        return false;
      }
      i := i + 1;
    }
    return true;
  }

  // pb_decode on a buffer: the structure, and how many bytes of the buffer are left
  method DecodeBuffer(fields: seq<Field>, b: Bytes) returns (ok: bool, slots: seq<Slot>, left: nat)
    requires WellFormed(fields)
    ensures var d := Decode(fields, b);
            && (ok <==> d.Some?)
            && (ok ==> slots == d.value.0 && left == |d.value.1|)
    // It fails exactly on a record that cannot be read, or without one of the first 64 required fields.
    ensures ShapedAll(fields, Defaults(fields))
    ensures var r := ReadRecords(fields, Defaults(fields), b);
            && (ok <==> r.Some? && Complete(fields, r.value.tags))
            && (ok ==> slots == r.value.slots && left == |r.value.rest|)
    // What the encoder wrote is read to its end and gives the structure back.
    ensures forall written | Fits(fields, written) && b == EncodeFields(fields, written) ::
              ok && slots == CanonSlots(fields, written) && left == 0
  {
    DefaultsShaped(fields);
    forall written | Fits(fields, written) && b == EncodeFields(fields, written)
      ensures Decode(fields, b) == Some((CanonSlots(fields, written), []))
    {
      MessageRoundTrip(fields, written);
    }
    var s := new IStream(b, |b|);
    assert s.View() == b;
    ok, slots := DecodeMessage(s, fields, Defaults(fields));
    left := s.bytesLeft;
  }
}
