/** The nanopb decoder on input streams: reading consumes the stream in place, a substream limits
    it, and the message loop walks the fields with its iterator. */
module PbStreams {
  import opened InternalKeys
  import opened Coding
  import opened PbSchemas
  import PbDecoders

  // The buffer from the read position on, of which bytesLeft may be read.
  class IStream {
    var state: Bytes
    var bytesLeft: nat

    ghost predicate Valid()
      reads this
    {
      bytesLeft <= |state|
    }

    ghost function View(): Bytes
      reads this
      requires Valid()
    {
      state[..bytesLeft]
    }

    ghost function Beyond(): Bytes
      reads this
      requires Valid()
    {
      state[bytesLeft..]
    }

    constructor (state: Bytes, bytesLeft: nat)
      requires bytesLeft <= |state|
      ensures Valid() && this.state == state && this.bytesLeft == bytesLeft
    {
      this.state, this.bytesLeft := state, bytesLeft;
    }
  }

  // Reading has left these bytes of what could be read, and touched nothing behind them.
  twostate predicate Leaves(s: IStream, rest: Bytes)
    requires old(s.Valid())
    reads s
  {
    s.Valid() && s.View() == rest && s.Beyond() == old(s.Beyond())
  }

  method ReadByte(s: IStream) returns (ok: bool, byte: Byte)
    requires s.Valid()
    modifies s
    ensures ok <==> old(s.View()) != []
    ensures if ok then byte == old(s.View())[0] && Leaves(s, old(s.View())[1..]) else Leaves(s, old(s.View()))
  {
    if s.bytesLeft == 0 {
      return false, 0;
    }
    byte := s.state[0];
    s.state := s.state[1..];
    s.bytesLeft := s.bytesLeft - 1;
    ok := true;
  }

  method Read(s: IStream, count: nat) returns (ok: bool, b: Bytes)
    requires s.Valid()
    modifies s
    ensures ok <==> count <= |old(s.View())|
    ensures ok ==> b == old(s.View())[..count] && Leaves(s, old(s.View())[count..])
  {
    if s.bytesLeft < count {
      return false, [];
    }
    b := s.state[..count];
    s.state := s.state[count..];
    s.bytesLeft := s.bytesLeft - count;
    ok := true;
  }

  // pb_decode_varint32_eof
  method DecodeVarint32(s: IStream) returns (ok: bool, value: nat, eof: bool)
    requires s.Valid()
    modifies s
    ensures (eof <==> old(s.View()) == []) && (eof ==> Leaves(s, []))
    ensures var r := PbDecoders.DecodeVarint32(old(s.View()));
            && (ok <==> r.Some?)
            && (ok ==> value == r.value.0 && Leaves(s, r.value.1))
  {
    ghost var target := PbDecoders.DecodeVarint32(s.View());
    var byte: int;
    ok, byte := ReadByte(s);
    if !ok {
      return false, 0, s.bytesLeft == 0;
    }
    eof := false;
    if byte < 128 {
      return true, byte, false;
    }
    var k := 1;
    value := byte % 128;
    while byte >= 128
      invariant k >= 1 && s.Valid() && s.Beyond() == old(s.Beyond()) && 0 <= byte < 256
      invariant byte >= 128 ==> PbDecoders.MoreVarint32(s.View(), k, value) == target
      invariant byte < 128 ==>
        target == if k == 5 && byte / 16 % 8 != 0 then None else Some((value, s.View()))
      decreases byte >= 128, s.bytesLeft
    {
      ok, byte := ReadByte(s);
      if !ok {
        return false, 0, false;
      }
      if 7 * k >= 32 {
        var signExtension := if 7 * k < 63 then 0xFF else 0x01;
        if byte % 128 != 0 && (value < 0x8000_0000 || byte != signExtension) {
          return false, 0, false;
        }
      } else {
        value := value + byte % 128 * Pow128(k) % WORD_LIMIT;
      }
      k := k + 1;
    }
    ok := !(k == 5 && byte / 16 % 8 != 0);
  }

  // A varint's value on top of the k groups already read
  ghost function Scaled(t: Option<(nat, Bytes)>, k: nat, result: nat): Option<(nat, Bytes)> {
    if t.None? then None else Some((result + Pow128(k) * t.value.0, t.value.1))
  }

  function GroupValue(k: nat, byte: nat): nat { Pow128(k) * (byte % 128) }

  lemma ScaledStep(b: Bytes, most: nat, k: nat, result: nat)
    ensures Scaled(TakeVarint(b, most), k, result)
         == if b == [] || most == 0 then None
            else if b[0] < 128 then Some((result + GroupValue(k, b[0]), b[1..]))
            else Scaled(TakeVarint(b[1..], most - 1), k + 1, result + GroupValue(k, b[0]))
  {
    if b != [] && most > 0 {
      var rest := TakeVarint(b[1..], most - 1);
      if rest.Some? {
        Distribute(Pow128(k), b[0] % 128, rest.value.0);
      }
    }
  }

  lemma Distribute(p: nat, low: nat, v: nat)
    ensures p * (low + 128 * v) == p * low + 128 * p * v
  {
  }

  // pb_decode_varint
  method DecodeVarint64(s: IStream) returns (ok: bool, value: nat)
    requires s.Valid()
    modifies s
    ensures var r := GetVarint64(old(s.View()));
            && (ok <==> r.Some?)
            && (ok ==> value == r.value.0 && Leaves(s, r.value.1))
  {
    ghost var target := TakeVarint(s.View(), 10);
    assert Scaled(target, 0, 0) == target;
    hide Scaled, TakeVarint, GroupValue;
    var k := 0;
    var result: nat := 0;
    var byte: int := 128;
    while byte >= 128
      invariant 0 <= k <= 10 && s.Valid() && s.Beyond() == old(s.Beyond()) && 0 <= result
      invariant byte >= 128 ==> target == Scaled(TakeVarint(s.View(), 10 - k), k, result)
      invariant byte < 128 ==> target == Some((result, s.View()))
      decreases byte >= 128, s.bytesLeft
    {
      ScaledStep(s.View(), 10 - k, k, result);
      if 7 * k >= 64 {
        return false, 0;
      }
      ok, byte := ReadByte(s);
      if !ok {
        return false, 0;
      }
      result := result + GroupValue(k, byte);
      k := k + 1;
    }
    return true, result % LONG_LIMIT;
  }

  // pb_decode_tag
  method DecodeTag(s: IStream) returns (ok: bool, wireType: nat, number: nat, eof: bool)
    requires s.Valid()
    modifies s
    ensures match PbDecoders.DecodeTag(old(s.View()))
            case Eof(rest) => !ok && eof && Leaves(s, rest)
            case Malformed => !ok && !eof
            case Tag(w, n, rest) => ok && wireType == w && number == n && Leaves(s, rest)
  {
    var temp;
    ok, temp, eof := DecodeVarint32(s);
    if !ok {
      return false, 0, 0, eof;
    }
    if temp == 0 {
      return false, 0, 0, true;
    }
    return true, temp % 8, temp / 8, false;
  }

  // pb_skip_field
  method SkipField(s: IStream, wireType: nat) returns (ok: bool)
    requires s.Valid()
    modifies s
    ensures var r := PbDecoders.SkipField(wireType, old(s.View()));
            && (ok <==> r.Some?)
            && (ok ==> Leaves(s, r.value))
  {
    var bytes;
    if wireType == WT_VARINT {
      ok := SkipVarint(s);
    } else if wireType == WT_64BIT {
      ok, bytes := Read(s, 8);
    } else if wireType == WT_STRING {
      var length, eof;
      ok, length, eof := DecodeVarint32(s);
      if ok {
        ok, bytes := Read(s, length);
      }
    } else if wireType == WT_32BIT {
      ok, bytes := Read(s, 4);
    } else {
      ok := false;
    }
  }

  method SkipVarint(s: IStream) returns (ok: bool)
    requires s.Valid()
    modifies s
    ensures var r := PbDecoders.SkipVarint(old(s.View()));
            && (ok <==> r.Some?)
            && (ok ==> Leaves(s, r.value))
  {
    ghost var target := PbDecoders.SkipVarint(s.View());
    var byte: int := 128;
    while byte >= 128
      invariant s.Valid() && s.Beyond() == old(s.Beyond())
      invariant target == if byte >= 128 then PbDecoders.SkipVarint(s.View()) else Some(s.View())
      decreases byte >= 128, s.bytesLeft
    {
      ok, byte := ReadByte(s);
      if !ok {
        return false;
      }
    }
    ok := true;
  }

  // pb_make_string_substream: until it is closed, the stream stands where the substream began.
  method MakeSubstream(s: IStream) returns (ok: bool, sub: IStream)
    requires s.Valid()
    modifies s
    ensures fresh(sub)
    ensures var r := PbDecoders.TakeString(old(s.View()));
            && (ok <==> r.Some?)
            && (ok ==> s.Valid() && sub.Valid() && sub.View() == r.value.0 && s.bytesLeft == |r.value.1|
                       && sub.Beyond() == r.value.1 + old(s.Beyond()))
  {
    var size, eof;
    ok, size, eof := DecodeVarint32(s);
    if !ok || s.bytesLeft < size {
      sub := new IStream([], 0);
      return false, sub;
    }
    ghost var view := s.View();
    sub := new IStream(s.state, size);
    s.bytesLeft := s.bytesLeft - size;
    assert sub.View() == view[..size];
    assert s.state == view + old(s.Beyond()) && view == view[..size] + view[size..];
    assert sub.Beyond() == view[size..] + old(s.Beyond());
  }

  // pb_close_string_substream
  method CloseSubstream(s: IStream, sub: IStream, ghost rest: Bytes, ghost beyond: Bytes)
    requires s != sub && s.Valid() && sub.Valid() && sub.Beyond() == rest + beyond && s.bytesLeft == |rest|
    modifies s, sub
    ensures s.Valid() && s.View() == rest && s.Beyond() == beyond
  {
    if sub.bytesLeft != 0 {
      var ok, _ := Read(sub, sub.bytesLeft);
    }
    assert sub.state == sub.View() + sub.Beyond();
    s.state := sub.state;
    assert s.state == rest + beyond;
  }

  // Length-prefixed bytes read in full
  method ReadString(s: IStream, most: nat) returns (ok: bool, b: Bytes)
    requires s.Valid()
    modifies s
    ensures var r := PbDecoders.TakeString(old(s.View()));
            && (ok <==> r.Some? && |r.value.0| <= most)
            && (ok ==> b == r.value.0 && Leaves(s, r.value.1))
  {
    var size, eof;
    ok, size, eof := DecodeVarint32(s);
    if !ok || size > most {
      return false, [];
    }
    ok, b := Read(s, size);
  }
}
