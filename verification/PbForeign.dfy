/** What the decoder makes of values that another writer sent: the exact condition under which
    each is taken, in numbers. */
module PbForeign {
  import opened InternalKeys
  import opened Coding
  import opened PbSchemas
  import opened PbDecoders
  import opened PbRoundTrips

  // ---- 32-bit varints of numbers beyond 32 bits

  // What may follow the five bytes that hold the low 35 bits: groups of seven zeros or ones, and
  // the top bit of 64 in a tenth byte.
  predicate Extends(m: nat, k: nat)
    requires k <= 9
    decreases 9 - k
  {
    if k == 9 then m == 1 else m >= 128 && (m % 128 == 0 || m % 128 == 127) && Extends(m / 128, k + 1)
  }

  lemma ExtendsMeans(m: nat)
    ensures Extends(m, 5) <==>
              && m / 128 / 128 / 128 / 128 == 1
              && m % 128 in {0, 127} && m / 128 % 128 in {0, 127}
              && m / 128 / 128 % 128 in {0, 127} && m / 128 / 128 / 128 % 128 in {0, 127}
  {
    assert Extends(m / 128 / 128 / 128, 8) <==>
             m / 128 / 128 / 128 >= 128 && m / 128 / 128 / 128 % 128 in {0, 127} && m / 128 / 128 / 128 / 128 == 1;
    assert Extends(m / 128 / 128, 7) <==>
             m / 128 / 128 >= 128 && m / 128 / 128 % 128 in {0, 127} && Extends(m / 128 / 128 / 128, 8);
    assert Extends(m / 128, 6) <==> m / 128 >= 128 && m / 128 % 128 in {0, 127} && Extends(m / 128 / 128, 7);
  }

  lemma TailStep(m: nat, k: nat, result: nat, rest: Bytes)
    requires 5 <= k && m > 0
    ensures MoreVarint32(Coding.Varint(m) + rest, k, result)
         == if m < 128 then (if result >= 0x8000_0000 && k >= 9 && m == 1 then Some((result, rest)) else None)
            else if m % 128 != 0 && (result < 0x8000_0000 || m % 128 != 127 || k >= 9) then None
            else MoreVarint32(Coding.Varint(m / 128) + rest, k + 1, result)
  {
    if m < 128 {
      assert Coding.Varint(m) == [m];
      LateByte(m, rest, k, result);
    } else {
      var low: Byte := 128 + m % 128;
      assert Coding.Varint(m) + rest == [low] + (Coding.Varint(m / 128) + rest);
      LateByte(low, Coding.Varint(m / 128) + rest, k, result);
    }
    hide Coding.Varint, MoreVarint32;
  }

  // A byte behind the fifth
  lemma LateByte(byte: Byte, rest: Bytes, k: nat, result: nat)
    requires k >= 5
    ensures MoreVarint32([byte] + rest, k, result)
         == if byte % 128 != 0 && (result < 0x8000_0000 || byte != if k < 9 then 255 else 1) then None
            else if byte >= 128 then MoreVarint32(rest, k + 1, result) else Some((result, rest))
  {
    assert ([byte] + rest)[1..] == rest;
    hide Pow128;
  }

  lemma {:induction false} Tail(m: nat, k: nat, result: nat, rest: Bytes)
    requires 5 <= k <= 9 && 0 < m < 2 * Pow128(9 - k)
    ensures MoreVarint32(Coding.Varint(m) + rest, k, result)
         == if result >= 0x8000_0000 && Extends(m, k) then Some((result, rest)) else None
    decreases 9 - k
  {
    TailStep(m, k, result, rest);
    hide Coding.Varint, MoreVarint32;
    if m >= 128 {
      assert k < 9 && Pow128(9 - k) == 128 * Pow128(8 - k);
      Tail(m / 128, k + 1, result, rest);
    }
  }

  // The low 35 bits: those above the 32nd are lost.
  lemma Head(u: nat, rest: Bytes)
    requires u >= 0x8_0000_0000
    ensures DecodeVarint32(Coding.Varint(u) + rest)
         == MoreVarint32(Coding.Varint(u / 0x8_0000_0000) + rest, 5, u % 0x1_0000_0000)
  {
    var m1: nat := u / 128;
    var m2: nat := m1 / 128;
    var m3: nat := m2 / 128;
    var m4: nat := m3 / 128;
    var m5: nat := m4 / 128;
    FirstGroup(u, rest);
    NextGroup(m1, 1, u % 128, rest);
    NextGroup(m2, 2, u % 128 + 128 * (m1 % 128), rest);
    NextGroup(m3, 3, u % 128 + 128 * (m1 % 128) + 16384 * (m2 % 128), rest);
    var low := u % 128 + 128 * (m1 % 128) + 16384 * (m2 % 128) + 2097152 * (m3 % 128);
    NextGroup(m4, 4, low, rest);
    hide *;
    Groups(u, low, m4);
  }

  lemma Groups(u: nat, low: nat, m: nat)
    requires u == low + 268435456 * m && low < 268435456
    ensures low + 268435456 * (m % 128) % 0x1_0000_0000 == u % 0x1_0000_0000
    ensures m / 128 == u / 0x8_0000_0000
  {
    var (q, r) := (m / 16, m % 16);
    FifthGroup(m % 128);
    SixteenOf(m);
    DivMod(u, 0x1_0000_0000, q, low + 268435456 * r);
    DivMod(u, 0x8_0000_0000, m / 128, low + 268435456 * (m % 128));
  }

  lemma SixteenOf(m: nat)
    ensures m % 128 % 16 == m % 16
  {
  }

  lemma DivMod(n: nat, d: nat, q: nat, r: nat)
    requires d > 0 && n == d * q + r && r < d
    ensures n / d == q && n % d == r
  {
    var p := n / d;
    assert n == d * p + n % d;
    assert d * (p - q) == r - n % d && d * (q - p) == n % d - r;
    if p > q {
      AtLeast(d, p - q);
    } else if p < q {
      AtLeast(d, q - p);
    }
  }

  lemma AtLeast(d: nat, k: nat)
    requires k >= 1
    ensures d * k >= d
  {
  }

  lemma FirstGroup(u: nat, rest: Bytes)
    requires u >= 128
    ensures DecodeVarint32(Coding.Varint(u) + rest) == MoreVarint32(Coding.Varint(u / 128) + rest, 1, u % 128)
  {
    assert (Coding.Varint(u) + rest)[1..] == Coding.Varint(u / 128) + rest;
    hide MoreVarint32;
  }

  lemma NextGroup(m: nat, k: nat, acc: nat, rest: Bytes)
    requires 1 <= k <= 4 && m >= 128
    ensures MoreVarint32(Coding.Varint(m) + rest, k, acc)
         == MoreVarint32(Coding.Varint(m / 128) + rest, k + 1,
                         acc + (if k == 1 then 128 * (m % 128) else if k == 2 then 16384 * (m % 128)
                                else if k == 3 then 2097152 * (m % 128) else 268435456 * (m % 128) % 0x1_0000_0000))
  {
    var low: Byte := 128 + m % 128;
    assert Coding.Varint(m) + rest == [low] + (Coding.Varint(m / 128) + rest);
    MoreStep(low, Coding.Varint(m / 128) + rest, k, acc);
    Pow128Values();
    hide *;
    if k < 4 {
      SmallGroup(m % 128, k);
    } else {
      assert m % 128 * Pow128(4) == 268435456 * (m % 128);
    }
  }

  // Of the fifth group only four bits stay.
  lemma FifthGroup(low: nat)
    requires low < 128
    ensures 268435456 * low % 0x1_0000_0000 == 268435456 * (low % 16)
  {
    DivMod(268435456 * low, 0x1_0000_0000, low / 16, 268435456 * (low % 16));
  }

  lemma SmallGroup(low: nat, k: nat)
    requires low < 128 && 1 <= k <= 3
    ensures low * Pow128(k) % 0x1_0000_0000
         == if k == 1 then 128 * low else if k == 2 then 16384 * low else 2097152 * low
  {
    Pow128Values();
  }

  // A number of 33 to 35 bits is refused in its fifth byte.
  lemma FiveBytes(u: nat, rest: Bytes)
    requires 0x1_0000_0000 <= u < 0x8_0000_0000
    ensures DecodeVarint32(Coding.Varint(u) + rest).None?
  {
    var m1: nat := u / 128;
    var m2: nat := m1 / 128;
    var m3: nat := m2 / 128;
    var m4: nat := m3 / 128;
    FirstGroup(u, rest);
    NextGroup(m1, 1, u % 128, rest);
    NextGroup(m2, 2, u % 128 + 128 * (m1 % 128), rest);
    NextGroup(m3, 3, u % 128 + 128 * (m1 % 128) + 16384 * (m2 % 128), rest);
    var low := u % 128 + 128 * (m1 % 128) + 16384 * (m2 % 128) + 2097152 * (m3 % 128);
    assert 16 <= m4 < 128;
    assert Coding.Varint(m4) == [m4];
    MoreStep(m4, rest, 4, low);
    hide Coding.Varint, MoreVarint32, DecodeVarint32;
  }

  // A shortest varint is taken as a 32-bit number exactly if it is one, or if it has ten bytes,
  // the 32nd bit is set and the bits above the 35th look like a sign extension, group by group.
  // The three bits between are not looked at.
  lemma Varint32Iff(u: Long, rest: Bytes)
    ensures DecodeVarint32(Coding.Varint(u) + rest)
         == if u < 0x1_0000_0000
               || (u >= 0x8_0000_0000 && u % 0x1_0000_0000 >= 0x8000_0000 && Extends(u / 0x8_0000_0000, 5))
            then Some((u % 0x1_0000_0000, rest)) else None
  {
    if u < 0x1_0000_0000 {
      Varint32Decodes(u, rest);
    } else if u < 0x8_0000_0000 {
      FiveBytes(u, rest);
    } else {
      Head(u, rest);
      Pow128Values();
      Tail(u / 0x8_0000_0000, 5, u % 0x1_0000_0000, rest);
    }
  }

  // ---- Numbers

  lemma BoolTaken(u: Word, rest: Bytes, old_: Datum)
    ensures DecodeValue(Bool, Coding.Varint(u) + rest, old_) == Some((Num(if u == 0 then 0 else 1), rest))
  {
    Varint32Decodes(u, rest);
    hide DecodeVarint32, Coding.Varint;
  }

  // An unsigned field of 1, 2, 4 or 8 bytes takes the numbers it can hold.
  lemma UnsignedTaken(w: Width, u: Long, rest: Bytes, old_: Datum)
    ensures DecodeValue(UVarint(w), Coding.Varint(u) + rest, old_)
         == if u < (match w case W8 => 256 case W16 => 65536 case W32 => 4294967296 case W64 => 18446744073709551616)
            then Some((Num(u), rest)) else None
  {
    Varint64RoundTrip(u, rest);
    hide GetVarint64, Coding.Varint;
  }

  // 0, 1, 2, 3 and so on stand for 0, -1, 1, -2 and so on.
  lemma ZigZagTaken(w: Width, u: Long, rest: Bytes, old_: Datum)
    ensures var n := if u % 2 == 0 then u / 2 else -(u / 2) - 1;
            DecodeValue(SVarint(w), Coding.Varint(u) + rest, old_)
            == if -SignedLimit(w) <= n < SignedLimit(w) then Some((Num(n), rest)) else None
  {
    Varint64RoundTrip(u, rest);
    hide GetVarint64, Coding.Varint, SignedLimit;
  }

  lemma SignedLimits(w: Width)
    ensures SignedLimit(w) == match w case W8 => 128 case W16 => 32768 case W32 => 2147483648 case W64 => 9223372036854775808
  {
  }

  // Any four or eight bytes are a word.
  lemma WordTaken(b: Bytes, rest: Bytes, old_: Datum)
    ensures |b| == 4 ==> DecodeValue(Fixed32, b + rest, old_) == Some((Num(LittleEndian(b)), rest))
    ensures |b| == 8 ==> DecodeValue(Fixed64, b + rest, old_) == Some((Num(LittleEndian(b)), rest))
  {
    if |b| == 4 {
      FourBytes(b);
      assert (b + rest)[..4] == b && (b + rest)[4..] == rest;
    } else if |b| == 8 {
      EightBytes(b);
      assert (b + rest)[..8] == b && (b + rest)[8..] == rest;
    }
    hide DecodeFixed32, DecodeFixed64, LittleEndian;
  }

  // ---- Bytes and strings

  // The length is a pb_size_t of one, two or four bytes.
  lemma SizeTypes(t: SizeType)
    ensures SizeMax(t) == if SizeBytes(t) == 1 then 255 else if SizeBytes(t) == 2 then 65535 else 4294967295
  {
  }

  // A bytes field takes what fits behind its length.
  lemma BytesTaken(size: nat, s: Bytes, rest: Bytes, old_: Datum)
    requires |s| < WORD_LIMIT
    ensures DecodeValue(BytesArray(size), Delimited(s) + rest, old_)
         == if |s| <= SizeMax(SIZE_TYPE) && SizeBytes(SIZE_TYPE) + |s| <= size then Some((Blob(s), rest)) else None
  {
    StringDecodes(s, rest);
    hide TakeString, Delimited;
  }

  // A string field takes what fits with its terminator, and keeps what lies before a zero byte.
  lemma StringTaken(size: nat, s: Bytes, rest: Bytes, old_: Datum) returns (kept: Bytes)
    requires |s| < WORD_LIMIT
    ensures kept <= s && 0 !in kept && (kept == s || s[|kept|] == 0)
    ensures DecodeValue(CString(size), Delimited(s) + rest, old_) == if |s| < size then Some((Blob(kept), rest)) else None
  {
    StringDecodes(s, rest);
    UpToZeroIs(s);
    kept := UpToZero(s);
    hide TakeString, Delimited;
  }

  lemma {:induction false} UpToZeroIs(s: Bytes)
    ensures UpToZero(s) <= s && (UpToZero(s) == s || s[|UpToZero(s)|] == 0)
  {
    if s != [] && s[0] != 0 {
      UpToZeroIs(s[1..]);
      assert s == [s[0]] + s[1..];
    }
  }

  // A field of fixed length takes that many bytes, or none for all zeros.
  lemma FixedBytesTaken(size: nat, s: Bytes, rest: Bytes, old_: Datum)
    requires |s| < WORD_LIMIT
    ensures DecodeValue(FixedBytes(size), Delimited(s) + rest, old_)
         == if s == [] then Some((Blob(seq(size, _ => 0)), rest))
            else if |s| == size && size <= SizeMax(SIZE_TYPE) then Some((Blob(s), rest))
            else None
  {
    StringDecodes(s, rest);
    hide TakeString, Delimited;
  }

  // ---- Fields that are not known

  // The value of an unknown field is passed over by its wire type; groups are refused.
  lemma Skipped(s: Bytes, n: nat, rest: Bytes)
    requires |s| < WORD_LIMIT
    ensures SkipField(0, Coding.Varint(n) + rest) == Some(rest)
    ensures |s| == 8 ==> SkipField(1, s + rest) == Some(rest)
    ensures SkipField(2, Delimited(s) + rest) == Some(rest)
    ensures |s| == 4 ==> SkipField(5, s + rest) == Some(rest)
    ensures SkipField(3, rest).None? && SkipField(4, rest).None? && SkipField(6, rest).None? && SkipField(7, rest).None?
  {
    SkipsVarint(n, rest);
    StringDecodes(s, rest);
    assert |s| == 8 ==> (s + rest)[8..] == rest;
    assert |s| == 4 ==> (s + rest)[4..] == rest;
    hide SkipVarint, TakeString, Delimited, Coding.Varint;
  }

  // What is cut short is refused.
  lemma CutShort(b: Bytes)
    ensures |b| < 8 ==> SkipField(1, b).None?
    ensures |b| < 4 ==> SkipField(5, b).None?
    ensures (forall i | 0 <= i < |b| :: b[i] >= 128) ==> SkipField(0, b).None?
  {
    if forall i | 0 <= i < |b| :: b[i] >= 128 {
      Unended(b);
    }
  }

  lemma {:induction false} Unended(b: Bytes)
    requires forall i | 0 <= i < |b| :: b[i] >= 128
    ensures SkipVarint(b).None?
  {
    if b != [] {
      Unended(b[1..]);
    }
  }

  // ---- Repeated fields and defaults

  // A full array takes no further item.
  lemma FullArray(f: Field, wireType: nat, b: Bytes, s: Slot)
    requires ShapedSlot(f, s) && WellFormedField(f) && f.rule.Repeated? && |s.items| >= f.rule.arraySize
    ensures !(wireType == 2 && Packable(f.ltype)) ==> DecodeSlot(f, wireType, b, s).None?
    ensures wireType == 2 && Packable(f.ltype) ==>
              (DecodeSlot(f, wireType, b, s).Some? ==> TakeString(b).Some? && TakeString(b).value.0 == [])
  {
    hide DecodeValue, TakeString;
    var t := TakeString(b);
    if wireType == 2 && Packable(f.ltype) && t.Some? && t.value.0 != [] {
      assert DecodePacked(f.ltype, t.value.0, s.items, f.rule.arraySize).None?;
    }
  }

  // Before decoding, an optional value is absent, an array empty and a union unset, and what is
  // not a message holds its default.
  lemma DefaultsAre(fields: seq<Field>, i: nat)
    requires i < |fields|
    ensures var (f, s) := (fields[i], Defaults(fields)[i]);
            && (f.rule.Required? && !f.ltype.Submessage? ==> s == One(f.initial))
            && (f.rule.Optional? && !f.ltype.Submessage? ==> s == Maybe(false, f.initial))
            && (f.rule.Optional? && f.ltype.Submessage? ==> s == Maybe(false, Msg(Defaults(f.ltype.fields))))
            && (f.rule.Repeated? ==> s == Many([]))
            && (f.rule.OneOf? ==> s == Choice(None))
  {
    var f := fields[i];
    assert Defaults(fields)[i] == DefaultSlot(f);
    assert !f.ltype.Submessage? ==> Initial(f) == f.initial;
    assert f.ltype.Submessage? ==> Initial(f) == Msg(Defaults(f.ltype.fields));
  }
}
