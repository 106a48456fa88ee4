/** Bytes, little-endian words, variable-length integers and length-prefixed strings. */
module Coding {
  import opened InternalKeys

  type Byte = b: int | 0 <= b < 256
  type Bytes = seq<Byte>

  const WORD_LIMIT := 0x1_0000_0000
  const LONG_LIMIT := 0x1_0000_0000_0000_0000

  type Word = n: nat | n < WORD_LIMIT
  type Long = n: nat | n < LONG_LIMIT

  function Fixed32(n: Word): (r: Bytes)
    ensures |r| == 4
  {
    [n % 256, n / 256 % 256, n / 256 / 256 % 256, n / 256 / 256 / 256]
  }

  function DecodeFixed32(b: Bytes): nat
    requires |b| == 4
  {
    var (b0: int, b1: int, b2: int, b3: int) := (b[0], b[1], b[2], b[3]);
    b0 + 256 * b1 + 65536 * b2 + 16777216 * b3
  }

  lemma Fixed32RoundTrip(n: Word)
    ensures DecodeFixed32(Fixed32(n)) == n
  {
    var hints := (n / 256, n / 256 / 256, n / 256 / 256 / 256);
  }

  function Fixed64(n: Long): (r: Bytes)
    ensures |r| == 8
  {
    Fixed32(n % WORD_LIMIT) + Fixed32(n / WORD_LIMIT)
  }

  function DecodeFixed64(b: Bytes): nat
    requires |b| == 8
  {
    DecodeFixed32(b[..4]) + WORD_LIMIT * DecodeFixed32(b[4..])
  }

  lemma Fixed64RoundTrip(n: Long)
    ensures DecodeFixed64(Fixed64(n)) == n
  {
    Fixed32RoundTrip(n % WORD_LIMIT);
    Fixed32RoundTrip(n / WORD_LIMIT);
    assert Fixed64(n)[..4] == Fixed32(n % WORD_LIMIT) && Fixed64(n)[4..] == Fixed32(n / WORD_LIMIT);
  }

  // ---- Variable-length integers: seven bits a byte, least significant first

  function Varint(n: nat): (r: Bytes)
    ensures r != []
  {
    if n < 128 then [n] else [128 + n % 128] + Varint(n / 128)
  }

  // A varint of at most so many bytes at the front, before truncation to a word size.
  function TakeVarint(b: Bytes, most: nat): (r: Option<(nat, Bytes)>)
    ensures r.Some? ==> |r.value.1| < |b|
    decreases most
  {
    if most == 0 || b == [] then None
    else
      var first: int := b[0];
      if first < 128 then Some((first, b[1..]))
      else
        var rest := TakeVarint(b[1..], most - 1);
        if rest.None? then None else Some((first - 128 + 128 * rest.value.0, rest.value.1))
  }

  function Pow128(n: nat): nat {
    if n == 0 then 1 else 128 * Pow128(n - 1)
  }

  lemma {:induction false} TakeVarintRoundTrip(n: nat, most: nat, rest: Bytes)
    requires most > 0 && n < Pow128(most)
    ensures TakeVarint(Varint(n) + rest, most) == Some((n, rest))
    decreases most
  {
    if n < 128 {
      assert (Varint(n) + rest)[1..] == rest;
    } else {
      assert (Varint(n) + rest)[1..] == Varint(n / 128) + rest;
      TakeVarintRoundTrip(n / 128, most - 1, rest);
    }
  }

  // A varint cut short is not taken for another one.
  lemma {:induction false} CutVarint(n: nat, most: nat, k: nat)
    requires k < |Varint(n)|
    ensures TakeVarint(Varint(n)[..k], most).None?
    decreases most
  {
    if most > 0 && k > 0 {
      assert Varint(n)[..k][1..] == Varint(n / 128)[..k - 1];
      CutVarint(n / 128, most - 1, k - 1);
    }
  }

  // The high bits of a fifth byte are lost.
  function GetVarint32(b: Bytes): (r: Option<(Word, Bytes)>)
    ensures r.Some? ==> |r.value.1| < |b|
  {
    var t := TakeVarint(b, 5);
    if t.None? then None else Some((t.value.0 % WORD_LIMIT, t.value.1))
  }

  function GetVarint64(b: Bytes): (r: Option<(Long, Bytes)>)
    ensures r.Some? ==> |r.value.1| < |b|
  {
    var t := TakeVarint(b, 10);
    if t.None? then None else Some((t.value.0 % LONG_LIMIT, t.value.1))
  }

  lemma Truncated32(b: Bytes, n: Word, rest: Bytes)
    requires TakeVarint(b, 5) == Some((n, rest))
    ensures GetVarint32(b) == Some((n, rest))
  {
  }

  lemma Truncated64(b: Bytes, n: Long, rest: Bytes)
    requires TakeVarint(b, 10) == Some((n, rest))
    ensures GetVarint64(b) == Some((n, rest))
  {
  }

  // Five groups of seven bits hold a word, ten a long word.
  lemma LargestGroups()
    ensures Pow128(5) == 34359738368 > WORD_LIMIT && Pow128(10) == 1180591620717411303424 > LONG_LIMIT
  {
    assert Pow128(1) == 128;
    assert Pow128(2) == 16384;
    assert Pow128(3) == 2097152;
    assert Pow128(4) == 268435456;
    assert Pow128(6) == 4398046511104;
    assert Pow128(7) == 562949953421312;
    assert Pow128(8) == 72057594037927936;
    assert Pow128(9) == 9223372036854775808;
  }

  lemma Varint32RoundTrip(n: Word, rest: Bytes)
    ensures GetVarint32(Varint(n) + rest) == Some((n, rest))
  {
    LargestGroups();
    hide *;
    TakeVarintRoundTrip(n, 5, rest);
    Truncated32(Varint(n) + rest, n, rest);
  }

  lemma Varint64RoundTrip(n: Long, rest: Bytes)
    ensures GetVarint64(Varint(n) + rest) == Some((n, rest))
  {
    LargestGroups();
    hide *;
    TakeVarintRoundTrip(n, 10, rest);
    Truncated64(Varint(n) + rest, n, rest);
  }

  // ---- Length-prefixed strings

  function Prefixed(s: Bytes): Bytes
    requires |s| < WORD_LIMIT
  {
    Varint(|s|) + s
  }

  function GetPrefixed(b: Bytes): (r: Option<(Bytes, Bytes)>)
    ensures r.Some? ==> |r.value.1| < |b|
  {
    var n := GetVarint32(b);
    if n.None? || |n.value.1| < n.value.0 then None
    else Some((n.value.1[..n.value.0], n.value.1[n.value.0..]))
  }

  lemma PrefixedRoundTrip(s: Bytes, rest: Bytes)
    requires |s| < WORD_LIMIT
    ensures GetPrefixed(Prefixed(s) + rest) == Some((s, rest))
  {
    assert Prefixed(s) + rest == Varint(|s|) + (s + rest);
    Varint32RoundTrip(|s|, s + rest);
    assert (s + rest)[..|s|] == s && (s + rest)[|s|..] == rest;
  }

  // A string cut short is not taken for another one.
  lemma CutPrefixed(s: Bytes, k: nat)
    requires |s| < WORD_LIMIT && k < |Prefixed(s)|
    ensures GetPrefixed(Prefixed(s)[..k]).None?
  {
    var head := Varint(|s|);
    if k < |head| {
      assert Prefixed(s)[..k] == head[..k];
      CutVarint(|s|, 5, k);
    } else {
      assert Prefixed(s)[..k] == head + s[..k - |head|];
      Varint32RoundTrip(|s|, s[..k - |head|]);
    }
  }

  // ---- What the bytes are, in numbers

  // Seven bits a byte, least significant first
  function Base128(b: Bytes): nat {
    if b == [] then 0 else b[0] % 128 + 128 * Base128(b[1..])
  }

  // The continuation bit is set on every byte but the last, the groups make up the number, and
  // no shorter bytes do.
  lemma {:induction false} VarintInGroups(n: nat)
    ensures var b := Varint(n);
            && Base128(b) == n && b[|b| - 1] < 128 && (forall i :: 0 <= i < |b| - 1 ==> b[i] >= 128)
            && (|b| > 1 ==> b[|b| - 1] > 0)
  {
    if n >= 128 {
      VarintInGroups(n / 128);
      var b := Varint(n);
      assert b[1..] == Varint(n / 128);
    } else {
      assert Base128([n][1..]) == 0;
    }
  }

  // What is read: up to the first byte without the continuation bit, overlong or not.
  lemma {:induction false} TakeVarintIs(b: Bytes, n: nat, most: nat)
    requires 0 < n <= most && n <= |b| && b[n - 1] < 128 && forall i :: 0 <= i < n - 1 ==> b[i] >= 128
    ensures TakeVarint(b, most) == Some((Base128(b[..n]), b[n..]))
    decreases n
  {
    assert b[..n][1..] == b[1..][..n - 1] && b[..n][0] == b[0];
    if n > 1 {
      TakeVarintIs(b[1..], n - 1, most - 1);
      assert b[1..][n - 1..] == b[n..];
    } else {
      assert Base128(b[..n][1..]) == 0;
    }
  }

  // Five bytes, or ten, that all have it are refused, and so is the end of the input before one
  // that has not.
  lemma {:induction false} NoLastByte(b: Bytes, most: nat)
    requires forall i :: 0 <= i < most && i < |b| ==> b[i] >= 128
    ensures TakeVarint(b, most).None?
    decreases most
  {
    if most > 0 && b != [] {
      NoLastByte(b[1..], most - 1);
    }
  }

  lemma VarintsTaken(b: Bytes, n: nat)
    requires n <= |b| && forall i :: 0 <= i < n ==> b[i] >= 128
    ensures n >= 5 || n == |b| ==> GetVarint32(b).None?
    ensures n >= 10 || n == |b| ==> GetVarint64(b).None?
    ensures n < 5 && n < |b| && b[n] < 128 ==> GetVarint32(b) == Some((Base128(b[..n + 1]) % 0x1_0000_0000, b[n + 1..]))
    ensures n < 10 && n < |b| && b[n] < 128 ==>
              GetVarint64(b) == Some((Base128(b[..n + 1]) % 0x1_0000_0000_0000_0000, b[n + 1..]))
  {
    if n >= 5 || n == |b| {
      NoLastByte(b, 5);
    } else if b[n] < 128 {
      TakeVarintIs(b, n + 1, 5);
    }
    if n >= 10 || n == |b| {
      NoLastByte(b, 10);
    } else if b[n] < 128 {
      TakeVarintIs(b, n + 1, 10);
    }
    hide TakeVarint, Base128;
  }

  lemma SmallVarint(n: nat)
    requires n < 128
    ensures Varint(n) == [n]
  {
  }

  function LittleEndian(b: Bytes): nat {
    if b == [] then 0 else var low: int := b[0]; low + 256 * LittleEndian(b[1..])
  }

  lemma FourBytes(b: Bytes)
    requires |b| == 4
    ensures LittleEndian(b) == DecodeFixed32(b)
  {
    LittleEndianJoins(b, []);
    assert b + [] == b;
  }

  lemma LittleEndianJoins(a: Bytes, b: Bytes)
    requires |a| == 4
    ensures LittleEndian(a + b) == DecodeFixed32(a) + 4294967296 * LittleEndian(b)
  {
    var c := a + b;
    LittleEndianFront(c);
    LittleEndianFront(c[1..]);
    LittleEndianFront(c[2..]);
    LittleEndianFront(c[3..]);
    assert c[1..][1..] == c[2..] && c[2..][1..] == c[3..] && c[3..][1..] == b;
    hide LittleEndian;
  }

  lemma EightBytes(b: Bytes)
    requires |b| == 8
    ensures LittleEndian(b) == DecodeFixed64(b)
  {
    LittleEndianJoins(b[..4], b[4..]);
    FourBytes(b[4..]);
    assert b[..4] + b[4..] == b;
  }

  lemma LittleEndianFront(b: Bytes)
    requires b != []
    ensures LittleEndian(b) == b[0] as int + 256 * LittleEndian(b[1..])
  {
  }

  lemma Word32Bytes(n: Word)
    ensures |Fixed32(n)| == 4 && LittleEndian(Fixed32(n)) == n
  {
    FourBytes(Fixed32(n));
    Fixed32RoundTrip(n);
  }

  lemma Word64Bytes(n: Long)
    ensures |Fixed64(n)| == 8 && LittleEndian(Fixed64(n)) == n
  {
    Word32Bytes(n % WORD_LIMIT);
    Word32Bytes(n / WORD_LIMIT);
    LittleEndianJoins(Fixed32(n % WORD_LIMIT), Fixed32(n / WORD_LIMIT));
  }
}
