/** Big-endian 32-byte words, UTF-8, and the two integer readers built on them. */
module Words {
  import opened Text

  type Word = w: seq<Byte> | |w| == 32 witness seq(32, i => 0)

  type Address20 = a: seq<Byte> | |a| == 20 witness seq(20, i => 0)

  // ---------------------------------------------------------------- big-endian integers

  function Pow256(n: nat): (p: nat)
    ensures p > 0
  {
    if n == 0 then 1 else 256 * Pow256(n - 1)
  }

  /** `to_be_bytes`: the low n bytes of v, most significant first. */
  function BigEndian(v: nat, n: nat): (b: seq<Byte>)
    ensures |b| == n
  {
    if n == 0 then [] else BigEndian(v / 256, n - 1) + [v % 256]
  }

  /** `from_be_bytes`. */
  function FromBigEndian(b: seq<Byte>): (v: nat) {
    if b == [] then 0 else 256 * FromBigEndian(b[..|b| - 1]) + b[|b| - 1]
  }

  lemma {:induction false} FromBigEndianBound(b: seq<Byte>)
    ensures FromBigEndian(b) < Pow256(|b|)
  {
    if b != [] {
      FromBigEndianBound(b[..|b| - 1]);
    }
  }

  lemma {:induction false} FromOfBigEndian(v: nat, n: nat)
    requires v < Pow256(n)
    ensures FromBigEndian(BigEndian(v, n)) == v
  {
    if n > 0 {
      assert v / 256 < Pow256(n - 1);
      FromOfBigEndian(v / 256, n - 1);
      var b := BigEndian(v, n);
      assert b[..|b| - 1] == BigEndian(v / 256, n - 1);
    }
  }

  lemma {:induction false} BigEndianOfFrom(b: seq<Byte>)
    ensures BigEndian(FromBigEndian(b), |b|) == b
  {
    if b != [] {
      BigEndianOfFrom(b[..|b| - 1]);
      var v := FromBigEndian(b);
      assert v / 256 == FromBigEndian(b[..|b| - 1]) && v % 256 == b[|b| - 1];
      assert b == b[..|b| - 1] + [b[|b| - 1]];
    }
  }

  lemma BoundsAsPowers()
    ensures Pow256(8) == U64_BOUND && Pow256(16) == U128_BOUND
  {
  }

  // ---------------------------------------------------------------- ABI words

  function Zeros(n: nat): (z: seq<Byte>)
    ensures |z| == n
  {
    seq(n, i => 0)
  }

  /** `encode_u256` / `encode_u128`: a u128 right-aligned in a word. */
  function EncodeU256(v: U128): (w: Word) {
    Zeros(16) + BigEndian(v, 16)
  }

  function EncodeU64(v: U64): (w: Word) {
    Zeros(24) + BigEndian(v, 8)
  }

  function EncodeAddress(a: Address20): (w: Word) {
    Zeros(12) + a
  }

  function EncodeBool(b: bool): (w: Word) {
    Zeros(31) + [if b then 1 else 0]
  }

  datatype WordError = WrongLength | UpperBitsSet

  /** `decode_uint256_low128` as a value: the word must have a zero upper half. */
  function DecodeUint256Low128(bytes: seq<Byte>): (r: Result<U128, WordError>) {
    if |bytes| != 32 then Err(WrongLength)
    else if bytes[..16] != Zeros(16) then Err(UpperBitsSet)
    else
      FromBigEndianBound(bytes[16..]);
      BoundsAsPowers();
      Ok(FromBigEndian(bytes[16..]))
  }

  /** The reader accepts exactly the words `encode_u256` writes, and reads back what was written. */
  lemma Uint256ReaderExact(bytes: seq<Byte>, v: U128)
    ensures DecodeUint256Low128(bytes) == Ok(v) <==> bytes == EncodeU256(v)
  {
    BoundsAsPowers();
    FromOfBigEndian(v, 16);
    if bytes == EncodeU256(v) {
      assert bytes[..16] == Zeros(16) && bytes[16..] == BigEndian(v, 16);
    }
    if DecodeUint256Low128(bytes) == Ok(v) {
      BigEndianOfFrom(bytes[16..]);
      assert bytes == bytes[..16] + bytes[16..];
    }
  }

  /** The byte loop and the array copy of `decode_uint256_low128`. */
  method ReadUint256Low128(bytes: seq<Byte>) returns (r: Result<U128, WordError>)
    ensures r == DecodeUint256Low128(bytes)
    ensures r.Err? <==> |bytes| != 32 || exists i :: 0 <= i < 16 && bytes[i] != 0
  {
    if |bytes| != 32 {
      return Err(WrongLength);
    }
    var i := 0;
    while i < 16
      invariant 0 <= i <= 16
      invariant forall k :: 0 <= k < i ==> bytes[k] == 0
    {
      if bytes[i] != 0 {
        assert bytes[..16][i] != Zeros(16)[i];
        return Err(UpperBitsSet);
      }
      i := i + 1;
    }
    assert bytes[..16] == Zeros(16);
    var low := new Byte[16];
    forall k | 0 <= k < 16 {
      low[k] := bytes[16 + k];
    }
    assert low[..] == bytes[16..];
    FromBigEndianBound(low[..]);
    BoundsAsPowers();
    return Ok(FromBigEndian(low[..]));
  }

  lemma EncodeU256Injective(a: U128, b: U128)
    requires EncodeU256(a) == EncodeU256(b)
    ensures a == b
  {
    Uint256ReaderExact(EncodeU256(a), a);
    Uint256ReaderExact(EncodeU256(b), b);
  }

  lemma EncodeU64Injective(a: U64, b: U64)
    requires EncodeU64(a) == EncodeU64(b)
    ensures a == b
  {
    BoundsAsPowers();
    ConcatUnique(Zeros(24), BigEndian(a, 8), Zeros(24), BigEndian(b, 8));
    FromOfBigEndian(a, 8);
    FromOfBigEndian(b, 8);
  }

  lemma EncodeAddressInjective(a: Address20, b: Address20)
    requires EncodeAddress(a) == EncodeAddress(b)
    ensures a == b
  {
    ConcatUnique(Zeros(12), a, Zeros(12), b);
  }

  lemma EncodeBoolInjective(a: bool, b: bool)
    requires EncodeBool(a) == EncodeBool(b)
    ensures a == b
  {
    assert EncodeBool(a)[31] == EncodeBool(b)[31];
  }

  // ---------------------------------------------------------------- UTF-8

  /** `as_bytes` of one scalar value. */
  function Utf8Char(c: char): (b: seq<Byte>)
    ensures |b| > 0
  {
    var v := c as int;
    if v < 0x80 then [v]
    else if v < 0x800 then [0xC0 + v / 0x40, 0x80 + v % 0x40]
    else if v < 0x1_0000 then [0xE0 + v / 0x1000, 0x80 + v / 0x40 % 0x40, 0x80 + v % 0x40]
    else [0xF0 + v / 0x4_0000, 0x80 + v / 0x1000 % 0x40, 0x80 + v / 0x40 % 0x40, 0x80 + v % 0x40]
  }

  function Utf8(s: string): (b: seq<Byte>) {
    if s == "" then [] else Utf8Char(s[0]) + Utf8(s[1..])
  }

  /** Reads the scalar value at the head of well-formed UTF-8. */
  function Utf8HeadValue(b: seq<Byte>): (v: int)
    requires |b| > 0
  {
    var at := (i: nat) => if i < |b| then b[i] as int - 0x80 else -1;
    if b[0] < 0x80 then b[0]
    else if b[0] < 0xE0 then (at(0) - 0x40) * 0x40 + at(1)
    else if b[0] < 0xF0 then (at(0) - 0x60) * 0x1000 + at(1) * 0x40 + at(2)
    else (at(0) - 0x70) * 0x4_0000 + at(1) * 0x1000 + at(2) * 0x40 + at(3)
  }

  lemma SixBitGroups(v: nat)
    ensures v == v / 0x40 * 0x40 + v % 0x40
    ensures v / 0x40 == v / 0x1000 * 0x40 + v / 0x40 % 0x40
    ensures v / 0x1000 == v / 0x4_0000 * 0x40 + v / 0x1000 % 0x40
  {
  }

  lemma Utf8HeadReads(c: char, rest: seq<Byte>)
    ensures Utf8HeadValue(Utf8Char(c) + rest) == c as int
  {
    SixBitGroups(c as int);
    var b := Utf8Char(c) + rest;
    assert forall i :: 0 <= i < |Utf8Char(c)| ==> b[i] == Utf8Char(c)[i];
  }

  /** Different strings never share their UTF-8 bytes. */
  lemma {:induction false} Utf8Injective(s: string, t: string)
    requires Utf8(s) == Utf8(t)
    ensures s == t
    decreases |s|
  {
    if s != "" && t != "" {
      Utf8HeadReads(s[0], Utf8(s[1..]));
      Utf8HeadReads(t[0], Utf8(t[1..]));
      assert s[0] == t[0];
      ConcatUnique(Utf8Char(s[0]), Utf8(s[1..]), Utf8Char(t[0]), Utf8(t[1..]));
      Utf8Injective(s[1..], t[1..]);
      assert s == [s[0]] + s[1..] && t == [t[0]] + t[1..];
    }
  }

  // ---------------------------------------------------------------- fixed-point strings

  datatype FixedPointError = EmptyString | NegativeValue | NotAnInteger | TooLarge

  /** `parse_fixed_u128`. */
  function ParseFixedU128(value: string): (r: Result<U128, FixedPointError>) {
    if value == "" then Err(EmptyString)
    else if value[0] == '-' then Err(NegativeValue)
    else if !AllDigits(value) then Err(NotAnInteger)
    else if DecimalValue(value) >= U128_BOUND then Err(TooLarge)
    else Ok(DecimalValue(value))
  }

  /**
   * `parse_fixed_u128` undoes the decimal printing of the API conversions for every u128; a
   * string is accepted exactly when it is a non-empty digit string below 2^128; and printing an
   * accepted string's value gives the string back exactly when it has no superfluous zeros.
   */
  lemma FixedPointRoundTrip(n: U128, s: string)
    ensures ParseFixedU128(Decimal(n)) == Ok(n)
    ensures ParseFixedU128(s).Ok? <==> s != "" && AllDigits(s) && DecimalValue(s) < U128_BOUND
    ensures ParseFixedU128(s).Ok? ==> (Decimal(ParseFixedU128(s).value) == s <==> CanonicalDecimal(s))
  {
    DecimalShape(n);
    if ParseFixedU128(s).Ok? {
      DecimalShape(ParseFixedU128(s).value);
      if CanonicalDecimal(s) {
        DecimalOfValue(s);
      }
    }
  }
}
