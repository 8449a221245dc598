/** Strings, hexadecimal, decimal and big-endian words, as the backend's codecs use them. */
module Text {

  datatype Option<+T> = None | Some(value: T)

  datatype Result<+T, +E> = Ok(value: T) | Err(error: E)

  type Byte = b: int | 0 <= b < 256

  const U64_BOUND: nat := 0x1_0000_0000_0000_0000
  const U128_BOUND: nat := 0x1_0000_0000_0000_0000_0000_0000_0000_0000
  const I64_BOUND: int := 0x8000_0000_0000_0000

  type U64 = v: nat | v < U64_BOUND
  type U128 = v: nat | v < U128_BOUND
  type I64 = v: int | -I64_BOUND <= v < I64_BOUND

  // ---------------------------------------------------------------- ASCII case

  function LowerChar(c: char): (r: char) {
    if 'A' <= c <= 'Z' then (c as int + 32) as char else c
  }

  function Lower(s: string): (r: string)
    ensures |r| == |s|
    ensures forall i :: 0 <= i < |s| ==> r[i] == LowerChar(s[i])
  {
    seq(|s|, i requires 0 <= i < |s| => LowerChar(s[i]))
  }

  /** Rust's `eq_ignore_ascii_case`. */
  predicate EqIgnoreCase(a: string, b: string) {
    Lower(a) == Lower(b)
  }

  function IndexFrom(s: string, c: char, i: nat): (r: nat)
    requires i <= |s|
    ensures i <= r <= |s|
    ensures forall k :: i <= k < r ==> s[k] != c
    ensures r < |s| ==> s[r] == c
    decreases |s| - i
  {
    if i == |s| || s[i] == c then i else IndexFrom(s, c, i + 1)
  }

  /** The position of the first c, or the length. */
  function IndexOf(s: string, c: char): (r: nat)
    ensures r <= |s|
  {
    IndexFrom(s, c, 0)
  }

  lemma IndexOfAt(a: string, c: char, b: string)
    requires c !in a
    ensures IndexOf(a + [c] + b, c) == |a|
  {
    var s := a + [c] + b;
    assert s[|a|] == c;
    assert forall k :: 0 <= k < |a| ==> s[k] == a[k];
  }

  /** A text is cut at the first separator. */
  lemma CutAtFirst(a: string, c: char, b: string)
    requires c !in a
    ensures
      var s := a + [c] + b;
      IndexOf(s, c) == |a| && s[..|a|] == a && s[|a| + 1..] == b
  {
    IndexOfAt(a, c, b);
  }

  /** The texts with commas between them. */
  function Commas(texts: seq<string>): (s: string) {
    if texts == [] then "" else if |texts| == 1 then texts[0] else texts[0] + [','] + Commas(texts[1..])
  }

  /** A name after its type. */
  function Typed(kind: string, name: string): (s: string) {
    kind + [' '] + name
  }

  lemma Regroup(a: string, b: string, c: string)
    ensures a + (b + c) == a + b + c
  {
  }

  lemma LowerConcat(a: string, b: string)
    ensures Lower(a + b) == Lower(a) + Lower(b)
  {
  }

  lemma LowerIdempotent(a: string)
    ensures Lower(Lower(a)) == Lower(a)
  {
  }

  /** Rust's `char::is_whitespace`. */
  predicate IsSpace(c: char) {
    var v := c as int;
    || 0x9 <= v <= 0xD || v == 0x20 || v == 0x85 || v == 0xA0 || v == 0x1680 || 0x2000 <= v <= 0x200A
    || v == 0x2028 || v == 0x2029 || v == 0x202F || v == 0x205F || v == 0x3000
  }

  function Trim(s: string): (r: string)
    decreases |s|
  {
    if s == "" then s
    else if IsSpace(s[0]) then Trim(s[1..])
    else if IsSpace(s[|s| - 1]) then Trim(s[..|s| - 1])
    else s
  }

  predicate AllSpace(s: string) {
    forall i :: 0 <= i < |s| ==> IsSpace(s[i])
  }

  /** The text, padded with white space only. */
  ghost predicate Padded(s: string, t: string) {
    exists a, b :: AllSpace(a) && AllSpace(b) && s == a + t + b
  }

  lemma PadFront(s: string, a: string, t: string, b: string)
    requires s != "" && s[1..] == a + t + b && IsSpace(s[0]) && AllSpace(a)
    ensures AllSpace([s[0]] + a) && s == ([s[0]] + a) + t + b
  {
    assert s == [s[0]] + s[1..];
  }

  lemma PadBack(s: string, a: string, t: string, b: string)
    requires s != "" && s[..|s| - 1] == a + t + b && IsSpace(s[|s| - 1]) && AllSpace(b)
    ensures AllSpace(b + [s[|s| - 1]]) && s == a + t + (b + [s[|s| - 1]])
  {
    assert s == s[..|s| - 1] + [s[|s| - 1]];
  }

  lemma {:induction false} TrimPads(s: string) returns (a: string, b: string)
    ensures AllSpace(a) && AllSpace(b) && s == a + Trim(s) + b
    decreases |s|
  {
    a, b := [], [];
    if s != "" && IsSpace(s[0]) {
      a, b := TrimPads(s[1..]);
      PadFront(s, a, Trim(s), b);
      a := [s[0]] + a;
    } else if s != "" && IsSpace(s[|s| - 1]) {
      a, b := TrimPads(s[..|s| - 1]);
      PadBack(s, a, Trim(s), b);
      b := b + [s[|s| - 1]];
    }
  }

  lemma {:induction false} TrimPadded(a: string, t: string, b: string)
    requires AllSpace(a) && AllSpace(b) && t != "" && !IsSpace(t[0]) && !IsSpace(t[|t| - 1])
    ensures Trim(a + t + b) == t
    decreases |a| + |b|
  {
    if a != "" {
      assert (a + t + b)[1..] == a[1..] + t + b;
      TrimPadded(a[1..], t, b);
    } else if b != "" {
      assert (a + t + b)[..|a + t + b| - 1] == a + t + b[..|b| - 1];
      TrimPadded(a, t, b[..|b| - 1]);
    } else {
      assert a + t + b == t;
    }
  }

  // ---------------------------------------------------------------- splitting

  /** Fixed-width prefixes split a string in only one way. */
  lemma ConcatUnique<T>(a: seq<T>, b: seq<T>, c: seq<T>, d: seq<T>)
    requires |a| == |c|
    requires a + b == c + d
    ensures a == c && b == d
  {
    assert a == (a + b)[..|a|] == (c + d)[..|c|] == c;
    assert b == (a + b)[|a|..] == (c + d)[|c|..] == d;
  }

  // ---------------------------------------------------------------- sets

  ghost function Pick<T>(s: set<T>): (x: T)
    requires s != {}
    ensures x in s
  {
    var x :| x in s; x
  }

  // ---------------------------------------------------------------- hexadecimal

  predicate IsHexDigit(c: char) {
    '0' <= c <= '9' || 'a' <= c <= 'f' || 'A' <= c <= 'F'
  }

  predicate AllHex(s: string) {
    forall i :: 0 <= i < |s| ==> IsHexDigit(s[i])
  }

  function Nibble(c: char): (r: int)
    requires IsHexDigit(c)
    ensures 0 <= r < 16
  {
    if '0' <= c <= '9' then c as int - '0' as int
    else if 'a' <= c <= 'f' then c as int - 'a' as int + 10
    else c as int - 'A' as int + 10
  }

  function HexChar(n: int): (c: char)
    requires 0 <= n < 16
    ensures IsHexDigit(c) && Nibble(c) == n && LowerChar(c) == c
  {
    if n < 10 then ('0' as int + n) as char else ('a' as int + (n - 10)) as char
  }

  function HexEncode(bytes: seq<Byte>): (s: string) {
    if bytes == [] then "" else [HexChar(bytes[0] / 16), HexChar(bytes[0] % 16)] + HexEncode(bytes[1..])
  }

  function HexDecode(s: string): (bytes: seq<Byte>)
    requires AllHex(s) && |s| % 2 == 0
  {
    if s == "" then [] else [Nibble(s[0]) * 16 + Nibble(s[1])] + HexDecode(s[2..])
  }

  /** The 0x-prefixed form: `nonce_to_hex`, `hex_0x`. */
  function Hex0x(bytes: seq<Byte>): (s: string) {
    "0x" + HexEncode(bytes)
  }

  /**
   * The common shape of `parse_nonce_hex` (32 bytes), `parse_evm_address` (20 bytes) and
   * `decode_signature` (65 bytes): an exact "0x", then exactly 2n hexadecimal digits.
   */
  function ParseHex0x(s: string, n: nat): (r: Option<seq<Byte>>) {
    if |s| == 2 + 2 * n && s[..2] == "0x" && AllHex(s[2..]) then Some(HexDecode(s[2..])) else None
  }

  lemma {:induction false} HexEncodeShape(bytes: seq<Byte>)
    ensures |HexEncode(bytes)| == 2 * |bytes|
    ensures AllHex(HexEncode(bytes))
    ensures Lower(HexEncode(bytes)) == HexEncode(bytes)
  {
    if bytes != [] {
      HexEncodeShape(bytes[1..]);
      var head := [HexChar(bytes[0] / 16), HexChar(bytes[0] % 16)];
      LowerConcat(head, HexEncode(bytes[1..]));
      assert Lower(head) == head;
    }
  }

  lemma {:induction false} HexDecodeEncode(bytes: seq<Byte>)
    ensures AllHex(HexEncode(bytes)) && |HexEncode(bytes)| == 2 * |bytes|
    ensures HexDecode(HexEncode(bytes)) == bytes
  {
    HexEncodeShape(bytes);
    if bytes != [] {
      HexDecodeEncode(bytes[1..]);
      assert HexEncode(bytes)[2..] == HexEncode(bytes[1..]);
    }
  }

  lemma HexCharOfNibble(c: char)
    requires IsHexDigit(c)
    ensures HexChar(Nibble(c)) == LowerChar(c)
  {
  }

  lemma {:induction false} HexEncodeDecode(s: string)
    requires AllHex(s) && |s| % 2 == 0
    ensures |HexDecode(s)| == |s| / 2
    ensures HexEncode(HexDecode(s)) == Lower(s)
  {
    if s != "" {
      HexEncodeDecode(s[2..]);
      var bytes, h, l := HexDecode(s), Nibble(s[0]), Nibble(s[1]);
      assert bytes[1..] == HexDecode(s[2..]);
      assert (h * 16 + l) / 16 == h && (h * 16 + l) % 16 == l;
      HexCharOfNibble(s[0]);
      HexCharOfNibble(s[1]);
    }
  }

  lemma {:induction false} HexDecodeIs(s: string, bytes: seq<Byte>)
    requires AllHex(s) && |s| == 2 * |bytes|
    requires forall k :: 0 <= k < |bytes| ==> bytes[k] == Nibble(s[2 * k]) * 16 + Nibble(s[2 * k + 1])
    ensures HexDecode(s) == bytes
  {
    if bytes != [] {
      var rest := bytes[1..];
      forall k | 0 <= k < |rest|
        ensures rest[k] == Nibble(s[2..][2 * k]) * 16 + Nibble(s[2..][2 * k + 1])
      {
        assert rest[k] == bytes[k + 1];
      }
      HexDecodeIs(s[2..], rest);
      assert bytes[0] == Nibble(s[2 * 0]) * 16 + Nibble(s[2 * 0 + 1]);
    }
  }

  /** Printing then parsing gives back the bytes. */
  lemma ParsePrinted(bytes: seq<Byte>)
    ensures ParseHex0x(Hex0x(bytes), |bytes|) == Some(bytes)
  {
    HexDecodeEncode(bytes);
    assert Hex0x(bytes)[2..] == HexEncode(bytes);
  }

  /** Parsing then printing lowercases; so an accepted string is determined by its bytes up to case. */
  lemma PrintParsed(s: string, n: nat)
    requires ParseHex0x(s, n).Some?
    ensures |ParseHex0x(s, n).value| == n
    ensures Hex0x(ParseHex0x(s, n).value) == Lower(s)
  {
    HexEncodeDecode(s[2..]);
    assert s == "0x" + s[2..];
    LowerConcat("0x", s[2..]);
    assert Lower("0x") == "0x";
  }

  /** What equals a printed byte string up to case: it parses exactly when its `x` is in lower case. */
  lemma CaseVariant(bytes: seq<Byte>, s: string)
    requires EqIgnoreCase(Hex0x(bytes), s)
    ensures |s| == 2 + 2 * |bytes| && (s[1] == 'x' || s[1] == 'X')
    ensures ParseHex0x(s, |bytes|) == if s[1] == 'x' then Some(bytes) else None
  {
    HexEncodeShape(bytes);
    var printed := Hex0x(bytes);
    assert |Lower(printed)| == |Lower(s)|;
    forall i | 0 <= i < |s| ensures LowerChar(s[i]) == LowerChar(printed[i]) {
      assert Lower(s)[i] == Lower(printed)[i];
    }
    if s[1] == 'x' {
      forall i | 0 <= i < |s[2..]| ensures IsHexDigit(s[2..][i]) { assert IsHexDigit(printed[2..][i]); }
      ParsePrinted(bytes);
      ParseEqualIffSameLower(printed, s, |bytes|);
    }
  }

  /** Two accepted strings denote the same bytes exactly when they are equal up to case. */
  lemma ParseEqualIffSameLower(s: string, t: string, n: nat)
    requires ParseHex0x(s, n).Some? && ParseHex0x(t, n).Some?
    ensures ParseHex0x(s, n) == ParseHex0x(t, n) <==> EqIgnoreCase(s, t)
  {
    PrintParsed(s, n);
    PrintParsed(t, n);
    ParsePrinted(ParseHex0x(s, n).value);
    ParsePrinted(ParseHex0x(t, n).value);
  }

  /** The parsing loop of `parse_nonce_hex`, filling a fixed array. */
  method ParseNonceHex(value: string) returns (r: Option<seq<Byte>>)
    ensures r == ParseHex0x(value, 32)
  {
    if |value| < 2 || value[..2] != "0x" {
      return None;
    }
    var hex := value[2..];
    if |hex| != 64 || !AllHex(hex) {
      return None;
    }
    var out := new Byte[32];
    var i := 0;
    while i < 32
      invariant 0 <= i <= 32
      invariant forall k :: 0 <= k < i ==> out[k] == Nibble(hex[2 * k]) * 16 + Nibble(hex[2 * k + 1])
    {
      var high := Nibble(hex[2 * i]);
      var low := Nibble(hex[2 * i + 1]);
      out[i] := high * 16 + low;
      i := i + 1;
    }
    HexDecodeIs(hex, out[..]);
    return Some(out[..]);
  }

  /** The printing loop of `nonce_to_hex`. */
  method NonceToHex(nonce: seq<Byte>) returns (out: string)
    ensures out == Hex0x(nonce)
  {
    out := "0x";
    var i := 0;
    while i < |nonce|
      invariant 0 <= i <= |nonce|
      invariant out + HexEncode(nonce[i..]) == Hex0x(nonce)
    {
      assert nonce[i..][1..] == nonce[i + 1..];
      out := out + [HexChar(nonce[i] / 16), HexChar(nonce[i] % 16)];
      i := i + 1;
    }
    assert nonce[i..] == [];
  }

  // ---------------------------------------------------------------- decimal

  predicate IsDigit(c: char) {
    '0' <= c <= '9'
  }

  predicate AllDigits(s: string) {
    forall i :: 0 <= i < |s| ==> IsDigit(s[i])
  }

  function DigitChar(n: int): (c: char)
    requires 0 <= n < 10
    ensures IsDigit(c)
  {
    ('0' as int + n) as char
  }

  /** `to_string` of an unsigned integer. */
  function Decimal(n: nat): (s: string) {
    if n < 10 then [DigitChar(n)] else Decimal(n / 10) + [DigitChar(n % 10)]
  }

  function DecimalValue(s: string): (n: nat)
    requires AllDigits(s)
  {
    if s == "" then 0 else 10 * DecimalValue(s[..|s| - 1]) + (s[|s| - 1] as int - '0' as int)
  }

  predicate CanonicalDecimal(s: string) {
    s != "" && AllDigits(s) && (s[0] == '0' ==> |s| == 1)
  }

  lemma {:induction false} DecimalShape(n: nat)
    ensures CanonicalDecimal(Decimal(n))
    ensures n > 0 ==> Decimal(n)[0] != '0'
    ensures DecimalValue(Decimal(n)) == n
  {
    if n >= 10 {
      DecimalShape(n / 10);
      var s := Decimal(n);
      assert s[..|s| - 1] == Decimal(n / 10);
    } else {
      assert Decimal(n)[..0] == "";
    }
  }

  lemma {:induction false} DecimalOfValue(s: string)
    requires CanonicalDecimal(s)
    ensures Decimal(DecimalValue(s)) == s
    ensures s[0] != '0' ==> DecimalValue(s) > 0
  {
    var init := s[..|s| - 1];
    if |s| == 1 {
      assert init == "";
    } else {
      DecimalOfValue(init);
      var head, last := DecimalValue(init), s[|s| - 1] as int - '0' as int;
      assert init[0] == s[0] && head > 0;
      assert DecimalValue(s) / 10 == head && DecimalValue(s) % 10 == last;
      assert s == init + [DigitChar(last)];
    }
  }
}
