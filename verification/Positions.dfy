/** Enumerating a trader's option positions and reading each quantity from its ABI word. */
module Positions {
  import opened Text
  import opened Words

  const I128_BOUND: int := 0x8000_0000_0000_0000_0000_0000_0000_0000

  datatype PositionError = ReadFailed | TooManySeries | EnumerationChanged | MalformedWord | NotOpen

  // ---------------------------------------------------------------- one word

  /** The meaning of 32 bytes as a two's complement integer. */
  function Signed256(word: Word): (v: int) {
    var u := FromBigEndian(word);
    if word[0] >= 128 then u - U128_BOUND * U128_BOUND else u
  }

  /** `i128::from_be_bytes`. */
  function Signed128(low: seq<Byte>): (v: int)
    requires |low| == 16
  {
    var u := FromBigEndian(low);
    if u >= I128_BOUND then u - U128_BOUND else u
  }

  /** The check of the position loop: the upper half must repeat the sign of the lower half. */
  function DecodeQuantity(output: seq<Byte>): (r: Result<int, PositionError>) {
    if |output| != 32 then Err(MalformedWord)
    else
      var quantity := Signed128(output[16..]);
      var extension := if quantity < 0 then 0xff else 0;
      if quantity == 0 || quantity == -I128_BOUND || exists i :: 0 <= i < 16 && output[i] != extension then Err(NotOpen)
      else Ok(quantity)
  }

  /** A non-zero 128-bit quantity other than the minimum. */
  predicate IsOpenQuantity(q: int) {
    q != 0 && -I128_BOUND < q < I128_BOUND
  }

  lemma {:induction false} FromBigEndianSplit(a: seq<Byte>, b: seq<Byte>)
    ensures FromBigEndian(a + b) == FromBigEndian(a) * Pow256(|b|) + FromBigEndian(b)
  {
    if b == [] {
      assert a + b == a;
    } else {
      var rest, last := b[..|b| - 1], b[|b| - 1];
      assert (a + b)[..|a + b| - 1] == a + rest;
      FromBigEndianSplit(a, rest);
      Distribute(FromBigEndian(a), Pow256(|rest|), FromBigEndian(rest));
    }
  }

  lemma Distribute(x: int, p: int, y: int)
    ensures 256 * (x * p + y) == x * (256 * p) + 256 * y
  {
  }

  lemma {:induction false} Repeated(n: nat)
    ensures FromBigEndian(Zeros(n)) == 0 && FromBigEndian(Ones(n)) == Pow256(n) - 1
  {
    if n > 0 {
      Repeated(n - 1);
      assert Zeros(n)[..n - 1] == Zeros(n - 1) && Ones(n)[..n - 1] == Ones(n - 1);
    }
  }

  function Ones(n: nat): (z: seq<Byte>)
    ensures |z| == n
  {
    seq(n, i => 255)
  }

  lemma FromBigEndianInjective(a: seq<Byte>, b: seq<Byte>)
    requires |a| == |b| && FromBigEndian(a) == FromBigEndian(b)
    ensures a == b
  {
  }

  /** The leading byte is the sign: it is at least 128 exactly when the value is at least half the range. */
  lemma TopByte(b: seq<Byte>)
    requires |b| == 16
    ensures FromBigEndian(b) >= I128_BOUND <==> b[0] >= 128
  {
    assert b == [b[0]] + b[1..];
    FromBigEndianSplit([b[0]], b[1..]);
    FromBigEndianBound(b[1..]);
    BoundsAsPowers();
    assert Pow256(16) == 256 * Pow256(15);
    assert FromBigEndian([b[0]]) == b[0];
  }

  /** A 256-bit word by its halves. */
  lemma Halves(word: Word)
    ensures
      var high, low := FromBigEndian(word[..16]), FromBigEndian(word[16..]);
      && 0 <= high < U128_BOUND && 0 <= low < U128_BOUND
      && Signed256(word) == (if word[0] >= 128 then high - U128_BOUND else high) * U128_BOUND + low
  {
    assert word == word[..16] + word[16..];
    FromBigEndianSplit(word[..16], word[16..]);
    FromBigEndianBound(word[..16]);
    FromBigEndianBound(word[16..]);
    BoundsAsPowers();
  }

  /** The upper half of a word holding a 128-bit value is all zeros or all ones. */
  lemma UpperHalf(word: Word)
    requires -I128_BOUND <= Signed256(word) < I128_BOUND
    ensures word[..16] == if Signed256(word) < 0 then Ones(16) else Zeros(16)
  {
    Halves(word);
    TopByte(word[..16]);
    Repeated(16);
    BoundsAsPowers();
    var high := FromBigEndian(word[..16]);
    if Signed256(word) < 0 {
      assert high == U128_BOUND - 1;
      FromBigEndianInjective(word[..16], Ones(16));
    } else {
      assert high == 0;
      FromBigEndianInjective(word[..16], Zeros(16));
    }
  }

  /**
   * The reader accepts a word exactly when it is the sign-extended form of an open quantity, and decodes it to
   * that.
   */
  lemma QuantityExact(output: seq<Byte>, q: int)
    ensures DecodeQuantity(output) == Ok(q) <==> |output| == 32 && Signed256(output) == q && IsOpenQuantity(q)
  {
    if |output| == 32 {
      Halves(output);
      TopByte(output[..16]);
      TopByte(output[16..]);
      Repeated(16);
      BoundsAsPowers();
      if DecodeQuantity(output) == Ok(q) {
        assert output[..16] == if q < 0 then Ones(16) else Zeros(16);
      }
      if Signed256(output) == q && IsOpenQuantity(q) {
        UpperHalf(output);
        assert forall i :: 0 <= i < 16 ==> output[i] == output[..16][i];
      }
    }
  }

  // ---------------------------------------------------------------- the enumeration

  /** What the chain answers: the series count, the ids up to a count, and the word for an id; any may fail. */
  datatype Chain = Chain(length: Option<nat>, slice: nat -> Option<seq<Word>>, quantity: Word -> Option<seq<Byte>>)

  type Position = (Word, int)

  /** The id's word is the sign-extended form of an open quantity. */
  predicate Open(chain: Chain, id: Word) {
    var w := chain.quantity(id);
    w.Some? && |w.value| == 32 && IsOpenQuantity(Signed256(w.value))
  }

  /** The enumeration the chain presents: at most 128 ids, as many as reported. */
  predicate Enumerates(chain: Chain, ids: seq<Word>) {
    chain.length.Some? && |ids| == chain.length.value <= 128 && chain.slice(|ids|) == Some(ids)
  }

  /** `try_get_canonical_option_positions`. */
  method ReadPositions(configured: bool, chain: Chain) returns (r: Result<Option<seq<Position>>, PositionError>)
    ensures !configured ==> r == Ok(None)
    ensures configured ==>
      (r.Ok? <==> exists ids :: Enumerates(chain, ids) && forall i :: 0 <= i < |ids| ==> Open(chain, ids[i]))
    ensures configured && r.Ok? ==>
      && r.value.Some? && chain.length == Some(|r.value.value|) && |r.value.value| <= 128
      && chain.slice(|r.value.value|).Some? && |chain.slice(|r.value.value|).value| == |r.value.value|
      && forall i :: 0 <= i < |r.value.value| ==>
           var id := chain.slice(|r.value.value|).value[i];
           Open(chain, id) && r.value.value[i] == (id, Signed256(chain.quantity(id).value))
  {
    if !configured {
      return Ok(None);
    }
    if chain.length.None? {
      return Err(ReadFailed);
    }
    var length := chain.length.value;
    if length > 128 {
      return Err(TooManySeries);
    }
    var slice := chain.slice(length);
    if slice.None? {
      return Err(ReadFailed);
    }
    var ids := slice.value;
    if |ids| != length {
      return Err(EnumerationChanged);
    }
    assert forall other :: Enumerates(chain, other) ==> other == ids;
    var positions: seq<Position> := [];
    for i := 0 to |ids|
      invariant |positions| == i
      invariant forall j :: 0 <= j < i ==>
        Open(chain, ids[j]) && positions[j] == (ids[j], Signed256(chain.quantity(ids[j]).value))
    {
      var output := chain.quantity(ids[i]);
      if output.None? {
        return Err(ReadFailed);
      }
      var decoded := DecodeQuantity(output.value);
      if |output.value| == 32 { QuantityExact(output.value, Signed256(output.value)); }
      if decoded.Err? {
        return Err(decoded.error);
      }
      QuantityExact(output.value, decoded.value);
      positions := positions + [(ids[i], decoded.value)];
    }
    assert Enumerates(chain, ids);
    return Ok(Some(positions));
  }
}
