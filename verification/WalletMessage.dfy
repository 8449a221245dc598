/** The sign-in message of a wallet read session, its checksummed address, and address normalization. */
module WalletMessage {
  import opened Text
  import opened Words
  import opened WriteDigest

  // ---------------------------------------------------------------- normalization

  /** A normalized wallet: `0x` and forty lower-case hexadecimal digits. */
  predicate IsWallet(w: string) {
    |w| == 42 && w[0] == '0' && w[1] == 'x' && AllHex(w[2..]) && Lower(w) == w
  }

  /** `normalize_owner_address`. */
  function NormalizeOwner(address: string): (r: Option<string>)
    ensures r.Some? ==> IsWallet(r.value) && Lower(Trim(address)) == r.value
  {
    var t := Trim(address);
    if IsAddress(t) then LowerIdempotent(t); Some(Lower(t)) else None
  }

  predicate IsAddress(t: string) {
    |t| == 42 && t[0] == '0' && t[1] == 'x' && AllHex(t[2..])
  }

  /** Accepted exactly: an address in any case, padded with white space; the result is it in lower case. */
  lemma NormalizeOwnerExact(address: string, wallet: string)
    ensures NormalizeOwner(address) == Some(wallet) <==>
      exists t :: Padded(address, t) && IsAddress(t) && wallet == Lower(t)
  {
    var before, after := TrimPads(address);
    forall t | Padded(address, t) && IsAddress(t) ensures Trim(address) == t {
      var a, b :| AllSpace(a) && AllSpace(b) && address == a + t + b;
      assert t[41] == t[2..][39];
      TrimPadded(a, t, b);
    }
  }

  // ---------------------------------------------------------------- checksummed address

  function UpperChar(c: char): (r: char) {
    if 'a' <= c <= 'z' then (c as int - 32) as char else c
  }

  /** The i-th half-byte of a hash. */
  function HashNibble(hash: Word, i: nat): (n: int)
    requires i < 64
    ensures 0 <= n < 16
  {
    if i % 2 == 0 then hash[i / 2] / 16 else hash[i / 2] % 16
  }

  function ChecksumChar(hash: Word, raw: string, i: nat): (c: char)
    requires i < |raw| <= 64
  {
    if HashNibble(hash, i) >= 8 then UpperChar(raw[i]) else raw[i]
  }

  /** The address with its letters cased by the hash of its digits (EIP-55). */
  function Checksum(keccak: Hash, lower: string): (r: string)
    requires 2 <= |lower| <= 66
  {
    var raw := lower[2..];
    "0x" + seq(|raw|, i requires 0 <= i < |raw| => ChecksumChar(keccak(Utf8(raw)), raw, i))
  }

  method ChecksumAddress(keccak: Hash, lower: string) returns (out: string)
    requires 2 <= |lower| <= 66
    ensures out == Checksum(keccak, lower)
  {
    var raw := lower[2..];
    var hash := keccak(Utf8(raw));
    out := "0x";
    for i := 0 to |raw|
      invariant |out| == 2 + i && out[0] == '0' && out[1] == 'x'
      invariant forall j :: 0 <= j < i ==> out[2 + j] == ChecksumChar(hash, raw, j)
    {
      var nibble := if i % 2 == 0 then hash[i / 2] / 16 else hash[i / 2] % 16;
      out := out + [if nibble >= 8 then UpperChar(raw[i]) else raw[i]];
    }
  }

  /** Only the case of letters changes, so the checksummed form still names the wallet. */
  lemma ChecksumOnlyCases(keccak: Hash, wallet: string)
    requires IsWallet(wallet)
    ensures Lower(Checksum(keccak, wallet)) == wallet && '\n' !in Checksum(keccak, wallet)
  {
  }

  lemma {:induction false} HexDigitOf(bytes: seq<Byte>, i: nat)
    requires i < 2 * |bytes|
    ensures |HexEncode(bytes)| == 2 * |bytes|
    ensures HexEncode(bytes)[i] == HexChar(if i % 2 == 0 then bytes[i / 2] / 16 else bytes[i / 2] % 16)
  {
    HexEncodeShape(bytes);
    if i >= 2 {
      HexDigitOf(bytes[1..], i - 2);
    }
  }

  /**
   * EIP-55: a letter is in upper case exactly where the hash of the digits, printed in hexadecimal, has a digit
   * of at least 8.
   */
  lemma ChecksumFollowsHash(keccak: Hash, wallet: string, i: nat)
    requires IsWallet(wallet) && i < 40
    ensures
      var digits := HexEncode(keccak(Utf8(wallet[2..])));
      && |digits| == 64 && IsHexDigit(digits[i])
      && ('a' <= wallet[2 + i] <= 'f' ==> ('A' <= Checksum(keccak, wallet)[2 + i] <= 'F' <==> Nibble(digits[i]) >= 8))
  {
    HexDigitOf(keccak(Utf8(wallet[2..])), i);
    assert wallet[2..][i] == wallet[2 + i];
  }

  // ---------------------------------------------------------------- the message

  /** The texts a challenge message is made of; the times are already printed. */
  datatype SignIn = SignIn(wallet: string, origin: string, nonce: string, issued: string, expires: string)

  const HTTPS: string := "https://"

  const WANTS: string := " wants you to sign in" + " with your Ethereum account:"

  function Host(origin: string): (h: string) {
    if HTTPS <= origin then origin[|HTTPS|..] else origin
  }

  lemma HostOfOrigin(host: string)
    ensures Host("https://" + host) == host
  {
  }

  function MessageLines(keccak: Hash, s: SignIn): (lines: seq<string>)
    requires IsWallet(s.wallet)
  {
    [ Host(s.origin) + WANTS,
      Checksum(keccak, s.wallet),
      "",
      "Access DeOpt read-only wallet fee history.",
      "",
      "URI: " + s.origin,
      "Version: 1",
      "Chain ID: 84532",
      "Nonce: " + s.nonce,
      "Issued At: " + s.issued,
      "Expiration Time: " + s.expires ]
  }

  function Join(lines: seq<string>): (r: string)
    requires lines != []
  {
    if |lines| == 1 then lines[0] else lines[0] + ['\n'] + Join(lines[1..])
  }

  function Message(keccak: Hash, s: SignIn): (m: string)
    requires IsWallet(s.wallet)
  {
    Join(MessageLines(keccak, s))
  }

  predicate OneLine(s: string) {
    forall i :: 0 <= i < |s| ==> s[i] != '\n'
  }

  /** The lines of a text. */
  function Lines(s: string): (r: seq<string>)
    decreases |s|
  {
    var k := IndexOf(s, '\n');
    if k == |s| then [s] else [s[..k]] + Lines(s[k + 1..])
  }

  lemma {:induction false} LinesOfJoin(lines: seq<string>)
    requires lines != [] && forall i :: 0 <= i < |lines| ==> OneLine(lines[i])
    ensures Lines(Join(lines)) == lines
  {
    if |lines| == 1 {
      assert lines == [lines[0]];
    } else {
      LinesOfJoin(lines[1..]);
      LineFirst(lines[0], Join(lines[1..]));
      assert lines == [lines[0]] + lines[1..];
    }
  }

  lemma LineFirst(first: string, rest: string)
    requires OneLine(first)
    ensures Lines(first + ['\n'] + rest) == [first] + Lines(rest)
  {
    CutAtFirst(first, '\n', rest);
  }

  /** What follows the label. */
  function Labelled(name: string, line: string): (r: Option<string>) {
    if name <= line then Some(line[|name|..]) else None
  }

  lemma LabelledReads(name: string, value: string)
    ensures Labelled(name, name + value) == Some(value)
  {
  }

  /** A reader of the sign-in message: eleven lines, each field after its label, host and checksum consistent. */
  function ReadMessage(keccak: Hash, m: string): (r: Option<SignIn>) {
    var l := Lines(m);
    if |l| != 11 then None
    else
      var uri, nonce := Labelled("URI: ", l[5]), Labelled("Nonce: ", l[8]);
      var issued, expires := Labelled("Issued At: ", l[9]), Labelled("Expiration Time: ", l[10]);
      if uri.None? || nonce.None? || issued.None? || expires.None? || l[6] != "Version: 1" || l[7] != "Chain ID: 84532"
         || l[0] != Host(uri.value) + WANTS || !IsWallet(Lower(l[1])) || l[1] != Checksum(keccak, Lower(l[1]))
      then None
      else Some(SignIn(Lower(l[1]), uri.value, nonce.value, issued.value, expires.value))
  }

  predicate OneLiners(s: SignIn) {
    OneLine(s.origin) && OneLine(s.nonce) && OneLine(s.issued) && OneLine(s.expires)
  }

  lemma LinesAreLines(keccak: Hash, s: SignIn, i: nat)
    requires IsWallet(s.wallet) && OneLiners(s) && i < 11
    ensures OneLine(MessageLines(keccak, s)[i])
  {
    ChecksumOnlyCases(keccak, s.wallet);
    assert OneLine(Checksum(keccak, s.wallet)) && OneLine(Host(s.origin));
    FixedTexts();
  }

  lemma FixedTexts()
    ensures OneLine(" wants you to sign in") && OneLine(" with your Ethereum account:")
    ensures OneLine("Access DeOpt read-only wallet fee history.") && OneLine("Version: 1") && OneLine("Chain ID: 84532")
    ensures OneLine("URI: ") && OneLine("Nonce: ") && OneLine("Issued At: ") && OneLine("Expiration Time: ")
  {
  }

  /** The message reads back: each text stands after its own label. */
  lemma MessageReads(keccak: Hash, s: SignIn)
    requires IsWallet(s.wallet) && OneLiners(s)
    ensures ReadMessage(keccak, Message(keccak, s)) == Some(s)
  {
    var lines := MessageLines(keccak, s);
    forall i | 0 <= i < |lines| ensures OneLine(lines[i]) { LinesAreLines(keccak, s, i); }
    LinesOfJoin(lines);
    ChecksumOnlyCases(keccak, s.wallet);
    LabelledReads("URI: ", s.origin);
    LabelledReads("Nonce: ", s.nonce);
    LabelledReads("Issued At: ", s.issued);
    LabelledReads("Expiration Time: ", s.expires);
  }

  /** One message, one wallet, origin, nonce and pair of printed times. */
  lemma MessageBinds(keccak: Hash, a: SignIn, b: SignIn)
    requires IsWallet(a.wallet) && IsWallet(b.wallet) && OneLiners(a) && OneLiners(b)
    requires Message(keccak, a) == Message(keccak, b)
    ensures a == b
  {
    MessageReads(keccak, a);
    MessageReads(keccak, b);
  }
}
