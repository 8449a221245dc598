/**
 * The frozen canonical payload text `ACTION|key=value|key=value...`, its escaping, and a reader
 * that recovers the action and the ordered fields from it.
 */
module CanonicalPayload {
  import opened Text
  import opened Words
  import opened Actions

  datatype CanonicalValue =
    | Str(s: string)
    | Unsigned64(v64: U64)
    | Unsigned128(v128: U128)
    | Boolean(b: bool)
    | Address(account: string)
    | Null

  type Field = (string, CanonicalValue)

  // ---------------------------------------------------------------- writing

  /** The letter written after a backslash for a character that needs one. */
  function EscapeLetter(c: char): (r: Option<char>) {
    if c == '\\' || c == '\"' then Some(c)
    else if c == '\n' then Some('n')
    else if c == '\r' then Some('r')
    else if c == '\t' then Some('t')
    else None
  }

  function EscapeChar(c: char): (r: string) {
    match EscapeLetter(c)
    case Some(letter) => ['\\', letter]
    case None => [c]
  }

  function Escape(s: string): (r: string) {
    if s == "" then "" else EscapeChar(s[0]) + Escape(s[1..])
  }

  function EncodeValue(v: CanonicalValue): (r: string) {
    match v
    case Str(s) => ['\"'] + Escape(s) + ['\"']
    case Unsigned64(n) => Decimal(n)
    case Unsigned128(n) => Decimal(n)
    case Boolean(b) => if b then "true" else "false"
    case Address(a) => ['\"'] + Lower(a) + ['\"']
    case Null => "null"
  }

  function EncodeField(f: Field): (r: string) {
    ['|'] + f.0 + ['='] + EncodeValue(f.1)
  }

  function EncodeFields(fields: seq<Field>): (r: string) {
    if fields == [] then "" else EncodeField(fields[0]) + EncodeFields(fields[1..])
  }

  function PayloadText(action: Action, fields: seq<Field>): (r: string) {
    ActionName(action) + EncodeFields(fields)
  }

  function PayloadBytes(action: Action, fields: seq<Field>): (r: seq<Byte>) {
    Utf8(PayloadText(action, fields))
  }

  /** The loop of `escape_canonical_string`. */
  method EscapeCanonicalString(s: string) returns (out: string)
    ensures out == Escape(s)
  {
    out := "";
    var i := 0;
    while i < |s|
      invariant 0 <= i <= |s|
      invariant out + Escape(s[i..]) == Escape(s)
    {
      assert s[i..][1..] == s[i + 1..];
      out := out + EscapeChar(s[i]);
      i := i + 1;
    }
    assert s[i..] == "";
  }

  // ---------------------------------------------------------------- what escaping does

  lemma {:induction false} EscapeConcat(a: string, b: string)
    ensures Escape(a + b) == Escape(a) + Escape(b)
  {
    if a == "" {
      assert a + b == b;
    } else {
      EscapeConcat(a[1..], b);
      assert (a + b)[0] == a[0] && (a + b)[1..] == a[1..] + b;
      Regroup(EscapeChar(a[0]), Escape(a[1..]), Escape(b));
    }
  }

  /** Five characters get a backslash, the three controls a letter as well; every other stands for itself. */
  lemma EscapeOne(c: char)
    ensures Escape(['\\']) == ['\\', '\\'] && Escape(['\"']) == ['\\', '\"']
    ensures Escape(['\n']) == ['\\', 'n'] && Escape(['\r']) == ['\\', 'r'] && Escape(['\t']) == ['\\', 't']
    ensures c !in ['\\', '\"', '\n', '\r', '\t'] ==> Escape([c]) == [c]
  {
    forall x: char ensures Escape([x]) == EscapeChar(x) {
      assert [x][1..] == "" && Escape("") == "";
    }
  }

  /** So an escaped string is one line without tabs. */
  lemma {:induction false} EscapedIsOneLine(s: string)
    ensures '\n' !in Escape(s) && '\r' !in Escape(s) && '\t' !in Escape(s)
  {
    if s != "" {
      EscapedIsOneLine(s[1..]);
    }
  }

  lemma PushField(out: string, fields: seq<Field>, i: nat)
    requires i < |fields|
    ensures out + ['|'] + fields[i].0 + ['='] + EncodeValue(fields[i].1) + EncodeFields(fields[i + 1..]) ==
            out + EncodeFields(fields[i..])
  {
  }

  /** The loop of `canonical_payload_bytes`. */
  method CanonicalPayloadBytes(action: Action, fields: seq<Field>) returns (bytes: seq<Byte>)
    ensures bytes == PayloadBytes(action, fields)
  {
    var out := ActionName(action);
    var i := 0;
    assert fields[i..] == fields;
    while i < |fields|
      invariant 0 <= i <= |fields|
      invariant out + EncodeFields(fields[i..]) == PayloadText(action, fields)
    {
      PushField(out, fields, i);
      out := out + ['|'];
      out := out + fields[i].0;
      out := out + ['='];
      out := out + EncodeValue(fields[i].1);
      i := i + 1;
    }
    assert fields[i..] == [];
    assert out == out + EncodeFields(fields[i..]);
    bytes := Utf8(out);
  }

  // ---------------------------------------------------------------- reading

  /** What the bytes of a value determine. */
  datatype NormalValue = TextValue(text: string) | NumberValue(n: nat) | FlagValue(b: bool) | NullValue

  type NormalField = (string, NormalValue)

  function NormalizeValue(v: CanonicalValue): (r: NormalValue) {
    match v
    case Str(s) => TextValue(s)
    case Unsigned64(n) => NumberValue(n)
    case Unsigned128(n) => NumberValue(n)
    case Boolean(b) => FlagValue(b)
    case Address(a) => TextValue(Lower(a))
    case Null => NullValue
  }

  function Normalize(fields: seq<Field>): (r: seq<NormalField>)
    ensures |r| == |fields|
  {
    if fields == [] then []
    else [(fields[0].0, NormalizeValue(fields[0].1))] + Normalize(fields[1..])
  }

  function Unescape(c: char): (r: Option<char>) {
    if c == '\\' then Some('\\')
    else if c == '\"' then Some('\"')
    else if c == 'n' then Some('\n')
    else if c == 'r' then Some('\r')
    else if c == 't' then Some('\t')
    else None
  }

  /** Reads a string up to its closing quote; returns the content and what follows. */
  function ReadQuoted(s: string): (r: Option<(string, string)>)
    ensures r.Some? ==> |r.value.1| < |s|
  {
    if s == "" then None
    else if s[0] == '\"' then Some(("", s[1..]))
    else if s[0] == '\\' then
      if |s| < 2 || Unescape(s[1]).None? then None
      else
        var tail := ReadQuoted(s[2..]);
        if tail.None? then None else Some(([Unescape(s[1]).value] + tail.value.0, tail.value.1))
    else
      var tail := ReadQuoted(s[1..]);
      if tail.None? then None else Some(([s[0]] + tail.value.0, tail.value.1))
  }

  function ReadBare(token: string): (r: Option<NormalValue>) {
    if token == "null" then Some(NullValue)
    else if token == "true" then Some(FlagValue(true))
    else if token == "false" then Some(FlagValue(false))
    else if token != "" && AllDigits(token) then Some(NumberValue(DecimalValue(token)))
    else None
  }

  function ReadValue(s: string): (r: Option<(NormalValue, string)>)
    ensures r.Some? ==> |r.value.1| <= |s|
  {
    if s != "" && s[0] == '\"' then
      var q := ReadQuoted(s[1..]);
      if q.None? then None else Some((TextValue(q.value.0), q.value.1))
    else
      var i := IndexOf(s, '|');
      var v := ReadBare(s[..i]);
      if v.None? then None else Some((v.value, s[i..]))
  }

  /** Splits `|key=tail` at its first `=`. */
  function SplitKey(s: string): (r: Option<(string, string)>)
    ensures r.Some? ==> |r.value.1| < |s|
  {
    if s == "" || s[0] != '|' then None
    else
      var body := s[1..];
      var k := IndexOf(body, '=');
      if k == |body| then None else Some((body[..k], body[k + 1..]))
  }

  /** Reads one `|key=value`; returns the field and what follows. */
  function ReadField(s: string): (r: Option<(NormalField, string)>)
    ensures r.Some? ==> |r.value.1| < |s|
  {
    match SplitKey(s)
    case None => None
    case Some((key, tail)) =>
      match ReadValue(tail)
      case None => None
      case Some((value, rest)) => Some(((key, value), rest))
  }

  function ReadFields(s: string): (r: Option<seq<NormalField>>)
    decreases |s|
  {
    if s == "" then Some([])
    else
      var f := ReadField(s);
      if f.None? then None
      else
        var rest := ReadFields(f.value.1);
        if rest.None? then None else Some([f.value.0] + rest.value)
  }

  function ReadPayload(s: string): (r: Option<(Action, seq<NormalField>)>) {
    var i := IndexOf(s, '|');
    var action := ParseAction(s[..i]);
    var fields := ReadFields(s[i..]);
    if action.None? || fields.None? then None else Some((action.value, fields.value))
  }

  // ---------------------------------------------------------------- the reader undoes the writer

  /** What the writer needs: keys free of `=`, addresses free of quotes and backslashes. */
  predicate Readable(f: Field) {
    '=' !in f.0 && (f.1.Address? ==> '\"' !in f.1.account && '\\' !in f.1.account)
  }

  predicate AllReadable(fields: seq<Field>) {
    forall i :: 0 <= i < |fields| ==> Readable(fields[i])
  }

  predicate StartsField(rest: string) {
    rest == "" || rest[0] == '|'
  }

  lemma ReadEscapedChar(c: char, tail: string)
    requires ReadQuoted(tail).Some?
    ensures ReadQuoted(EscapeChar(c) + tail) == Some(([c] + ReadQuoted(tail).value.0, ReadQuoted(tail).value.1))
  {
  }

  lemma {:induction false} ReadEscaped(s: string, rest: string)
    ensures ReadQuoted(Escape(s) + ['\"'] + rest) == Some((s, rest))
  {
    if s == "" {
      assert Escape(s) + ['\"'] + rest == ['\"'] + rest;
    } else {
      ReadEscaped(s[1..], rest);
      var tail := Escape(s[1..]) + ['\"'] + rest;
      assert Escape(s) + ['\"'] + rest == EscapeChar(s[0]) + tail;
      ReadEscapedChar(s[0], tail);
      assert s == [s[0]] + s[1..];
    }
  }

  lemma {:induction false} ReadPlain(s: string, rest: string)
    requires '\"' !in s && '\\' !in s
    ensures ReadQuoted(s + ['\"'] + rest) == Some((s, rest))
  {
    if s == "" {
      assert s + ['\"'] + rest == ['\"'] + rest;
    } else {
      ReadPlain(s[1..], rest);
      assert (s + ['\"'] + rest)[1..] == s[1..] + ['\"'] + rest;
      assert s == [s[0]] + s[1..];
    }
  }

  lemma ReadQuotedValue(body: string, rest: string)
    ensures ReadValue(['\"'] + body + ['\"'] + rest) ==
            var q := ReadQuoted(body + ['\"'] + rest);
            if q.None? then None else Some((TextValue(q.value.0), q.value.1))
  {
    assert (['\"'] + body + ['\"'] + rest)[1..] == body + ['\"'] + rest;
  }

  lemma ReadToken(token: string, rest: string)
    requires '|' !in token && token != "" && token[0] != '\"'
    requires StartsField(rest) && ReadBare(token).Some?
    ensures ReadValue(token + rest) == Some((ReadBare(token).value, rest))
  {
    var s := token + rest;
    if rest == "" {
      assert s == token;
      assert s[..|s|] == token && s[|s|..] == rest;
    } else {
      assert s == token + ['|'] + rest[1..];
      IndexOfAt(token, '|', rest[1..]);
      assert s[..|token|] == token && s[|token|..] == rest;
    }
  }

  lemma ReadNumber(n: nat, rest: string)
    requires StartsField(rest)
    ensures ReadValue(Decimal(n) + rest) == Some((NumberValue(n), rest))
  {
    DecimalShape(n);
    var token := Decimal(n);
    assert IsDigit(token[0]);
    assert ReadBare(token) == Some(NumberValue(n));
    ReadToken(token, rest);
  }

  lemma ReadWord(v: CanonicalValue, rest: string)
    requires v.Boolean? || v.Null?
    requires StartsField(rest)
    ensures ReadValue(EncodeValue(v) + rest) == Some((NormalizeValue(v), rest))
  {
    ReadToken(EncodeValue(v), rest);
  }

  lemma ReadEncodedValue(v: CanonicalValue, rest: string)
    requires v.Address? ==> '\"' !in v.account && '\\' !in v.account
    requires StartsField(rest)
    ensures ReadValue(EncodeValue(v) + rest) == Some((NormalizeValue(v), rest))
  {
    match v
    case Str(s) =>
      ReadEscaped(s, rest);
      ReadQuotedValue(Escape(s), rest);
    case Unsigned64(n) => ReadNumber(n, rest);
    case Unsigned128(n) => ReadNumber(n, rest);
    case Address(a) =>
      assert forall i :: 0 <= i < |a| ==> a[i] in a && Lower(a)[i] == LowerChar(a[i]);
      ReadPlain(Lower(a), rest);
      ReadQuotedValue(Lower(a), rest);
    case Boolean(b) => ReadWord(v, rest);
    case Null => ReadWord(v, rest);
  }

  lemma SplitKeyExact(key: string, tail: string)
    ensures var r := SplitKey(['|'] + key + ['='] + tail);
            if '=' in key then r.Some? && r.value.0 != key else r == Some((key, tail))
  {
    var s := ['|'] + key + ['='] + tail;
    var body := s[1..];
    assert body == key + ['='] + tail;
    if '=' in key {
      var k :| 0 <= k < |key| && key[k] == '=';
      assert body[k] == '=';
    } else {
      IndexOfAt(key, '=', tail);
      assert body[..|key|] == key && body[|key| + 1..] == tail;
    }
  }

  lemma EncodeFieldThen(f: Field, rest: string)
    ensures EncodeField(f) + rest == ['|'] + f.0 + ['='] + (EncodeValue(f.1) + rest)
  {
  }

  /** One reading step on the writer's output, for a key free of `=`. */
  lemma ReadOneField(f: Field, rest: string)
    requires '=' !in f.0
    ensures ReadField(EncodeField(f) + rest) ==
            match ReadValue(EncodeValue(f.1) + rest)
            case None => None
            case Some((value, after)) => Some(((f.0, value), after))
  {
    EncodeFieldThen(f, rest);
    SplitKeyExact(f.0, EncodeValue(f.1) + rest);
  }

  lemma {:induction false} ReadEncodedFields(fields: seq<Field>)
    requires AllReadable(fields)
    ensures ReadFields(EncodeFields(fields)) == Some(Normalize(fields))
  {
    if fields != [] {
      var rest := fields[1..];
      assert Readable(fields[0]);
      ReadEncodedFields(rest);
      ReadEncodedValue(fields[0].1, EncodeFields(rest));
      ReadOneField(fields[0], EncodeFields(rest));
    }
  }

  // ---------------------------------------------------------------- and nothing weaker suffices

  function Backslashes(k: nat): (s: string)
    ensures |s| == k
    ensures forall i :: 0 <= i < k ==> s[i] == '\\'
  {
    seq(k, i => '\\')
  }

  /** A raw text never reads back as itself with extra backslashes in front. */
  lemma {:induction false} NeverShifted(y: string, k: nat, rest: string)
    requires k > 0
    ensures
      var r := ReadQuoted(y + ['\"'] + rest);
      r.Some? ==> r.value.0 != Backslashes(k) + y
    decreases |y|
  {
    var raw := y + ['\"'] + rest;
    var r := ReadQuoted(raw);
    if r.Some? && r.value.0 == Backslashes(k) + y {
      var content := r.value.0;
      assert content[0] == '\\';
      assert raw[0] == '\\' && raw[1] == '\\';
      assert |y| >= 2 && y[0] == '\\' && y[1] == '\\';
      assert raw[2..] == y[2..] + ['\"'] + rest;
      assert content[1..] == Backslashes(k + 1) + y[2..];
      NeverShifted(y[2..], k + 1, rest);
    }
  }

  /** An unescaped text reads back as itself only if it needed no escaping. */
  lemma {:induction false} ReadsBackOnlyPlain(x: string, rest: string)
    requires ReadQuoted(x + ['\"'] + rest).Some? && ReadQuoted(x + ['\"'] + rest).value.0 == x
    ensures '\"' !in x && '\\' !in x
  {
    if x != "" {
      var raw := x + ['\"'] + rest;
      assert raw[0] == x[0];
      if x[0] == '\\' {
        assert raw[1] == '\\';
        assert |x| >= 2 && x[1] == '\\';
        assert raw[2..] == x[2..] + ['\"'] + rest;
        assert x[1..] == Backslashes(1) + x[2..];
        NeverShifted(x[2..], 1, rest);
      } else {
        assert raw[1..] == x[1..] + ['\"'] + rest;
        ReadsBackOnlyPlain(x[1..], rest);
        assert x == [x[0]] + x[1..];
      }
    }
  }

  lemma ReadableFieldNeeded(f: Field, rest: string)
    requires var r := ReadField(EncodeField(f) + rest); r.Some? && r.value.0 == (f.0, NormalizeValue(f.1))
    ensures Readable(f)
  {
    EncodeFieldThen(f, rest);
    SplitKeyExact(f.0, EncodeValue(f.1) + rest);
    ReadOneField(f, rest);
    if f.1.Address? {
      var low := Lower(f.1.account);
      ReadQuotedValue(low, rest);
      ReadsBackOnlyPlain(low, rest);
      forall i | 0 <= i < |low|
        ensures f.1.account[i] != '\"' && f.1.account[i] != '\\'
      {
        assert low[i] in low;
      }
    }
  }

  lemma {:induction false} ReadableNeeded(fields: seq<Field>)
    requires ReadFields(EncodeFields(fields)) == Some(Normalize(fields))
    ensures AllReadable(fields)
  {
    if fields != [] {
      var rest := fields[1..];
      var s := EncodeFields(fields);
      assert ReadField(s).value.0 == Normalize(fields)[0];
      ReadableFieldNeeded(fields[0], EncodeFields(rest));
      ReadEncodedValue(fields[0].1, EncodeFields(rest));
      ReadOneField(fields[0], EncodeFields(rest));
      assert ReadFields(EncodeFields(rest)).value == Normalize(fields)[1..];
      ReadableNeeded(rest);
    }
  }

  lemma BarAfterName(name: string, body: string)
    requires '|' !in name && StartsField(body)
    ensures IndexOf(name + body, '|') == |name|
  {
    if body == "" {
      assert name + body == name;
    } else {
      IndexOfAt(name, '|', body[1..]);
      assert name + body == name + ['|'] + body[1..];
    }
  }

  lemma SliceConcat(a: string, b: string)
    ensures (a + b)[..|a|] == a && (a + b)[|a|..] == b
  {
  }

  lemma ReadPayloadOfText(action: Action, fields: seq<Field>)
    ensures ReadPayload(PayloadText(action, fields)) ==
            var f := ReadFields(EncodeFields(fields));
            if f.None? then None else Some((action, f.value))
  {
    ActionNameFacts(action);
    ActionNamesExact(action, ActionName(action));
    BarAfterName(ActionName(action), EncodeFields(fields));
    SliceConcat(ActionName(action), EncodeFields(fields));
  }

  /**
   * The canonical payload can be read back to its action and its ordered fields (up to lowercasing
   * addresses and forgetting the integer width) exactly when every key is free of `=` and every
   * address is free of quotes and backslashes. A bar in a key does no harm.
   */
  lemma PayloadReadsBackIff(action: Action, fields: seq<Field>)
    ensures ReadPayload(PayloadText(action, fields)) == Some((action, Normalize(fields))) <==> AllReadable(fields)
  {
    ReadPayloadOfText(action, fields);
    if AllReadable(fields) {
      ReadEncodedFields(fields);
    }
    if ReadFields(EncodeFields(fields)) == Some(Normalize(fields)) {
      ReadableNeeded(fields);
    }
  }

  /** Different actions or fields never share payload bytes. */
  lemma PayloadBytesDetermineFields(a1: Action, f1: seq<Field>, a2: Action, f2: seq<Field>)
    requires AllReadable(f1) && AllReadable(f2)
    requires PayloadBytes(a1, f1) == PayloadBytes(a2, f2)
    ensures a1 == a2 && Normalize(f1) == Normalize(f2)
  {
    Utf8Injective(PayloadText(a1, f1), PayloadText(a2, f2));
    PayloadReadsBackIff(a1, f1);
    PayloadReadsBackIff(a2, f2);
  }

  /** Without the condition on keys, or the one on addresses, two requests can share their bytes. */
  lemma UnreadableKeyCollides(action: Action)
    ensures
      var one := [("a=null|b", Null)];
      var two := [("a", Null), ("b", Null)];
      Normalize(one) != Normalize(two) && PayloadBytes(action, one) == PayloadBytes(action, two)
  {
    var one, two := [("a=null|b", Null)], [("a", Null), ("b", Null)];
    assert |Normalize(one)| == 1 && |Normalize(two)| == 2;
    EncodeTwo(one[0], two[0], two[1]);
    assert EncodeField(one[0]) == EncodeField(two[0]) + EncodeField(two[1]);
  }

  lemma UnreadableAddressCollides(action: Action)
    ensures
      var one := [("a", Address("\"|b=\""))];
      var two := [("a", Str("")), ("b", Str(""))];
      Normalize(one) != Normalize(two) && PayloadBytes(action, one) == PayloadBytes(action, two)
  {
    var one, two := [("a", Address("\"|b=\""))], [("a", Str("")), ("b", Str(""))];
    assert |Normalize(one)| == 1 && |Normalize(two)| == 2;
    EncodeTwo(one[0], two[0], two[1]);
    assert Lower("\"|b=\"") == "\"|b=\"";
    assert EncodeField(one[0]) == EncodeField(two[0]) + EncodeField(two[1]);
  }

  lemma EncodeTwo(f: Field, g: Field, h: Field)
    ensures EncodeFields([f]) == EncodeField(f)
    ensures EncodeFields([g, h]) == EncodeField(g) + EncodeField(h)
  {
    assert [f][1..] == [] && [g, h][1..] == [h] && [h][1..] == [];
    assert EncodeFields([]) == "";
  }
}
