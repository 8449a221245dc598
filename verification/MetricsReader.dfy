/** A reader of the metrics text that recovers the lines it was written from. */
module MetricsReader {
  import opened Text
  import opened Metrics

  // ---------------------------------------------------------------- reading

  function ReadLabel(s: string): (r: Option<(string, string)>) {
    var k := IndexOf(s, '=');
    if k + 3 <= |s| && s[k + 1] == '"' && s[|s| - 1] == '"' then Some((s[..k], s[k + 2..|s| - 1])) else None
  }

  /** Labels up to the next comma, and those after it. */
  function ReadLabels(s: string): (r: Option<seq<(string, string)>>)
    decreases |s|
  {
    var k := IndexOf(s, ',');
    var first := ReadLabel(s[..k]);
    if first.None? then None
    else if k == |s| then Some([first.value])
    else
      var rest := ReadLabels(s[k + 1..]);
      if rest.None? then None else Some([first.value] + rest.value)
  }

  /** A name, or a name with labels in braces. */
  function ReadSeries(s: string): (r: Option<(string, seq<(string, string)>)>) {
    var k := IndexOf(s, '{');
    if k == |s| then Some((s, []))
    else if k + 1 < |s| && s[|s| - 1] == '}' then
      var labels := ReadLabels(s[k + 1..|s| - 1]);
      if labels.None? then None else Some((s[..k], labels.value))
    else None
  }

  /** The text up to the first space, and after it. */
  function Split(s: string): (r: Option<(string, string)>) {
    var k := IndexOf(s, ' ');
    if k == |s| then None else Some((s[..k], s[k + 1..]))
  }

  function ReadSample(s: string): (r: Option<Line>) {
    match Split(s)
    case None => None
    case Some((series, value)) =>
      var named := ReadSeries(series);
      if named.None? || value == "" || !AllDigits(value) || DecimalValue(value) >= U64_BOUND then None
      else Some(Sample(named.value.0, named.value.1, DecimalValue(value)))
  }

  function ReadLine(s: string): (r: Option<Line>) {
    if HELP <= s || TYPE <= s then
      match Split(s[7..])
      case None => None
      case Some((name, text)) => Some(if HELP <= s then Help(name, text) else Type(name, text))
    else ReadSample(s)
  }

  function ReadText(s: string): (r: Option<seq<Line>>)
    decreases |s|
  {
    if s == "" then Some([])
    else
      var k := IndexOf(s, '\n');
      if k == |s| then None
      else
        var line, rest := ReadLine(s[..k]), ReadText(s[k + 1..]);
        if line.None? || rest.None? then None else Some([line.value] + rest.value)
  }

  // ---------------------------------------------------------------- what can be read back

  predicate IsName(s: string) {
    s != "" && forall i :: 0 <= i < |s| ==> IsSafeChar(s[i])
  }

  predicate NamedLabels(labels: seq<(string, string)>) {
    forall i :: 0 <= i < |labels| ==> IsName(labels[i].0) && IsSafe(labels[i].1)
  }

  /** Names of letters, digits and underscores, safe label values, and texts on one line. */
  predicate Readable(l: Line) {
    && IsName(l.name)
    && match l
       case Help(_, text) => '\n' !in text
       case Type(_, kind) => '\n' !in kind
       case Sample(_, labels, _) => NamedLabels(labels)
  }

  lemma LabelReads(l: (string, string))
    requires IsName(l.0) && IsSafe(l.1)
    ensures ReadLabel(RenderLabel(l)) == Some(l)
    ensures ',' !in RenderLabel(l) && ' ' !in RenderLabel(l) && '\n' !in RenderLabel(l) && '{' !in RenderLabel(l)
  {
    var s := RenderLabel(l);
    assert s == l.0 + ['='] + (['"'] + l.1 + ['"']);
    IndexOfAt(l.0, '=', ['"'] + l.1 + ['"']);
    assert s[..|l.0|] == l.0 && s[|l.0| + 2..|s| - 1] == l.1;
  }

  lemma Rejoin(a: string, b: string, c: string)
    ensures (a + [','] + b) + [','] + c == a + [','] + (b + [','] + c)
  {
  }

  /** Labels are written from the last to the first and read from the first to the last. */
  lemma {:induction false} LabelsFront(l: (string, string), labels: seq<(string, string)>)
    requires labels != []
    ensures RenderLabels([l] + labels) == RenderLabel(l) + [','] + RenderLabels(labels)
  {
    var all := [l] + labels;
    if |labels| == 1 {
      assert all[..1] == [l];
    } else {
      var init := labels[..|labels| - 1];
      assert all[..|all| - 1] == [l] + init && all[|all| - 1] == labels[|labels| - 1];
      LabelsFront(l, init);
      Rejoin(RenderLabel(l), RenderLabels(init), RenderLabel(labels[|labels| - 1]));
    }
  }

  lemma {:induction false} LabelsRead(labels: seq<(string, string)>)
    requires labels != [] && NamedLabels(labels)
    ensures ReadLabels(RenderLabels(labels)) == Some(labels)
    ensures ' ' !in RenderLabels(labels) && '\n' !in RenderLabels(labels) && '{' !in RenderLabels(labels)
    decreases |labels|
  {
    var l, rest := labels[0], labels[1..];
    var first := RenderLabel(l);
    LabelReads(l);
    if rest == [] {
      assert labels == [l] && first[..|first|] == first;
    } else {
      LabelsRead(rest);
      LabelsFront(l, rest);
      assert labels == [l] + rest;
      var s := first + [','] + RenderLabels(rest);
      IndexOfAt(first, ',', RenderLabels(rest));
      assert s[..|first|] == first && s[|first| + 1..] == RenderLabels(rest);
    }
  }

  function Series(name: string, labels: seq<(string, string)>): (s: string) {
    name + if labels == [] then [] else ['{'] + RenderLabels(labels) + ['}']
  }

  lemma NamesArePlain(name: string)
    requires IsName(name)
    ensures ' ' !in name && '\n' !in name && '{' !in name && name[0] != '#'
  {
  }

  lemma BracedParts(name: string, inner: string)
    requires '{' !in name
    ensures
      var s := name + ['{'] + (inner + ['}']);
      && IndexOf(s, '{') == |name| && s[|s| - 1] == '}' && s[..|name|] == name
      && s[|name| + 1..|s| - 1] == inner
  {
    IndexOfAt(name, '{', inner + ['}']);
  }

  lemma BracedReads(name: string, inner: string, labels: seq<(string, string)>)
    requires '{' !in name && ReadLabels(inner) == Some(labels)
    ensures ReadSeries(name + ['{'] + (inner + ['}'])) == Some((name, labels))
  {
    BracedParts(name, inner);
  }

  lemma BracedLacks(name: string, inner: string, c: char)
    requires c !in name && c !in inner && c != '{' && c != '}'
    ensures c !in name + ['{'] + (inner + ['}'])
  {
  }

  lemma SeriesReads(name: string, labels: seq<(string, string)>)
    requires IsName(name) && NamedLabels(labels)
    ensures ReadSeries(Series(name, labels)) == Some((name, labels))
    ensures ' ' !in Series(name, labels) && '\n' !in Series(name, labels) && Series(name, labels)[0] != '#'
  {
    NamesArePlain(name);
    if labels == [] {
      assert Series(name, labels) == name;
    } else {
      LabelsRead(labels);
      var inner := RenderLabels(labels);
      assert Series(name, labels) == name + ['{'] + (inner + ['}']);
      BracedReads(name, inner, labels);
      BracedLacks(name, inner, ' ');
      BracedLacks(name, inner, '\n');
    }
  }

  lemma SplitReads(a: string, b: string)
    requires ' ' !in a
    ensures Split(a + [' '] + b) == Some((a, b))
  {
    CutAtFirst(a, ' ', b);
  }

  /** A line without its newline. */
  function Body(l: Line): (s: string) {
    match l
    case Help(name, text) => HELP + (name + [' '] + text)
    case Type(name, kind) => TYPE + (name + [' '] + kind)
    case Sample(name, labels, value) => Series(name, labels) + [' '] + Decimal(value)
  }

  lemma BodyRenders(l: Line)
    ensures RenderLine(l) == Body(l) + ['\n']
  {
  }

  lemma CommentReads(head: string, name: string, text: string)
    requires (head == HELP || head == TYPE) && IsName(name) && '\n' !in text
    ensures ReadLine(head + (name + [' '] + text)) == Some(if head == HELP then Help(name, text) else Type(name, text))
    ensures '\n' !in head + (name + [' '] + text)
  {
    var s := head + (name + [' '] + text);
    NamesArePlain(name);
    SplitReads(name, text);
    assert s[..7] == head && s[7..] == name + [' '] + text;
    assert s[2] == head[2] && HELP[2] == 'H' && TYPE[2] == 'T';
  }

  lemma SampleReads(name: string, labels: seq<(string, string)>, value: U64)
    requires IsName(name) && NamedLabels(labels)
    ensures
      var s := Series(name, labels) + [' '] + Decimal(value);
      ReadLine(s) == Some(Sample(name, labels, value)) && '\n' !in s
  {
    var s := Series(name, labels) + [' '] + Decimal(value);
    SeriesReads(name, labels);
    SplitReads(Series(name, labels), Decimal(value));
    DecimalShape(value);
    assert s[0] == Series(name, labels)[0] && HELP[0] == '#' && TYPE[0] == '#';
    assert '\n' !in Decimal(value);
  }

  lemma LineReads(l: Line)
    requires Readable(l)
    ensures ReadLine(Body(l)) == Some(l) && '\n' !in Body(l)
  {
    match l
    case Help(name, text) => CommentReads(HELP, name, text);
    case Type(name, kind) =>
      CommentReads(TYPE, name, kind);
      assert TYPE[2] != HELP[2];
    case Sample(name, labels, value) => SampleReads(name, labels, value);
  }

  /** The text is written line after line at the end and read from the front. */
  lemma {:induction false} RenderFront(l: Line, lines: seq<Line>)
    ensures Render([l] + lines) == RenderLine(l) + Render(lines)
  {
    var all := [l] + lines;
    if lines == [] {
      assert all[..0] == [] && all[0] == l;
    } else {
      var init := lines[..|lines| - 1];
      assert all[..|all| - 1] == [l] + init && all[|all| - 1] == lines[|lines| - 1];
      RenderFront(l, init);
      Regroup(RenderLine(l), Render(init), RenderLine(lines[|lines| - 1]));
    }
  }

  lemma LineThenRest(l: Line, rest: seq<Line>, tail: string)
    requires Readable(l) && ReadText(tail) == Some(rest)
    ensures ReadText(Body(l) + ['\n'] + tail) == Some([l] + rest)
  {
    LineReads(l);
    CutAtFirst(Body(l), '\n', tail);
  }

  lemma FrontReads(l: Line, rest: seq<Line>)
    requires Readable(l) && ReadText(Render(rest)) == Some(rest)
    ensures ReadText(Render([l] + rest)) == Some([l] + rest)
  {
    RenderFront(l, rest);
    BodyRenders(l);
    LineThenRest(l, rest, Render(rest));
  }

  /** The text reads back to exactly the lines it was written from. */
  lemma {:induction false} TextReadsBack(lines: seq<Line>)
    requires forall i :: 0 <= i < |lines| ==> Readable(lines[i])
    ensures ReadText(Render(lines)) == Some(lines)
  {
    if lines != [] {
      TextReadsBack(lines[1..]);
      FrontReads(lines[0], lines[1..]);
      assert lines == [lines[0]] + lines[1..];
    }
  }
}
