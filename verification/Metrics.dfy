/**
 * The Prometheus text builder: descriptions, plain and labelled samples, and the merging of counts
 * whose labels are replaced by safe or low-cardinality ones.
 */
module Metrics {
  import opened Sorting
  import opened Text

  const U64_MAX: U64 := U64_BOUND - 1

  /** The values of a sample's labels, in order. */
  type Labels = seq<string>

  type Counts = map<Labels, U64>

  // ---------------------------------------------------------------- safe labels

  predicate IsSafeChar(c: char) {
    'a' <= c <= 'z' || '0' <= c <= '9' || c == '_'
  }

  predicate IsSafe(value: string) {
    |value| <= 64 && forall i :: 0 <= i < |value| ==> IsSafeChar(value[i])
  }

  const OTHER: string := ['o', 't', 'h', 'e', 'r']

  /** `safe_label_value`. */
  function SafeLabel(value: string): (r: string)
    ensures IsSafe(r)
  {
    if IsSafe(value) then value else OTHER
  }

  predicate BecomesOther(value: string) {
    !IsSafe(value) || value == OTHER
  }

  /** Labels fall together exactly when they were equal or both end up as `other`; sanitizing twice changes nothing. */
  lemma SafeLabelClasses(a: string, b: string)
    ensures SafeLabel(a) == SafeLabel(b) <==> a == b || (BecomesOther(a) && BecomesOther(b))
    ensures SafeLabel(a) == OTHER <==> BecomesOther(a)
    ensures SafeLabel(SafeLabel(a)) == SafeLabel(a)
    ensures SafeLabel(a) == a <==>
      |a| <= 64 && forall i :: 0 <= i < |a| ==> 'a' <= a[i] <= 'z' || '0' <= a[i] <= '9' || a[i] == '_'
  {
    assert IsSafe(OTHER);
  }

  function SafeLabels(labels: Labels): (r: Labels)
    ensures |r| == |labels| && forall i :: 0 <= i < |r| ==> IsSafe(r[i])
  {
    seq(|labels|, i requires 0 <= i < |labels| => SafeLabel(labels[i]))
  }

  // ---------------------------------------------------------------- sums over maps

  ghost function Sum(counts: map<Labels, nat>, keys: set<Labels>): (n: nat)
    requires keys <= counts.Keys
  {
    if keys == {} then 0 else counts[Pick(keys)] + Sum(counts, keys - {Pick(keys)})
  }

  /** The sum does not depend on the order of picking. */
  lemma {:induction false} SumRemove(counts: map<Labels, nat>, keys: set<Labels>, k: Labels)
    requires keys <= counts.Keys && k in keys
    ensures Sum(counts, keys) == counts[k] + Sum(counts, keys - {k})
    decreases |keys|
  {
    var p := Pick(keys);
    if p != k {
      SumRemove(counts, keys - {p}, k);
      SumRemove(counts, keys - {k}, p);
      assert keys - {p} - {k} == keys - {k} - {p};
    }
  }

  lemma SumAdd(counts: map<Labels, nat>, keys: set<Labels>, k: Labels)
    requires keys <= counts.Keys && k in counts && k !in keys
    ensures Sum(counts, keys + {k}) == counts[k] + Sum(counts, keys)
  {
    SumRemove(counts, keys + {k}, k);
    assert keys + {k} - {k} == keys;
  }

  lemma {:induction false} SumSplit(counts: map<Labels, nat>, a: set<Labels>, b: set<Labels>)
    requires a <= counts.Keys && b <= counts.Keys && a !! b
    ensures Sum(counts, a + b) == Sum(counts, a) + Sum(counts, b)
    decreases |b|
  {
    if b == {} {
      assert a + b == a;
    } else {
      var k := Pick(b);
      SumSplit(counts, a, b - {k});
      assert a + b == a + (b - {k}) + {k};
      SumAdd(counts, a + (b - {k}), k);
    }
  }

  lemma {:induction false} SumAtMost(a: map<Labels, nat>, b: map<Labels, nat>, keys: set<Labels>)
    requires keys <= a.Keys && keys <= b.Keys
    requires forall k :: k in keys ==> a[k] <= b[k]
    ensures Sum(a, keys) <= Sum(b, keys)
    ensures Sum(a, keys) == Sum(b, keys) <==> forall k :: k in keys ==> a[k] == b[k]
    decreases |keys|
  {
    if keys != {} {
      var p := Pick(keys);
      SumAtMost(a, b, keys - {p});
      assert forall k :: k in keys ==> k == p || k in keys - {p};
    }
  }

  // ---------------------------------------------------------------- merging

  function Saturating(n: nat): (u: U64) {
    if n <= U64_MAX then n else U64_MAX
  }

  /** The keys that a relabelling sends to one label. */
  function Class(relabel: Labels -> Labels, keys: set<Labels>, target: Labels): (r: set<Labels>) {
    set k | k in keys && relabel(k) == target
  }

  ghost function ClassSum(relabel: Labels -> Labels, counts: Counts, target: Labels): (n: nat) {
    Sum(counts, Class(relabel, counts.Keys, target))
  }

  /**
   * A merge of some of the counts: each label is seeded or comes from a merged key, and carries the saturated
   * sum of its class.
   */
  ghost predicate MergesSome(relabel: Labels -> Labels, seeds: set<Labels>, counts: Counts, done: set<Labels>,
                             merged: Counts)
    requires done <= counts.Keys
  {
    && (forall l :: l in merged <==> l in seeds || Class(relabel, done, l) != {})
    && (forall l :: l in merged ==> merged[l] == Saturating(Sum(counts, Class(relabel, done, l))))
  }

  ghost predicate Merges(relabel: Labels -> Labels, seeds: set<Labels>, counts: Counts, merged: Counts) {
    MergesSome(relabel, seeds, counts, counts.Keys, merged)
  }

  function Counted(merged: Counts, l: Labels): (n: nat) {
    if l in merged then merged[l] else 0
  }

  /** `entry(..).or_insert(0)`, then `saturating_add`. */
  function AddTo(merged: Counts, l: Labels, count: nat): (r: Counts) {
    merged[l := Saturating(Counted(merged, l) + count)]
  }

  /** The counting loops: start from zeros at the seeds, then add each count to its new label. */
  method Merge(relabel: Labels -> Labels, seeds: set<Labels>, counts: Counts) returns (merged: Counts)
    ensures Merges(relabel, seeds, counts, merged)
  {
    merged := map l | l in seeds :: 0;
    var rest := counts.Keys;
    while rest != {}
      invariant rest <= counts.Keys && MergesSome(relabel, seeds, counts, counts.Keys - rest, merged)
      decreases |rest|
    {
      var k :| k in rest;
      MergeAdds(relabel, seeds, counts, counts.Keys - rest, k, merged);
      merged := AddTo(merged, relabel(k), counts[k]);
      assert counts.Keys - (rest - {k}) == counts.Keys - rest + {k};
      rest := rest - {k};
    }
    assert counts.Keys - rest == counts.Keys;
  }

  lemma MergeAdds(relabel: Labels -> Labels, seeds: set<Labels>, counts: Counts, done: set<Labels>, k: Labels,
                  merged: Counts)
    requires done <= counts.Keys && k in counts && k !in done && MergesSome(relabel, seeds, counts, done, merged)
    ensures MergesSome(relabel, seeds, counts, done + {k}, AddTo(merged, relabel(k), counts[k]))
  {
    var to := relabel(k);
    var after := AddTo(merged, to, counts[k]);
    forall l ensures l in after <==> l in seeds || Class(relabel, done + {k}, l) != {} {
      ClassGrows(relabel, done, k, l);
    }
    forall l | l in after ensures after[l] == Saturating(Sum(counts, Class(relabel, done + {k}, l))) {
      ClassGrows(relabel, done, k, l);
      if l == to { SumAdd(counts, Class(relabel, done, l), k); }
    }
  }

  lemma ClassGrows(relabel: Labels -> Labels, done: set<Labels>, k: Labels, l: Labels)
    ensures relabel(k) == l ==> Class(relabel, done + {k}, l) == Class(relabel, done, l) + {k}
    ensures relabel(k) != l ==> Class(relabel, done + {k}, l) == Class(relabel, done, l)
  {
  }

  /** The sums of the classes, by label. */
  ghost function ClassSums(relabel: Labels -> Labels, counts: Counts, labels: set<Labels>): (r: map<Labels, nat>) {
    map l | l in labels :: ClassSum(relabel, counts, l)
  }

  /** The keys that go to one of some labels. */
  function Covered(relabel: Labels -> Labels, keys: set<Labels>, some: set<Labels>): (r: set<Labels>) {
    set k | k in keys && relabel(k) in some
  }

  lemma CoveredSplits(relabel: Labels -> Labels, keys: set<Labels>, some: set<Labels>, l: Labels)
    requires l in some
    ensures Covered(relabel, keys, some) == Covered(relabel, keys, some - {l}) + Class(relabel, keys, l)
    ensures Covered(relabel, keys, some - {l}) !! Class(relabel, keys, l)
  {
  }

  /** Classes partition the keys, so their sums add up to the sum of all counts they cover. */
  lemma {:induction false} ClassesPartition(relabel: Labels -> Labels, counts: Counts, labels: set<Labels>,
                                            some: set<Labels>)
    requires some <= labels
    ensures Sum(ClassSums(relabel, counts, labels), some) == Sum(counts, Covered(relabel, counts.Keys, some))
    decreases |some|
  {
    if some == {} {
      assert Covered(relabel, counts.Keys, some) == {};
    } else {
      var l := Pick(some);
      ClassesPartition(relabel, counts, labels, some - {l});
      CoveredSplits(relabel, counts.Keys, some, l);
      SumSplit(counts, Covered(relabel, counts.Keys, some - {l}), Class(relabel, counts.Keys, l));
    }
  }

  lemma ClassAtMostTotal(relabel: Labels -> Labels, counts: Counts, l: Labels)
    ensures ClassSum(relabel, counts, l) <= Sum(counts, counts.Keys)
  {
    var group := Class(relabel, counts.Keys, l);
    assert counts.Keys == (counts.Keys - group) + group;
    SumSplit(counts, counts.Keys - group, group);
  }

  /** The merged labels cover every count. */
  lemma MergedCovers(relabel: Labels -> Labels, seeds: set<Labels>, counts: Counts, merged: Counts)
    requires Merges(relabel, seeds, counts, merged)
    ensures Sum(ClassSums(relabel, counts, merged.Keys), merged.Keys) == Sum(counts, counts.Keys)
  {
    ClassesPartition(relabel, counts, merged.Keys, merged.Keys);
    forall k | k in counts ensures relabel(k) in merged { assert k in Class(relabel, counts.Keys, relabel(k)); }
    assert Covered(relabel, counts.Keys, merged.Keys) == counts.Keys;
  }

  /**
   * Merging never raises the total, and keeps it exactly when every merged label's own sum fits u64;
   * in particular whenever the whole total does.
   */
  lemma MergeConserves(relabel: Labels -> Labels, seeds: set<Labels>, counts: Counts, merged: Counts)
    requires Merges(relabel, seeds, counts, merged)
    ensures Sum(merged, merged.Keys) <= Sum(counts, counts.Keys)
    ensures Sum(merged, merged.Keys) == Sum(counts, counts.Keys) <==>
      forall l :: l in merged ==> ClassSum(relabel, counts, l) <= U64_MAX
    ensures Sum(counts, counts.Keys) <= U64_MAX ==> Sum(merged, merged.Keys) == Sum(counts, counts.Keys)
  {
    var sums := ClassSums(relabel, counts, merged.Keys);
    MergedCovers(relabel, seeds, counts, merged);
    forall l | l in merged ensures merged[l] == Saturating(sums[l]) {}
    SumAtMost(merged, sums, merged.Keys);
    forall l | l in merged ensures sums[l] <= Sum(counts, counts.Keys) { ClassAtMostTotal(relabel, counts, l); }
  }

  // ---------------------------------------------------------------- the text

  datatype Line =
    | Help(name: string, text: string)
    | Type(name: string, kind: string)
    | Sample(name: string, labels: seq<(string, string)>, value: U64)

  const HELP: string := ['#', ' ', 'H', 'E', 'L', 'P', ' ']
  const TYPE: string := ['#', ' ', 'T', 'Y', 'P', 'E', ' ']
  const GAUGE: string := ['g', 'a', 'u', 'g', 'e']

  function RenderLabel(l: (string, string)): (s: string) {
    l.0 + ['=', '"'] + l.1 + ['"']
  }

  function RenderLabels(labels: seq<(string, string)>): (s: string) {
    if labels == [] then []
    else if |labels| == 1 then RenderLabel(labels[0])
    else RenderLabels(labels[..|labels| - 1]) + [','] + RenderLabel(labels[|labels| - 1])
  }

  function RenderLine(l: Line): (s: string) {
    match l
    case Help(name, text) => HELP + name + [' '] + text + ['\n']
    case Type(name, kind) => TYPE + name + [' '] + kind + ['\n']
    case Sample(name, labels, value) =>
      name + (if labels == [] then [] else ['{'] + RenderLabels(labels) + ['}']) + [' '] + Decimal(value) + ['\n']
  }

  function Render(lines: seq<Line>): (s: string) {
    if lines == [] then [] else Render(lines[..|lines| - 1]) + RenderLine(lines[|lines| - 1])
  }

  // ---------------------------------------------------------------- what the text must satisfy

  /** Metric n is described at line i: its HELP, directly followed by its TYPE. */
  predicate DescribedAt(lines: seq<Line>, i: nat, n: string) {
    i + 1 < |lines| && lines[i].Help? && lines[i].name == n && lines[i + 1].Type? && lines[i + 1].name == n
  }

  ghost predicate HasDescription(lines: seq<Line>, n: string) {
    exists i :: 0 <= i < |lines| && DescribedAt(lines, i, n)
  }

  /** No earlier HELP has this name. */
  predicate FirstHelp(lines: seq<Line>, i: nat, n: string)
    requires i <= |lines|
  {
    forall j :: 0 <= j < i && lines[j].Help? ==> lines[j].name != n
  }

  /** HELP and TYPE come as a pair, once per name; a sample comes after its name's HELP and has safe labels. */
  ghost predicate LineOk(lines: seq<Line>, described: set<string>, i: nat)
    requires i < |lines|
  {
    match lines[i]
    case Help(n, _) => n in described && DescribedAt(lines, i, n) && FirstHelp(lines, i, n)
    case Type(n, _) => i > 0 && DescribedAt(lines, i - 1, n)
    case Sample(n, labels, _) => SafePairs(labels) && !FirstHelp(lines, i, n)
  }

  ghost predicate WellFormed(lines: seq<Line>, described: set<string>) {
    && (forall i :: 0 <= i < |lines| ==> LineOk(lines, described, i))
    && (forall n :: n in described ==> HasDescription(lines, n))
  }

  lemma LineStays(lines: seq<Line>, longer: seq<Line>, described: set<string>, more: set<string>, i: nat)
    requires lines <= longer && described <= more && i < |lines| && LineOk(lines, described, i)
    ensures LineOk(longer, more, i)
  {
  }

  lemma DescriptionStays(lines: seq<Line>, longer: seq<Line>, n: string)
    requires lines <= longer && HasDescription(lines, n)
    ensures HasDescription(longer, n)
  {
    var i :| 0 <= i < |lines| && DescribedAt(lines, i, n);
    assert DescribedAt(longer, i, n);
  }

  lemma SampleKeeps(lines: seq<Line>, described: set<string>, l: Line)
    requires WellFormed(lines, described) && l.Sample? && l.name in described && SafePairs(l.labels)
    ensures WellFormed(lines + [l], described)
  {
    var longer := lines + [l];
    forall i | 0 <= i < |longer| ensures LineOk(longer, described, i) {
      if i < |lines| {
        assert LineOk(lines, described, i);
        LineStays(lines, longer, described, described, i);
      } else {
        assert HasDescription(lines, l.name);
        var j :| 0 <= j < |lines| && DescribedAt(lines, j, l.name);
        assert longer[j] == lines[j];
      }
    }
    forall n | n in described ensures HasDescription(longer, n) { DescriptionStays(lines, longer, n); }
  }

  lemma DescribeKeeps(lines: seq<Line>, described: set<string>, name: string, text: string, kind: string)
    requires WellFormed(lines, described) && name !in described
    ensures WellFormed(lines + [Help(name, text)] + [Type(name, kind)], described + {name})
  {
    var longer := lines + [Help(name, text)] + [Type(name, kind)];
    assert DescribedAt(longer, |lines|, name);
    forall i | 0 <= i < |longer| ensures LineOk(longer, described + {name}, i) {
      if i < |lines| {
        assert LineOk(lines, described, i);
        LineStays(lines, longer, described, described + {name}, i);
      } else if i == |lines| {
        forall j | 0 <= j < i && longer[j].Help? ensures longer[j].name != name { assert LineOk(lines, described, j); }
      }
    }
    forall n | n in described ensures HasDescription(longer, n) { DescriptionStays(lines, longer, n); }
  }

  function Zip(names: seq<string>, values: Labels): (r: seq<(string, string)>)
    requires |names| == |values|
  {
    seq(|names|, i requires 0 <= i < |names| => (names[i], values[i]))
  }

  /** One sample per merged label set, none twice, each with its merged count. */
  ghost predicate SamplesOf(samples: seq<Line>, name: string, names: seq<string>, merged: Counts, order: seq<Labels>) {
    && |samples| == |order| && Lists(LabelsBelow, merged.Keys, order)
    && (forall i :: 0 <= i < |order| ==> IsSampleOf(samples[i], name, names, merged, order[i]))
  }

  predicate IsSampleOf(line: Line, name: string, names: seq<string>, merged: Counts, l: Labels) {
    l in merged && |l| == |names| && line == Sample(name, Zip(names, l), merged[l])
  }

  predicate SafeOrder(names: seq<string>, merged: Counts, order: seq<Labels>) {
    forall i :: 0 <= i < |order| ==> order[i] in merged && SafeShape(names, order[i])
  }

  /** The lines grew by one sample per label set, in this order. */
  predicate Sampled(before: seq<Line>, after: seq<Line>, name: string, names: seq<string>, merged: Counts,
                    order: seq<Labels>) {
    && |after| == |before| + |order| && before <= after
    && forall i :: 0 <= i < |order| ==> IsSampleOf(after[|before| + i], name, names, merged, order[i])
  }

  lemma SampledGrows(before: seq<Line>, after: seq<Line>, name: string, names: seq<string>, merged: Counts,
                     order: seq<Labels>, i: nat)
    requires SafeOrder(names, merged, order) && i < |order| && Sampled(before, after, name, names, merged, order[..i])
    ensures order[i] in merged && SafeShape(names, order[i])
    ensures Sampled(before, after + [Sample(name, Zip(names, order[i]), merged[order[i]])], name, names, merged,
                    order[..i + 1])
  {
  }

  predicate SafePairs(labels: seq<(string, string)>) {
    forall k :: 0 <= k < |labels| ==> IsSafe(labels[k].1)
  }

  method JoinLabels(labels: seq<(string, string)>) returns (pairs: string)
    ensures pairs == RenderLabels(labels)
  {
    if labels == [] {
      return [];
    }
    pairs := RenderLabel(labels[0]);
    for i := 1 to |labels|
      invariant pairs == RenderLabels(labels[..i])
    {
      assert labels[..i + 1][..i] == labels[..i];
      pairs := pairs + [','] + RenderLabel(labels[i]);
    }
    assert labels[..|labels|] == labels;
  }

  method SampleText(name: string, labels: seq<(string, string)>, value: U64) returns (text: string)
    ensures text == RenderLine(Sample(name, labels, value))
  {
    var pairs := JoinLabels(labels);
    var braced := if labels == [] then [] else ['{'] + pairs + ['}'];
    text := name + braced + [' '] + Decimal(value) + ['\n'];
  }

  class MetricsText {
    var output: string
    var described: set<string>
    ghost var lines: seq<Line>

    constructor ()
      ensures Valid() && output == [] && described == {} && lines == []
    {
      output, described, lines := [], {}, [];
    }

    ghost predicate Valid()
      reads this
    {
      output == Render(lines) && WellFormed(lines, described)
    }

    ghost function Described(name: string, text: string): (r: seq<Line>)
      reads this
    {
      if name in described then [] else [Help(name, text), Type(name, GAUGE)]
    }

    method Describe(name: string, text: string)
      requires Valid()
      modifies this
      ensures Valid() && described == old(described) + {name}
      ensures lines == old(lines) + old(Described(name, text))
    {
      if name !in described {
        DescribeKeeps(lines, described, name, text, GAUGE);
        described := described + {name};
        output := output + (HELP + name + [' '] + text + ['\n']);
        output := output + (TYPE + name + [' '] + GAUGE + ['\n']);
        lines := lines + [Help(name, text)] + [Type(name, GAUGE)];
        assert lines == old(lines) + [Help(name, text), Type(name, GAUGE)];
      }
    }

    method PushSample(name: string, labels: seq<(string, string)>, value: U64)
      requires Valid() && name in described && SafePairs(labels)
      modifies this`output, this`lines
      ensures Valid() && lines == old(lines) + [Sample(name, labels, value)]
    {
      var text := SampleText(name, labels, value);
      SampleKeeps(lines, described, Sample(name, labels, value));
      output := output + text;
      lines := lines + [Sample(name, labels, value)];
    }

    method Gauge(name: string, text: string, value: U64)
      requires Valid()
      modifies this
      ensures Valid() && described == old(described) + {name}
      ensures lines == old(lines) + old(Described(name, text)) + [Sample(name, [], value)]
    {
      Describe(name, text);
      PushSample(name, [], value);
    }

    method PushSamples(name: string, names: seq<string>, merged: Counts, order: seq<Labels>)
      requires Valid() && name in described && SafeOrder(names, merged, order)
      modifies this`output, this`lines
      ensures Valid() && Sampled(old(lines), lines, name, names, merged, order)
    {
      for i := 0 to |order|
        invariant Valid() && Sampled(old(lines), lines, name, names, merged, order[..i])
      {
        SampledGrows(old(lines), lines, name, names, merged, order, i);
        PushSample(name, Zip(names, order[i]), merged[order[i]]);
      }
      assert order[..|order|] == order;
    }

    method PushMerged(name: string, names: seq<string>, merged: Counts) returns (order: seq<Labels>)
      requires Valid() && name in described
      requires forall l :: l in merged ==> SafeShape(names, l)
      modifies this`output, this`lines
      ensures Valid() && old(lines) <= lines && SamplesOf(lines[|old(lines)|..], name, names, merged, order)
    {
      order := SortLabels(merged.Keys);
      forall i | 0 <= i < |order| ensures order[i] in merged && SafeShape(names, order[i]) { assert order[i] in order; }
      PushSamples(name, names, merged, order);
    }

    /**
     * The labelled emitters: one, two or four label names; counts whose labels become equal are merged, samples
     * sorted.
     */
    method LabelledGauge(name: string, text: string, names: seq<string>, counts: Counts)
      returns (merged: Counts, order: seq<Labels>)
      requires Valid() && forall k :: k in counts ==> |k| == |names|
      modifies this
      ensures Valid() && described == old(described) + {name}
      ensures Merges(SafeLabels, {}, counts, merged)
      ensures
        var before := old(lines) + old(Described(name, text));
        before <= lines && SamplesOf(lines[|before|..], name, names, merged, order)
    {
      Describe(name, text);
      merged := Merge(SafeLabels, {}, counts);
      order := PushMerged(name, names, merged);
    }

    /** `labeled_gauges`: described always, sampled only for exactly one dimension. */
    method LabeledGauges(name: string, text: string, dimensions: seq<(string, Counts)>)
      returns (merged: Counts, order: seq<Labels>)
      requires Valid() && forall d, k :: 0 <= d < |dimensions| && k in dimensions[d].1 ==> |k| == 1
      modifies this
      ensures Valid() && described == old(described) + {name}
      ensures
        var before := old(lines) + old(Described(name, text));
        if |dimensions| != 1 then lines == before
        else
          && Merges(SafeLabels, {}, dimensions[0].1, merged)
          && before <= lines && SamplesOf(lines[|before|..], name, [dimensions[0].0], merged, order)
    {
      merged, order := map[], [];
      if |dimensions| != 1 {
        Describe(name, text);
        return;
      }
      merged, order := LabelledGauge(name, text, [dimensions[0].0], dimensions[0].1);
    }
  }

  predicate SafeShape(names: seq<string>, l: Labels) {
    |l| == |names| && forall i :: 0 <= i < |l| ==> IsSafe(l[i])
  }

  // ---------------------------------------------------------------- consumer buckets

  datatype Consumer = New | Old | Unknown

  function BucketLabel(c: Consumer): (l: Labels) {
    match c
    case New => [['n', 'e', 'w']]
    case Old => [['o', 'l', 'd']]
    case Unknown => [['u', 'n', 'k', 'n', 'o', 'w', 'n']]
  }

  /** The configured engines: the current one and, perhaps, a former one. */
  datatype Engines = Engines(current: string, former: Option<string>)

  function Unprefixed(address: string): (r: string) {
    if |address| >= 2 && address[0] == '0' && (address[1] == 'x' || address[1] == 'X') then address[2..] else address
  }

  predicate IsZeroAddress(address: string) {
    var digits := Unprefixed(address);
    digits != "" && forall i :: 0 <= i < |digits| ==> digits[i] == '0'
  }

  /** The zero addresses are one or more zeros, alone or after `0x` or `0X`. */
  lemma ZeroAddresses(zeros: string)
    requires zeros != "" && forall i :: 0 <= i < |zeros| ==> zeros[i] == '0'
    ensures IsZeroAddress(zeros) && IsZeroAddress(['0', 'x'] + zeros) && IsZeroAddress(['0', 'X'] + zeros)
  {
    assert (['0', 'x'] + zeros)[2..] == zeros && (['0', 'X'] + zeros)[2..] == zeros;
  }

  lemma ZeroAddressShape(address: string) returns (zeros: string)
    requires IsZeroAddress(address)
    ensures zeros != "" && forall i :: 0 <= i < |zeros| ==> zeros[i] == '0'
    ensures address == zeros || address == ['0', 'x'] + zeros || address == ['0', 'X'] + zeros
  {
    zeros := Unprefixed(address);
    if zeros != address {
      assert address == [address[0], address[1]] + zeros;
    }
  }

  /** `non_zero_address`. */
  function Configured(address: string): (r: Option<string>) {
    var t := Trim(address);
    if t == "" || IsZeroAddress(t) then None else Some(t)
  }

  /** `address_matches`. */
  predicate AddressMatches(consumer: string, configured: Option<string>) {
    var c := Trim(consumer);
    && c != "" && !IsZeroAddress(c) && configured.Some?
    && Trim(configured.value) != "" && !IsZeroAddress(Trim(configured.value))
    && EqIgnoreCase(c, Trim(configured.value))
  }

  /** `classify_perp_fee_consumer` and `classify_option_fee_consumer` on the configured engines. */
  function Classify(e: Engines, consumer: string): (c: Consumer) {
    var former := if e.former.Some? then Configured(e.former.value) else None;
    if AddressMatches(consumer, Configured(e.current)) then New
    else if AddressMatches(consumer, former) then Old
    else Unknown
  }

  /** The consumer is this engine: the same text up to case and padding, and not the zero address or nothing. */
  predicate Names(consumer: string, engine: string) {
    EqIgnoreCase(Trim(consumer), Trim(engine)) && Trim(consumer) != "" && !IsZeroAddress(Trim(consumer))
  }

  lemma {:induction false} TrimTwice(s: string)
    ensures Trim(Trim(s)) == Trim(s)
    decreases |s|
  {
    if s != "" && IsSpace(s[0]) {
      TrimTwice(s[1..]);
    } else if s != "" && IsSpace(s[|s| - 1]) {
      TrimTwice(s[..|s| - 1]);
    }
  }

  lemma MatchesIff(consumer: string, engine: string)
    ensures AddressMatches(consumer, Configured(engine)) <==> Names(consumer, engine)
  {
    TrimTwice(engine);
  }

  /** New exactly for the current engine, old exactly for the former one when it is not the current. */
  lemma ClassifyMeaning(e: Engines, consumer: string)
    ensures Classify(e, consumer) == New <==> Names(consumer, e.current)
    ensures Classify(e, consumer) == Old <==>
            !Names(consumer, e.current) && e.former.Some? && Names(consumer, e.former.value)
    ensures BucketOf(e, [consumer]) == BucketLabel(Classify(e, consumer))
  {
    MatchesIff(consumer, e.current);
    if e.former.Some? {
      MatchesIff(consumer, e.former.value);
    }
  }

  /** The bucket of a consumer. */
  function BucketOf(e: Engines, k: Labels): (l: Labels) {
    BucketLabel(if |k| == 1 then Classify(e, k[0]) else Unknown)
  }

  /** The fee metrics' bucketing: all three buckets are always present, and the total is kept whenever it fits. */
  method BucketConsumers(e: Engines, raw: Counts) returns (bucketed: Counts)
    requires forall k :: k in raw ==> |k| == 1
    ensures bucketed.Keys == {BucketLabel(New), BucketLabel(Old), BucketLabel(Unknown)}
    ensures Merges(k => BucketOf(e, k), bucketed.Keys, raw, bucketed)
    ensures Sum(raw, raw.Keys) <= U64_MAX ==> Sum(bucketed, bucketed.Keys) == Sum(raw, raw.Keys)
  {
    var seeds := {BucketLabel(New), BucketLabel(Old), BucketLabel(Unknown)};
    var relabel := k => BucketOf(e, k);
    bucketed := Merge(relabel, seeds, raw);
    MergeConserves(relabel, seeds, raw, bucketed);
  }
}
