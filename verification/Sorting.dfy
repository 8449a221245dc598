/** Lexicographic order, as the source's sorted maps and listings use it, and sorting a set by it. */
module Sorting {

  /** A strict total order. */
  ghost predicate IsOrder<T(!new)>(below: (T, T) -> bool) {
    && (forall x :: !below(x, x))
    && (forall x, y :: x != y ==> below(x, y) || below(y, x))
    && (forall x, y, z :: below(x, y) && below(y, z) ==> below(x, z))
  }

  /** The first difference decides; a proper prefix comes first. */
  predicate Lex<T(==)>(below: (T, T) -> bool, a: seq<T>, b: seq<T>)
    decreases |a|
  {
    if b == [] then false
    else if a == [] then true
    else below(a[0], b[0]) || (a[0] == b[0] && Lex(below, a[1..], b[1..]))
  }

  lemma {:induction false} LexIrreflexive<T(!new)>(below: (T, T) -> bool, a: seq<T>)
    requires IsOrder(below)
    ensures !Lex(below, a, a)
    decreases |a|
  {
    if a != [] {
      LexIrreflexive(below, a[1..]);
    }
  }

  lemma {:induction false} LexTotal<T(!new)>(below: (T, T) -> bool, a: seq<T>, b: seq<T>)
    requires IsOrder(below) && a != b
    ensures Lex(below, a, b) || Lex(below, b, a)
    decreases |a|
  {
    if a != [] && b != [] && a[0] == b[0] {
      assert a == [a[0]] + a[1..] && b == [b[0]] + b[1..];
      LexTotal(below, a[1..], b[1..]);
    }
  }

  lemma {:induction false} LexTransitive<T(!new)>(below: (T, T) -> bool, a: seq<T>, b: seq<T>, c: seq<T>)
    requires IsOrder(below) && Lex(below, a, b) && Lex(below, b, c)
    ensures Lex(below, a, c)
    decreases |a|
  {
    if a != [] && a[0] == b[0] && b[0] == c[0] {
      LexTransitive(below, a[1..], b[1..], c[1..]);
    }
  }

  predicate CharBelow(x: char, y: char) {
    x < y
  }

  predicate TextBelow(a: string, b: string) {
    Lex(CharBelow, a, b)
  }

  predicate LabelsBelow(a: seq<string>, b: seq<string>) {
    Lex(TextBelow, a, b)
  }

  lemma TextsOrdered()
    ensures IsOrder(TextBelow)
  {
    assert IsOrder(CharBelow);
    forall a ensures !TextBelow(a, a) { LexIrreflexive(CharBelow, a); }
    forall a, b | a != b ensures TextBelow(a, b) || TextBelow(b, a) { LexTotal(CharBelow, a, b); }
    forall a, b, c | TextBelow(a, b) && TextBelow(b, c) ensures TextBelow(a, c) { LexTransitive(CharBelow, a, b, c); }
  }

  lemma TextIrreflexive(a: string)
    ensures !TextBelow(a, a)
  {
    TextsOrdered();
  }

  lemma TextTransitive(a: string, b: string, c: string)
    requires TextBelow(a, b) && TextBelow(b, c)
    ensures TextBelow(a, c)
  {
    TextsOrdered();
  }

  lemma LabelsOrdered()
    ensures IsOrder(LabelsBelow)
  {
    TextsOrdered();
    forall a ensures !LabelsBelow(a, a) { LexIrreflexive(TextBelow, a); }
    forall a, b | a != b ensures LabelsBelow(a, b) || LabelsBelow(b, a) { LexTotal(TextBelow, a, b); }
    forall a, b, c | LabelsBelow(a, b) && LabelsBelow(b, c)
      ensures LabelsBelow(a, c)
    {
      LexTransitive(TextBelow, a, b, c);
    }
  }

  /** Strictly increasing, so without repetition. */
  predicate Increasing<T>(below: (T, T) -> bool, s: seq<T>) {
    forall i, j :: 0 <= i < j < |s| ==> below(s[i], s[j])
  }

  /** All of the set, in order. */
  ghost predicate Lists<T(!new)>(below: (T, T) -> bool, all: set<T>, s: seq<T>) {
    Increasing(below, s) && |s| == |all| && (forall x :: x in s <==> x in all)
  }

  /** There is only one such sequence. */
  lemma {:induction false} ListsUnique<T(!new)>(below: (T, T) -> bool, all: set<T>, s: seq<T>, t: seq<T>)
    requires IsOrder(below) && Lists(below, all, s) && Lists(below, all, t)
    ensures s == t
    decreases |s|
  {
    if s != [] {
      SameFirst(below, all, s, t);
      ListsRest(below, all, s);
      ListsRest(below, all, t);
      ListsUnique(below, all - {s[0]}, s[1..], t[1..]);
      assert s == [s[0]] + s[1..] && t == [t[0]] + t[1..];
    }
  }

  lemma SameFirst<T(!new)>(below: (T, T) -> bool, all: set<T>, s: seq<T>, t: seq<T>)
    requires IsOrder(below) && Lists(below, all, s) && Lists(below, all, t) && s != []
    ensures t != [] && s[0] == t[0]
  {
    assert s[0] in s && t[0] in t;
    var i :| 0 <= i < |t| && t[i] == s[0];
    var j :| 0 <= j < |s| && s[j] == t[0];
  }

  lemma ListsRest<T(!new)>(below: (T, T) -> bool, all: set<T>, s: seq<T>)
    requires IsOrder(below) && Lists(below, all, s) && s != []
    ensures Lists(below, all - {s[0]}, s[1..])
  {
    assert s == [s[0]] + s[1..];
    assert s[0] in s && all == (all - {s[0]}) + {s[0]};
  }

  lemma {:induction false} LeastExists<T(!new)>(below: (T, T) -> bool, all: set<T>) returns (m: T)
    requires IsOrder(below) && all != {}
    ensures m in all && forall x :: x in all && x != m ==> below(m, x)
    decreases |all|
  {
    m :| m in all;
    if all - {m} != {} {
      var rest := LeastExists(below, all - {m});
      if below(rest, m) {
        m := rest;
      }
    }
  }

  ghost function Elements<T(!new)>(s: seq<T>): (r: set<T>) {
    set x | x in s
  }

  ghost function BelowIn<T(!new)>(below: (T, T) -> bool, all: set<T>, y: T): (r: set<T>) {
    set x | x in all && below(x, y)
  }

  lemma {:induction false} PrefixSize<T(!new)>(below: (T, T) -> bool, s: seq<T>, k: nat)
    requires IsOrder(below) && Increasing(below, s) && k <= |s|
    ensures |Elements(s[..k])| == k
    decreases k
  {
    if k > 0 {
      PrefixSize(below, s, k - 1);
      assert s[..k] == s[..k - 1] + [s[k - 1]];
      assert s[k - 1] !in s[..k - 1];
      assert Elements(s[..k]) == Elements(s[..k - 1]) + {s[k - 1]};
    }
  }

  /** The k-th of the sorted elements has k below it. */
  lemma Rank<T(!new)>(below: (T, T) -> bool, all: set<T>, s: seq<T>, k: nat)
    requires IsOrder(below) && Lists(below, all, s) && k < |s|
    ensures |BelowIn(below, all, s[k])| == k
  {
    PrefixSize(below, s, k);
    forall x ensures x in BelowIn(below, all, s[k]) <==> x in Elements(s[..k]) {
      if x in BelowIn(below, all, s[k]) {
        var i :| 0 <= i < |s| && s[i] == x;
        assert s[..k][i] == x;
      }
      if x in s[..k] {
        var i :| 0 <= i < k && s[..k][i] == x;
        assert s[i] in s;
      }
    }
    assert BelowIn(below, all, s[k]) == Elements(s[..k]);
  }

  method Least<T(!new)>(below: (T, T) -> bool, all: set<T>) returns (m: T)
    requires IsOrder(below) && all != {}
    ensures m in all && forall x :: x in all && x != m ==> below(m, x)
  {
    m :| m in all;
    var rest := all - {m};
    while rest != {}
      invariant m in all && rest <= all
      invariant forall x :: x in all && x !in rest && x != m ==> below(m, x)
      decreases rest
    {
      var x :| x in rest;
      rest := rest - {x};
      if below(x, m) {
        m := x;
      }
    }
  }

  /** The set in order. */
  method Sort<T(!new)>(below: (T, T) -> bool, all: set<T>) returns (s: seq<T>)
    requires IsOrder(below)
    ensures Lists(below, all, s)
  {
    s := [];
    var rest := all;
    while rest != {}
      invariant rest <= all && |s| + |rest| == |all| && Increasing(below, s)
      invariant forall x :: x in s <==> x in all - rest
      invariant forall i, x :: 0 <= i < |s| && x in rest ==> below(s[i], x)
      decreases rest
    {
      var m := Least(below, rest);
      rest := rest - {m};
      s := s + [m];
    }
  }

  method SortTexts(all: set<string>) returns (s: seq<string>)
    ensures Lists(TextBelow, all, s)
  {
    TextsOrdered();
    s := Sort(TextBelow, all);
  }

  method SortLabels(all: set<seq<string>>) returns (s: seq<seq<string>>)
    ensures Lists(LabelsBelow, all, s)
  {
    LabelsOrdered();
    s := Sort(LabelsBelow, all);
  }
}
