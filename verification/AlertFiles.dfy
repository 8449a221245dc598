/**
 * The pending directory of the alert outbox: file names, which files a retry takes, and which are ever
 * delivered by retries. A retry takes the first five JSON files by name, whatever became of them before.
 */
module AlertFiles {
  import opened Sorting
  import opened Text

  datatype Service = Backup | Watchdog | Probe

  datatype Alert = Alert(service: Service, utc: string, executionId: string)

  /** A pending file: readable alert fields, or one that `read_pending` refuses. */
  datatype File = Good(alert: Alert) | Bad

  type Files = map<string, File>

  // ---------------------------------------------------------------- file names

  const BACKUP_PREFIX: string := ['b', 'a', 'c', 'k', 'u', 'p', '-']
  const WATCHDOG_PREFIX: string := ['w', 'a', 't', 'c', 'h', 'd', 'o', 'g', '-']
  const SUFFIX: string := ['.', 'j', 's', 'o', 'n']

  function FileName(service: Service, key: string): (n: string) {
    (if service == Watchdog then WATCHDOG_PREFIX else BACKUP_PREFIX) + key + SUFFIX
  }

  predicate IsIncidentKey(key: string) {
    |key| == 64 && AllHex(key) && Lower(key) == key
  }

  /** The incident key in a watchdog file name. */
  function WatchdogKey(name: string): (r: Option<string>)
    ensures r.Some? ==> IsIncidentKey(r.value) && name == FileName(Watchdog, r.value)
  {
    if |name| == 78 && name[..9] == WATCHDOG_PREFIX && name[73..] == SUFFIX && IsIncidentKey(name[9..73]) then
      assert name == name[..9] + name[9..73] + name[73..];
      Some(name[9..73])
    else None
  }

  lemma WatchdogKeyInverts(key: string)
    requires IsIncidentKey(key)
    ensures WatchdogKey(FileName(Watchdog, key)) == Some(key)
  {
  }

  /** The file belongs to the alert inside it, so a retry may post it. */
  predicate Identified(name: string, a: Alert) {
    match a.service
    case Backup => name == FileName(Backup, a.executionId)
    case Watchdog => WatchdogKey(name).Some?
    case Probe => false
  }

  predicate IsLowerHex(c: char) {
    '0' <= c <= '9' || 'a' <= c <= 'f'
  }

  /** A backup alert belongs to one file name; a watchdog alert to any with 64 lower-case hexadecimal digits. */
  lemma IdentifiedExactly(name: string, a: Alert)
    ensures a.service == Probe ==> !Identified(name, a)
    ensures a.service == Backup ==>
      (Identified(name, a) <==> name == ['b', 'a', 'c', 'k', 'u', 'p', '-'] + a.executionId + ['.', 'j', 's', 'o', 'n'])
    ensures a.service == Watchdog ==>
      (Identified(name, a) <==>
       && |name| == 78 && name[..9] == ['w', 'a', 't', 'c', 'h', 'd', 'o', 'g', '-']
       && name[73..] == ['.', 'j', 's', 'o', 'n'] && forall i :: 9 <= i < 73 ==> IsLowerHex(name[i]))
  {
    if |name| == 78 {
      KeyDigits(name[9..73]);
    }
  }

  lemma KeyDigits(key: string)
    ensures IsIncidentKey(key) <==> |key| == 64 && forall i :: 0 <= i < |key| ==> IsLowerHex(key[i])
  {
    if IsIncidentKey(key) {
      forall i | 0 <= i < |key| ensures IsLowerHex(key[i]) { assert Lower(key)[i] == LowerChar(key[i]); }
    }
    if forall i :: 0 <= i < |key| ==> IsLowerHex(key[i]) {
      assert forall i :: 0 <= i < |key| ==> Lower(key)[i] == LowerChar(key[i]) == key[i];
      assert Lower(key) == key;
    }
  }

  /** Whatever an alert is queued under when it is raised, a retry may post it from there. */
  lemma RaisedIsIdentified(service: Service, key: string, a: Alert)
    requires a.service == service && service != Probe
    requires if service == Backup then key == a.executionId else |key| == 64 && forall c :: c in key ==> IsLowerHex(c)
    ensures Identified(FileName(service, key), a) && IsJson(FileName(service, key))
  {
    if service == Watchdog {
      KeyDigits(key);
      WatchdogKeyInverts(key);
    }
    var name := FileName(service, key);
    assert name[|name| - |SUFFIX|..] == SUFFIX;
  }

  // ---------------------------------------------------------------- which files a retry takes

  const RETRY_LIMIT: nat := 5

  /** `*.json`. */
  predicate IsJson(name: string) {
    |name| >= |SUFFIX| && name[|name| - |SUFFIX|..] == SUFFIX
  }

  lemma JsonExactly(name: string, stem: string)
    ensures IsJson(stem + ['.', 'j', 's', 'o', 'n'])
    ensures IsJson(name) ==> name == name[..|name| - 5] + ['.', 'j', 's', 'o', 'n']
  {
    var s := stem + SUFFIX;
    assert s[|s| - |SUFFIX|..] == SUFFIX;
  }

  function JsonNames(files: Files): (r: set<string>) {
    set n | n in files && IsJson(n)
  }

  function Before(files: Files, name: string): (r: set<string>) {
    set n | n in JsonNames(files) && TextBelow(n, name)
  }

  /** Among the first five by name. */
  predicate Listed(files: Files, name: string) {
    name in JsonNames(files) && |Before(files, name)| < RETRY_LIMIT
  }

  /** The first of the sorted names are exactly those listed, in order and without repetition. */
  lemma FirstOnes(files: Files, sorted: seq<string>, n: nat)
    requires Lists(TextBelow, JsonNames(files), sorted)
    requires n == if |sorted| < RETRY_LIMIT then |sorted| else RETRY_LIMIT
    ensures Increasing(TextBelow, sorted[..n]) && forall i, j :: 0 <= i < j < n ==> sorted[i] != sorted[j]
    ensures forall x :: x in sorted[..n] <==> Listed(files, x)
  {
    TextsOrdered();
    forall x ensures x in sorted[..n] <==> Listed(files, x) {
      if x in sorted {
        var k :| 0 <= k < |sorted| && sorted[k] == x;
        Ranked(files, sorted, k);
        PrefixHas(sorted, n, k);
      } else {
        assert x !in sorted[..n];
      }
    }
    forall i, j | 0 <= i < j < n ensures sorted[i] != sorted[j] { TextIrreflexive(sorted[i]); }
  }

  lemma Ranked(files: Files, sorted: seq<string>, k: nat)
    requires Lists(TextBelow, JsonNames(files), sorted) && k < |sorted|
    ensures sorted[k] in JsonNames(files) && |Before(files, sorted[k])| == k
  {
    TextsOrdered();
    Rank(TextBelow, JsonNames(files), sorted, k);
    assert sorted[k] in sorted;
    forall x ensures x in Before(files, sorted[k]) <==> x in BelowIn(TextBelow, JsonNames(files), sorted[k]) {}
    assert Before(files, sorted[k]) == BelowIn(TextBelow, JsonNames(files), sorted[k]);
  }

  lemma PrefixHas(sorted: seq<string>, n: nat, k: nat)
    requires n <= |sorted| && k < |sorted| && forall i, j :: 0 <= i < j < |sorted| ==> TextBelow(sorted[i], sorted[j])
    ensures sorted[k] in sorted[..n] <==> k < n
  {
    if sorted[k] in sorted[..n] && n <= k {
      var i :| 0 <= i < n && sorted[..n][i] == sorted[k];
      TextIrreflexive(sorted[k]);
    }
    assert k < n ==> sorted[..n][k] == sorted[k];
  }

  // ---------------------------------------------------------------- which files are ever delivered

  /** No retry ever delivers the file: it is unreadable, or does not belong to its alert. */
  predicate Stuck(files: Files, name: string)
    requires name in files
  {
    files[name].Bad? || !Identified(name, files[name].alert)
  }

  function StuckBefore(files: Files, name: string): (r: set<string>) {
    set n | n in Before(files, name) && Stuck(files, n)
  }

  function LooseBefore(files: Files, name: string): (r: set<string>) {
    set n | n in Before(files, name) && !Stuck(files, n)
  }

  /** The files a retry delivers when nothing fails. */
  function Deliverable(files: Files): (r: set<string>) {
    set n | n in files && Listed(files, n) && !Stuck(files, n)
  }

  function Round(files: Files): (r: Files) {
    files - Deliverable(files)
  }

  function Rounds(files: Files, k: nat): (r: Files) {
    if k == 0 then files else Rounds(Round(files), k - 1)
  }

  lemma RoundKeepsStuck(files: Files, name: string)
    ensures StuckBefore(Round(files), name) == StuckBefore(files, name)
    ensures LooseBefore(Round(files), name) <= LooseBefore(files, name)
  {
  }

  lemma SubsetSize<T>(a: set<T>, b: set<T>)
    requires a <= b
    ensures |a| <= |b| && (a != b ==> |a| < |b|)
  {
    assert b == a + (b - a);
  }

  /** Behind five stuck files nothing is listed. */
  lemma StarvedNotListed(files: Files, name: string)
    requires |StuckBefore(files, name)| >= RETRY_LIMIT
    ensures !Listed(files, name)
  {
    SubsetSize(StuckBefore(files, name), Before(files, name));
  }

  /** The first file that is not stuck is listed, unless five stuck ones come before it. */
  lemma FirstLooseIsListed(files: Files, name: string, first: string)
    requires (first == name && name in JsonNames(files)) || first in LooseBefore(files, name)
    requires |StuckBefore(files, name)| < RETRY_LIMIT && LooseBefore(files, first) == {}
    ensures Listed(files, first)
  {
    forall x | x in Before(files, first)
      ensures x in StuckBefore(files, name)
    {
      assert x !in LooseBefore(files, first);
      if first != name {
        TextTransitive(x, first, name);
      }
    }
    SubsetSize(Before(files, first), StuckBefore(files, name));
  }

  /** Some file up to the given one is delivered. */
  lemma SomeoneGoes(files: Files, name: string) returns (first: string)
    requires name in JsonNames(files) && !Stuck(files, name) && |StuckBefore(files, name)| < RETRY_LIMIT
    ensures first in Deliverable(files) && (first == name || first in LooseBefore(files, name))
  {
    TextsOrdered();
    first := LeastExists(TextBelow, LooseBefore(files, name) + {name});
    forall x ensures x !in LooseBefore(files, first) { NoneLooser(files, name, first, x); }
    assert LooseBefore(files, first) == {};
    FirstLooseIsListed(files, name, first);
  }

  lemma NoneLooser(files: Files, name: string, first: string, x: string)
    requires first == name || first in LooseBefore(files, name)
    requires forall y :: y in LooseBefore(files, name) + {name} && y != first ==> TextBelow(first, y)
    ensures x !in LooseBefore(files, first)
  {
    TextIrreflexive(first);
    if x in LooseBefore(files, first) {
      if first != name {
        TextTransitive(x, first, name);
      }
      TextTransitive(first, x, first);
    }
  }

  lemma {:induction false} Drains(files: Files, name: string, k: nat)
    requires name in files ==> IsJson(name) && !Stuck(files, name)
    requires |StuckBefore(files, name)| < RETRY_LIMIT && k > |LooseBefore(files, name)|
    ensures name !in Rounds(files, k)
    decreases k
  {
    RoundKeepsStuck(files, name);
    SubsetSize(LooseBefore(Round(files), name), LooseBefore(files, name));
    if name in files {
      var first := SomeoneGoes(files, name);
      if first == name {
        Gone(Round(files), name, k - 1);
      } else {
        assert first !in LooseBefore(Round(files), name);
        Drains(Round(files), name, k - 1);
      }
    } else {
      Gone(files, name, k);
    }
  }

  lemma {:induction false} Gone(files: Files, name: string, k: nat)
    requires name !in files
    ensures name !in Rounds(files, k)
    decreases k
  {
    if k > 0 {
      Gone(Round(files), name, k - 1);
    }
  }

  lemma {:induction false} Stays(files: Files, name: string, k: nat)
    requires name in files && (!IsJson(name) || Stuck(files, name) || |StuckBefore(files, name)| >= RETRY_LIMIT)
    ensures name in Rounds(files, k) && Rounds(files, k)[name] == files[name]
    decreases k
  {
    if k > 0 {
      RoundKeepsStuck(files, name);
      if |StuckBefore(files, name)| >= RETRY_LIMIT {
        StarvedNotListed(files, name);
      }
      Stays(Round(files), name, k - 1);
    }
  }

  /**
   * If nothing fails, repeated retries deliver exactly the JSON files that belong to their alert and have
   * fewer than five stuck JSON files before them by name; as many retries as files suffice.
   */
  lemma DeliveredExactly(files: Files, name: string, k: nat)
    requires name in files && k >= |files|
    ensures name !in Rounds(files, k) <==>
            IsJson(name) && !Stuck(files, name) && |StuckBefore(files, name)| < RETRY_LIMIT
  {
    if IsJson(name) && !Stuck(files, name) && |StuckBefore(files, name)| < RETRY_LIMIT {
      TextIrreflexive(name);
      SubsetSize(LooseBefore(files, name), files.Keys);
      assert name in files.Keys && name !in LooseBefore(files, name);
      Drains(files, name, k);
    } else {
      Stays(files, name, k);
    }
  }

  lemma {:induction false} RoundsKeepStuck(files: Files, name: string, k: nat)
    ensures StuckBefore(Rounds(files, k), name) == StuckBefore(files, name)
    decreases k
  {
    if k > 0 {
      RoundKeepsStuck(files, name);
      RoundsKeepStuck(Round(files), name, k - 1);
    }
  }

  function Unreadable(c: char): (name: string) {
    ['a', c] + SUFFIX
  }

  function StarvingFiles(alert: Alert): (files: Files) {
    map[Unreadable('0') := Bad, Unreadable('1') := Bad, Unreadable('2') := Bad, Unreadable('3') := Bad,
        Unreadable('4') := Bad, FileName(Backup, alert.executionId) := Good(alert)]
  }

  lemma UnreadableFirst(c: char, id: string)
    ensures IsJson(Unreadable(c)) && Unreadable(c)[0] == 'a' && Unreadable(c)[1] == c
    ensures Unreadable(c) != FileName(Backup, id) && TextBelow(Unreadable(c), FileName(Backup, id))
  {
    assert FileName(Backup, id)[0] == 'b';
  }

  /** Five unreadable files, and behind them any backup alert: it is never retried. */
  lemma StarvingInput(alert: Alert, k: nat)
    ensures
      var files, name := StarvingFiles(alert), FileName(Backup, alert.executionId);
      name in Rounds(files, k) && !Listed(Rounds(files, k), name)
  {
    var files, id := StarvingFiles(alert), alert.executionId;
    var name, zero, one, two := FileName(Backup, id), Unreadable('0'), Unreadable('1'), Unreadable('2');
    var three, four := Unreadable('3'), Unreadable('4');
    UnreadableFirst('0', id);
    UnreadableFirst('1', id);
    UnreadableFirst('2', id);
    UnreadableFirst('3', id);
    UnreadableFirst('4', id);
    assert |{zero, one, two, three, four}| == 5;
    SubsetSize({zero, one, two, three, four}, StuckBefore(files, name));
    Stays(files, name, k);
    RoundsKeepStuck(files, name, k);
    StarvedNotListed(Rounds(files, k), name);
  }
}
