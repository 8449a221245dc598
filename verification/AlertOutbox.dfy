/**
 * The backup alert outbox: queue a file, post, mark, remove. The process may die, or an operation may
 * fail, at any durable step; a ghost log records what happened across all invocations on one host.
 */
module AlertOutbox {
  import opened AlertFiles
  import opened Sorting
  import opened Text

  /** What a durable operation meets. */
  datatype Fault = Fine | Failure | Death

  /** What one POST attempt comes back with: a message id, a refusal, or something worth retrying. */
  datatype Answer = Confirmed | Refused | Retryable

  datatype Event =
    | Queued(name: string, alert: Alert)
    | Posted(name: string, alert: Alert)
    | Marked(key: string)
    | Removed(name: string, alert: Alert)
    | Suppressed(key: string)

  // ---------------------------------------------------------------- what the log must say

  ghost predicate PostedAfter(log: seq<Event>, i: nat, name: string, a: Alert) {
    exists j :: i < j < |log| && log[j] == Posted(name, a)
  }

  /** A queued alert is on disk or was posted afterwards. */
  ghost predicate Accounted(files: Files, log: seq<Event>, i: nat)
    requires i < |log| && log[i].Queued?
  {
    || (log[i].name in files && files[log[i].name] == Good(log[i].alert))
    || PostedAfter(log, i, log[i].name, log[i].alert)
  }

  /** Every alert ever queued is still on disk or was posted, confirmed, afterwards. */
  ghost predicate QueuedOk(files: Files, log: seq<Event>) {
    forall i :: 0 <= i < |log| && log[i].Queued? ==> Accounted(files, log, i)
  }

  /** A removal follows the confirmed post of that very file, with at most its mark in between. */
  predicate RemovalOk(log: seq<Event>, i: nat)
    requires i < |log| && log[i].Removed?
  {
    || (i >= 1 && log[i - 1] == Posted(log[i].name, log[i].alert))
    || (i >= 2 && log[i - 1].Marked? && log[i - 2] == Posted(log[i].name, log[i].alert))
  }

  predicate IncidentPosted(e: Event, key: string) {
    e.Posted? && e.name == FileName(Watchdog, key)
  }

  /** A suppression for an incident follows a confirmed post for it. */
  ghost predicate SuppressionOk(log: seq<Event>, i: nat)
    requires i < |log| && log[i].Suppressed?
  {
    exists j :: 0 <= j < i && IncidentPosted(log[j], log[i].key)
  }

  ghost predicate MarkerOk(marker: Option<string>, log: seq<Event>) {
    marker.Some? ==> exists j :: 0 <= j < |log| && IncidentPosted(log[j], marker.value)
  }

  ghost predicate LogOk(files: Files, marker: Option<string>, log: seq<Event>) {
    && QueuedOk(files, log) && MarkerOk(marker, log)
    && (forall i :: 0 <= i < |log| && log[i].Removed? ==> RemovalOk(log, i))
    && (forall i :: 0 <= i < |log| && log[i].Suppressed? ==> SuppressionOk(log, i))
  }

  /** An event that removes nothing and suppresses nothing is safe to append while files only grow. */
  lemma AppendKeeps(files: Files, marker: Option<string>, log: seq<Event>, e: Event, more: Files)
    requires LogOk(files, marker, log) && !e.Removed? && !e.Suppressed?
    requires forall n :: n in files ==> n in more && more[n] == files[n]
    requires e.Queued? ==> e.name in more && more[e.name] == Good(e.alert)
    ensures LogOk(more, marker, log + [e])
  {
    var longer := log + [e];
    forall i | 0 <= i < |longer| && longer[i].Queued?
      ensures Accounted(more, longer, i)
    {
      assert i < |log| ==> Accounted(files, log, i);
      if i < |log| && PostedAfter(log, i, log[i].name, log[i].alert) {
        var j :| i < j < |log| && log[j] == Posted(log[i].name, log[i].alert);
        assert longer[j] == log[j];
      }
    }
    SuffixKeeps(marker, log, e);
  }

  lemma SuffixKeeps(marker: Option<string>, log: seq<Event>, e: Event)
    requires MarkerOk(marker, log)
    requires forall i :: 0 <= i < |log| && log[i].Removed? ==> RemovalOk(log, i)
    requires forall i :: 0 <= i < |log| && log[i].Suppressed? ==> SuppressionOk(log, i)
    ensures
      var longer := log + [e];
      && MarkerOk(marker, longer)
      && (forall i :: 0 <= i < |log| && longer[i].Removed? ==> RemovalOk(longer, i))
      && (forall i :: 0 <= i < |log| && longer[i].Suppressed? ==> SuppressionOk(longer, i))
  {
    var longer := log + [e];
    if marker.Some? {
      var j :| 0 <= j < |log| && IncidentPosted(log[j], marker.value);
      assert longer[j] == log[j];
    }
    forall i | 0 <= i < |log| && longer[i].Removed? ensures RemovalOk(longer, i) { assert RemovalOk(log, i); }
    forall i | 0 <= i < |log| && longer[i].Suppressed? ensures SuppressionOk(longer, i) {
      assert SuppressionOk(log, i);
      var j :| 0 <= j < i && IncidentPosted(log[j], log[i].key);
      assert longer[j] == log[j];
    }
  }

  /** An alert posted at `last` may leave the disk, the others stay. */
  lemma RemovalAccounts(files: Files, log: seq<Event>, e: Event, name: string, a: Alert, last: nat, i: nat)
    requires i < |log| && log[i].Queued? && Accounted(files, log, i)
    requires name in files && files[name] == Good(a) && last < |log| && log[last] == Posted(name, a)
    requires forall k :: last < k < |log| ==> !log[k].Queued?
    ensures Accounted(files - {name}, log + [e], i)
  {
    var longer := log + [e];
    if log[i].name == name && log[i].alert == a {
      assert longer[last] == Posted(name, a);
    } else if PostedAfter(log, i, log[i].name, log[i].alert) {
      var j :| i < j < |log| && log[j] == Posted(log[i].name, log[i].alert);
      assert longer[j] == log[j];
    }
  }

  /** Removing a file right after its post, or after its mark, is safe. */
  lemma RemoveKeeps(files: Files, marker: Option<string>, log: seq<Event>, name: string, a: Alert)
    requires LogOk(files, marker, log) && name in files && files[name] == Good(a)
    requires RemovalOk(log + [Removed(name, a)], |log|)
    ensures LogOk(files - {name}, marker, log + [Removed(name, a)])
  {
    var longer := log + [Removed(name, a)];
    SuffixKeeps(marker, log, Removed(name, a));
    var last := if longer[|log| - 1] == Posted(name, a) then |log| - 1 else |log| - 2;
    forall i | 0 <= i < |longer| && longer[i].Queued?
      ensures Accounted(files - {name}, longer, i)
    {
      assert Accounted(files, log, i);
      RemovalAccounts(files, log, Removed(name, a), name, a, last, i);
    }
  }

  lemma MarkKeeps(files: Files, marker: Option<string>, log: seq<Event>, key: string)
    requires LogOk(files, marker, log) && log != [] && IncidentPosted(log[|log| - 1], key)
    ensures LogOk(files, Some(key), log + [Marked(key)])
  {
    AppendKeeps(files, marker, log, Marked(key), files);
    assert (log + [Marked(key)])[|log| - 1] == log[|log| - 1];
  }

  lemma SuppressKeeps(files: Files, log: seq<Event>, key: string)
    requires LogOk(files, Some(key), log)
    ensures LogOk(files, Some(key), log + [Suppressed(key)])
  {
    var longer := log + [Suppressed(key)];
    SuffixKeeps(Some(key), log, Suppressed(key));
    var j :| 0 <= j < |log| && IncidentPosted(log[j], key);
    assert longer[j] == log[j];
    forall i | 0 <= i < |longer| && longer[i].Queued?
      ensures Accounted(files, longer, i)
    {
      assert Accounted(files, log, i);
      if PostedAfter(log, i, log[i].name, log[i].alert) {
        var k :| i < k < |log| && log[k] == Posted(log[i].name, log[i].alert);
        assert longer[k] == log[k];
      }
    }
  }

  // ---------------------------------------------------------------- one host

  /** Within so many attempts one is confirmed, and all before it are worth retrying. */
  predicate Delivers(answers: nat -> Answer, from: nat, tries: nat)
    decreases tries
  {
    tries > 0 && (answers(from) == Confirmed || (answers(from) == Retryable && Delivers(answers, from + 1, tries - 1)))
  }

  /** Confirmed at that attempt, after retryable answers only. */
  predicate ConfirmedAt(answers: nat -> Answer, from: nat, at: nat) {
    answers(at) == Confirmed && forall i :: from <= i < at ==> answers(i) == Retryable
  }

  lemma {:induction false} DeliversExactly(answers: nat -> Answer, from: nat, tries: nat)
    ensures Delivers(answers, from, tries) <==> exists at :: from <= at < from + tries && ConfirmedAt(answers, from, at)
    decreases tries
  {
    if tries > 0 {
      DeliversExactly(answers, from + 1, tries - 1);
      if answers(from) == Confirmed {
        assert ConfirmedAt(answers, from, from);
      } else if answers(from) == Retryable {
        if Delivers(answers, from, tries) {
          var at :| from + 1 <= at < from + tries && ConfirmedAt(answers, from + 1, at);
          assert ConfirmedAt(answers, from, at);
        }
        if at :| from <= at < from + tries && ConfirmedAt(answers, from, at) {
          assert ConfirmedAt(answers, from + 1, at);
        }
      }
    }
  }

  /** How one invocation ends: an exit code, or the process died. */
  datatype Exit = Code(code: int) | Died

  datatype Invocation = RaiseAlert(service: Service, runId: string, incident: string, utc: string) | RetryPending

  class Host {
    var pending: Files
    var marker: Option<string>
    var probeMarker: Option<string>
    ghost var log: seq<Event>
    var operations: nat
    var attempts: nat
    const faults: nat -> Fault
    const answers: nat -> Answer

    /** A host with some files already in the pending directory and nothing marked. */
    constructor (files: Files, faults: nat -> Fault, answers: nat -> Answer)
      ensures Valid() && pending == files && log == []
    {
      pending, marker, probeMarker, log, operations, attempts := files, None, None, [], 0, 0;
      this.faults, this.answers := faults, answers;
    }

    ghost predicate Valid()
      reads this
    {
      LogOk(pending, marker, log)
    }

    /** Nothing ever fails on this host, and every post is confirmed. */
    ghost predicate Healthy() {
      (forall i :: faults(i) == Fine) && (forall i :: answers(i) == Confirmed)
    }

    /** The process dies at one of these operations. */
    ghost predicate Dies(from: nat, to: nat) {
      exists i :: from <= i < to && faults(i) == Death
    }

    /** A call ends in death exactly if the process dies in it, else with code 0 or 1. */
    ghost predicate EndsRight(e: Exit, from: nat, to: nat) {
      (e == Died <==> Dies(from, to)) && (e.Code? ==> e.code == 0 || e.code == 1)
    }

    /** Whether the next durable operation, or reading the webhook credential, goes through. */
    method Fate() returns (f: Fault)
      modifies this`operations
      ensures f == faults(old(operations)) && operations == old(operations) + 1
    {
      f := faults(operations);
      operations := operations + 1;
    }

    /** `post_alert`: up to three attempts; true only for a confirmed one, preceded by retryable ones only. */
    method PostAlert(name: string, a: Alert) returns (ok: bool)
      requires Valid()
      modifies this`attempts, this`log
      ensures Valid()
      ensures ok <==> Delivers(answers, old(attempts), 3)
      ensures attempts <= old(attempts) + 3
      ensures log == if ok then old(log) + [Posted(name, a)] else old(log)
    {
      for attempt := 0 to 3
        invariant attempts == old(attempts) + attempt && log == old(log)
        invariant Delivers(answers, old(attempts), 3) == Delivers(answers, attempts, 3 - attempt)
      {
        var answer := answers(attempts);
        attempts := attempts + 1;
        if answer == Confirmed {
          AppendKeeps(pending, marker, log, Posted(name, a), pending);
          log := log + [Posted(name, a)];
          return true;
        }
        if answer == Refused {
          return false;
        }
      }
      return false;
    }

    /** `write_marker` on a pending file: the replacement is atomic. */
    method Queue(name: string, a: Alert) returns (f: Fault)
      requires Valid() && name !in pending
      modifies this
      ensures Valid()
      ensures f == Fine ==> pending == old(pending)[name := Good(a)] && log == old(log) + [Queued(name, a)]
      ensures f != Fine ==> pending == old(pending) && log == old(log)
      ensures f == faults(old(operations)) && marker == old(marker) && operations == old(operations) + 1
    {
      f := Fate();
      if f == Fine {
        AppendKeeps(pending, marker, log, Queued(name, a), pending[name := Good(a)]);
        pending := pending[name := Good(a)];
        log := log + [Queued(name, a)];
      }
    }

    /** `mark_delivered`, which writes only for a watchdog alert or the probe. */
    method MarkDelivered(service: Service, key: string) returns (f: Fault)
      requires Valid()
      requires service == Watchdog ==> log != [] && IncidentPosted(log[|log| - 1], key)
      modifies this
      ensures Valid() && pending == old(pending)
      ensures log == if f == Fine && service == Watchdog then old(log) + [Marked(key)] else old(log)
      ensures service == Backup ==> f == Fine && operations == old(operations)
      ensures service != Backup ==> f == faults(old(operations)) && operations == old(operations) + 1
      ensures marker == if f == Fine && service == Watchdog then Some(key) else old(marker)
      ensures probeMarker == if f == Fine && service == Probe then Some(key) else old(probeMarker)
    {
      f := Fine;
      if service == Watchdog {
        f := Fate();
        if f == Fine {
          MarkKeeps(pending, marker, log, key);
          marker := Some(key);
          log := log + [Marked(key)];
        }
      }
      if service == Probe {
        f := Fate();
        if f == Fine {
          probeMarker := Some(key);
        }
      }
    }

    method Unlink(name: string, ghost a: Alert) returns (f: Fault)
      requires Valid() && name in pending && pending[name] == Good(a)
      requires RemovalOk(log + [Removed(name, a)], |log|)
      modifies this
      ensures Valid()
      ensures f == Fine ==> pending == old(pending) - {name} && log == old(log) + [Removed(name, a)]
      ensures f != Fine ==> pending == old(pending) && log == old(log)
      ensures f == faults(old(operations)) && marker == old(marker) && operations == old(operations) + 1
    {
      f := Fate();
      if f == Fine {
        RemoveKeeps(pending, marker, log, name, a);
        pending := pending - {name};
        log := log + [Removed(name, a)];
      }
    }

    /**
     * One file of `retry_pending`. It goes exactly when it is readable, belongs to its alert, is
     * confirmed, and its durable operations go through; every other file stays.
     */
    method RetryOne(name: string) returns (f: Fault)
      requires Valid() && name in pending
      modifies this
      ensures Valid()
      ensures pending == if f == Fine then old(pending) - {name} else old(pending)
      ensures f == Fine <==>
        && old(pending)[name].Good? && Identified(name, old(pending)[name].alert) && Delivers(answers, old(attempts), 3)
        && faults(old(operations)) == Fine
        && (old(pending)[name].alert.service == Watchdog ==> faults(old(operations) + 1) == Fine)
      ensures f == Fine ==>
        && |old(log)| < |log| && log[|old(log)|] == Posted(name, old(pending)[name].alert)
      ensures old(log) <= log
      ensures Healthy() ==> f == if Stuck(old(pending), name) then Failure else Fine
      ensures f == Death <==> Dies(old(operations), operations)
      ensures old(operations) <= operations
    {
      var file := pending[name];
      if file.Bad? || !Identified(name, file.alert) {
        return Failure;
      }
      var ok := PostAlert(name, file.alert);
      if !ok {
        return Failure;
      }
      var key := if file.alert.service == Watchdog then WatchdogKey(name).value else file.alert.executionId;
      f := Clear(file.alert.service, key, name, file.alert);
    }

    /** After a confirmed post: mark, then remove. */
    method Clear(service: Service, key: string, name: string, a: Alert) returns (f: Fault)
      requires Valid() && service != Probe && name == FileName(service, key) && name in pending
      requires pending[name] == Good(a)
      requires log != [] && log[|log| - 1] == Posted(name, a)
      modifies this
      ensures Valid() && old(log) <= log
      ensures pending == if f == Fine then old(pending) - {name} else old(pending)
      ensures f == Fine ==> marker == if service == Watchdog then Some(key) else old(marker)
      ensures f == Fine <==>
        faults(old(operations)) == Fine && (service == Watchdog ==> faults(old(operations) + 1) == Fine)
      ensures f == Death <==> Dies(old(operations), operations)
      ensures old(operations) <= operations
    {
      f := MarkDelivered(service, key);
      if f == Fine {
        f := Unlink(name, a);
      }
    }

    /** The i-th of the listed files. */
    method RetryNext(paths: seq<string>, i: nat, ghost before: Files, ghost since: nat, ghost gone: set<string>)
      returns (f: Fault, ghost gone2: set<string>)
      requires Valid() && AllDifferent(paths) && i < |paths| && paths[i] in before && since <= |log|
      requires Retried(before, pending, log, since, paths[..i], gone)
      modifies this
      ensures Valid() && old(log) <= log && Retried(before, pending, log, since, paths[..i + 1], gone2)
      ensures |gone2| == |gone| + if f == Fine then 1 else 0
      ensures (f == Death <==> Dies(old(operations), operations)) && old(operations) <= operations
      ensures Healthy() && gone == LooseOf(before, paths[..i]) ==>
        f != Death && gone2 == LooseOf(before, paths[..i + 1])
    {
      RetriedNext(before, pending, log, since, paths, i, gone);
      ghost var earlier := log;
      f := RetryOne(paths[i]);
      gone2 := gone;
      if f == Fine {
        RetriedGone(before, earlier, log, since, paths, i, gone);
        gone2 := gone + {paths[i]};
      } else {
        RetriedKept(before, pending, earlier, log, since, paths, i, gone);
      }
    }

    /**
     * `retry_pending` over the listed files: each counts once. Exactly the delivered ones are gone, and
     * each of those was posted, confirmed, as it was on disk.
     */
    method RetryAll(paths: seq<string>) returns (delivered: nat, failed: nat, died: bool, ghost gone: set<string>)
      requires Valid()
      requires forall i :: 0 <= i < |paths| ==> paths[i] in pending
      requires AllDifferent(paths)
      modifies this
      ensures Valid() && old(log) <= log
      ensures (died <==> Dies(old(operations), operations)) && old(operations) <= operations
      ensures !died ==> delivered + failed == |paths|
      ensures |gone| == delivered && Retried(old(pending), pending, log, |old(log)|, paths, gone)
      ensures Healthy() ==> !died && gone == LooseOf(old(pending), paths)
    {
      gone := {};
      delivered, failed, died := 0, 0, false;
      for i := 0 to |paths|
        invariant Valid() && old(log) <= log && delivered + failed == i && |gone| == delivered
        invariant old(operations) <= operations && !Dies(old(operations), operations)
        invariant Retried(old(pending), pending, log, |old(log)|, paths[..i], gone)
        invariant Healthy() ==> gone == LooseOf(old(pending), paths[..i])
      {
        var f;
        f, gone := RetryNext(paths, i, old(pending), |old(log)|, gone);
        if f == Fine {
          delivered := delivered + 1;
        } else if f == Failure {
          failed := failed + 1;
        } else {
          died := true;
          return;
        }
      }
      assert paths[..|paths|] == paths;
    }

    /**
     * `main` for `--retry-pending`: only listed files go, each posted, confirmed, as it was on disk;
     * success means all listed files went; and if nothing fails exactly the deliverable ones do.
     */
    method RetryPendingFiles() returns (e: Exit)
      requires Valid()
      modifies this
      ensures Valid() && old(log) <= log
      ensures pending == old(pending) - (old(pending).Keys - pending.Keys)
      ensures forall p :: p in old(pending) && p !in pending ==>
        Listed(old(pending), p) && DeliveredFile(old(pending), log, |old(log)|, p)
      ensures faults(old(operations)) != Fine ==> e != Code(0) && pending == old(pending) && log == old(log)
      ensures EndsRight(e, old(operations), operations)
      ensures e == Code(0) <==>
        && faults(old(operations)) == Fine && !Dies(old(operations), operations)
        && forall p :: Listed(old(pending), p) ==> p !in pending
      ensures Healthy() ==> pending == Round(old(pending)) && e.Code?
    {
      var credential := Fate();
      if credential != Fine {
        assert pending == old(pending) - (old(pending).Keys - pending.Keys);
        return if credential == Failure then Code(1) else Died;
      }
      e := RetryListed();
    }

    /** The listed files, once the credential is read. */
    method RetryListed() returns (e: Exit)
      requires Valid()
      modifies this
      ensures Valid() && old(log) <= log && old(operations) <= operations
      ensures pending == old(pending) - (old(pending).Keys - pending.Keys)
      ensures forall p :: p in old(pending) && p !in pending ==>
        Listed(old(pending), p) && DeliveredFile(old(pending), log, |old(log)|, p)
      ensures EndsRight(e, old(operations), operations)
      ensures e == Code(0) <==>
        !Dies(old(operations), operations) && forall p :: Listed(old(pending), p) ==> p !in pending
      ensures Healthy() ==> pending == Round(old(pending)) && e.Code?
    {
      var paths := Listing();
      forall i | 0 <= i < |paths| ensures paths[i] in pending { assert paths[i] in paths; }
      var delivered, failed, died, gone := RetryAll(paths);
      AllTaken(paths, gone);
      return if died then Died else if failed == 0 then Code(0) else Code(1);
    }

    /**
     * `main` for a service. Success means suppressed for an incident already posted, or posted now, as it was
     * pending or else as raised, no longer pending and marked if for the watchdog. Anything else leaves every
     * pending file in place, this alert's included once it was queued. If nothing fails, the raise succeeds
     * exactly unless an unreadable file has its name.
     */
    method Raise(service: Service, runId: string, incident: string, utc: string) returns (e: Exit)
      requires Valid()
      modifies this
      ensures Valid() && old(log) <= log && BadKept(old(pending), pending)
      ensures
        var a := Alert(service, utc, runId);
        if service == Watchdog && old(marker) == Some(incident) then
          e == Code(0) && pending == old(pending) && log == old(log) + [Suppressed(incident)]
        else if service == Probe then
          && pending == old(pending) && marker == old(marker) && (Healthy() ==> e == Code(0))
          && (e == Code(0) ==> DeliveredIn(log, |old(log)|, [], a))
        else
          var key := if service == Watchdog then incident else runId;
          && RaisedFile(old(pending), pending, log, |old(log)|, FileName(service, key), a, e, faults(old(operations)))
          && (e == Code(0) ==> marker == if service == Watchdog then Some(incident) else old(marker))
          && (Healthy() ==> e == if BadAt(old(pending), FileName(service, key)) then Code(1) else Code(0))
      ensures EndsRight(e, old(operations), operations)
    {
      var key := if service == Watchdog then incident else runId;
      if service == Watchdog && marker == Some(key) {
        SuppressKeeps(pending, log, key);
        log := log + [Suppressed(key)];
        return Code(0);
      }
      if service == Probe {
        e := RaiseProbe(key, Alert(Probe, utc, runId));
      } else {
        e := RaiseFile(service, key, Alert(service, utc, runId));
      }
    }

    /** Queue the alert unless it is pending already, then deliver what is pending. */
    method RaiseFile(service: Service, key: string, raised: Alert) returns (e: Exit)
      requires Valid() && service != Probe
      modifies this
      ensures Valid() && old(log) <= log && BadKept(old(pending), pending)
      ensures RaisedFile(old(pending), pending, log, |old(log)|, FileName(service, key), raised, e,
                         faults(old(operations)))
      ensures e == Code(0) ==> marker == if service == Watchdog then Some(key) else old(marker)
      ensures Healthy() ==> e == if BadAt(old(pending), FileName(service, key)) then Code(1) else Code(0)
      ensures EndsRight(e, old(operations), operations) && old(operations) <= operations
    {
      var name, a := FileName(service, key), raised;
      if name in pending {
        if pending[name].Bad? {
          return Code(1);
        }
        a := pending[name].alert;
      } else {
        var queued := Queue(name, a);
        if queued != Fine {
          return if queued == Failure then Code(1) else Died;
        }
      }
      e := DeliverQueued(service, key, name, a);
    }

    /** Post the queued alert, then mark and remove it. */
    method DeliverQueued(service: Service, key: string, name: string, a: Alert) returns (e: Exit)
      requires Valid() && service != Probe && name == FileName(service, key) && name in pending
      requires pending[name] == Good(a)
      modifies this
      ensures Valid() && old(log) <= log
      ensures pending == if e == Code(0) then old(pending) - {name} else old(pending)
      ensures e == Code(0) ==> DeliveredIn(log, |old(log)|, name, a)
      ensures e == Code(0) ==> marker == if service == Watchdog then Some(key) else old(marker)
      ensures Healthy() ==> e == Code(0)
      ensures EndsRight(e, old(operations), operations) && old(operations) <= operations
    {
      var credential := Fate();
      if credential != Fine {
        return if credential == Failure then Code(1) else Died;
      }
      var ok := PostAlert(name, a);
      if !ok {
        return Code(1);
      }
      ghost var at := |log| - 1;
      e := Finish(service, key, name, a);
      assert log[at] == Posted(name, a);
    }

    method RaiseProbe(key: string, a: Alert) returns (e: Exit)
      requires Valid()
      modifies this
      ensures Valid() && old(log) <= log && pending == old(pending)
      ensures e == Code(0) ==> DeliveredIn(log, |old(log)|, [], a)
      ensures (Healthy() ==> e == Code(0)) && marker == old(marker)
      ensures probeMarker == if e == Code(0) then Some(key) else old(probeMarker)
      ensures EndsRight(e, old(operations), operations)
    {
      var credential := Fate();
      if credential != Fine {
        return if credential == Failure then Code(1) else Died;
      }
      var sent := PostAlert([], a);
      if !sent {
        return Code(1);
      }
      assert log[|old(log)|] == Posted([], a);
      var done := MarkDelivered(Probe, key);
      return if done == Fine then Code(0) else if done == Failure then Code(1) else Died;
    }

    /** After the confirmed post: mark, then remove. */
    method Finish(service: Service, key: string, name: string, a: Alert) returns (e: Exit)
      requires Valid() && service != Probe && name == FileName(service, key) && name in pending
      requires pending[name] == Good(a)
      requires log != [] && log[|log| - 1] == Posted(name, a)
      modifies this
      ensures Valid() && old(log) <= log
      ensures pending == if e == Code(0) then old(pending) - {name} else old(pending)
      ensures e == Code(0) ==> marker == if service == Watchdog then Some(key) else old(marker)
      ensures Healthy() ==> e == Code(0)
      ensures EndsRight(e, old(operations), operations) && old(operations) <= operations
    {
      var f := Clear(service, key, name, a);
      return if f == Fine then Code(0) else if f == Failure then Code(1) else Died;
    }

    /** Any number of invocations, one after another under the lock, dying or not. Starved files stay starved. */
    method Invocations(all: seq<Invocation>)
      requires Valid()
      modifies this
      ensures Valid() && old(log) <= log && BadKept(old(pending), pending)
      ensures forall name :: BadBefore(old(pending), name) <= BadBefore(pending, name)
      ensures forall name :: |BadBefore(old(pending), name)| >= RETRY_LIMIT ==> !Listed(pending, name)
    {
      for i := 0 to |all|
        invariant Valid() && old(log) <= log && BadKept(old(pending), pending)
      {
        match all[i]
        case RaiseAlert(service, runId, incident, utc) =>
          var e := Raise(service, runId, incident, utc);
        case RetryPending =>
          var e := RetryPendingFiles();
      }
      forall name | |BadBefore(old(pending), name)| >= RETRY_LIMIT ensures !Listed(pending, name) {
        BadStarves(pending, name, BadBefore(old(pending), name));
      }
    }

    /** The first five of the pending JSON files by name. */
    method Listing() returns (paths: seq<string>)
      ensures Increasing(TextBelow, paths) && AllDifferent(paths)
      ensures forall n :: n in paths <==> Listed(pending, n)
    {
      var sorted := SortTexts(JsonNames(pending));
      paths := if |sorted| < RETRY_LIMIT then sorted else sorted[..RETRY_LIMIT];
      FirstOnes(pending, sorted, |paths|);
      assert paths == sorted[..|paths|];
    }
  }

  /** Of the paths done, exactly those gone left the directory, each after its confirmed post. */
  ghost predicate Retried(before: Files, after: Files, log: seq<Event>, since: nat, done: seq<string>,
                          gone: set<string>) {
    && gone <= Elements(done) && after == before - gone
    && forall p :: p in gone ==> DeliveredFile(before, log, since, p)
  }

  ghost function LooseOf(files: Files, paths: seq<string>): (r: set<string>) {
    set p | p in paths && p in files && !Stuck(files, p)
  }

  predicate AllDifferent(paths: seq<string>) {
    forall i, j :: 0 <= i < j < |paths| ==> paths[i] != paths[j]
  }

  /** The next path is still as it was. */
  lemma RetriedNext(before: Files, after: Files, log: seq<Event>, since: nat, paths: seq<string>, i: nat,
                    gone: set<string>)
    requires AllDifferent(paths) && i < |paths| && paths[i] in before
    requires Retried(before, after, log, since, paths[..i], gone)
    ensures paths[i] !in gone && paths[i] in after && after[paths[i]] == before[paths[i]]
    ensures Stuck(after, paths[i]) == Stuck(before, paths[i])
    ensures paths[..i + 1] == paths[..i] + [paths[i]] && Elements(paths[..i + 1]) == Elements(paths[..i]) + {paths[i]}
    ensures LooseOf(before, paths[..i + 1]) ==
            LooseOf(before, paths[..i]) + if Stuck(before, paths[i]) then {} else {paths[i]}
  {
    assert paths[..i + 1] == paths[..i] + [paths[i]];
  }

  lemma RetriedKept(before: Files, after: Files, log: seq<Event>, more: seq<Event>, since: nat, paths: seq<string>,
                    i: nat, gone: set<string>)
    requires i < |paths| && Retried(before, after, log, since, paths[..i], gone) && log <= more
    ensures Retried(before, after, more, since, paths[..i + 1], gone)
  {
    assert paths[..i + 1] == paths[..i] + [paths[i]];
    LogGrows(before, log, more, since, gone);
  }

  lemma RetriedGone(before: Files, log: seq<Event>, more: seq<Event>, since: nat, paths: seq<string>, i: nat,
                    gone: set<string>)
    requires i < |paths| && Retried(before, before - gone, log, since, paths[..i], gone) && log <= more
    requires paths[i] in before && before[paths[i]].Good? && since <= |log| < |more|
    requires more[|log|] == Posted(paths[i], before[paths[i]].alert)
    ensures Retried(before, before - gone - {paths[i]}, more, since, paths[..i + 1], gone + {paths[i]})
  {
    assert paths[..i + 1] == paths[..i] + [paths[i]];
    LogGrows(before, log, more, since, gone);
    assert before - gone - {paths[i]} == before - (gone + {paths[i]});
  }

  lemma {:induction false} DistinctSize(paths: seq<string>)
    requires AllDifferent(paths)
    ensures |Elements(paths)| == |paths|
  {
    if paths == [] {
      assert Elements(paths) == {};
    } else {
      var rest := paths[1..];
      DistinctSize(rest);
      assert paths == [paths[0]] + rest;
      assert Elements(paths) == Elements(rest) + {paths[0]};
    }
  }

  /** As many as all of them are all of them. */
  lemma AllTaken(paths: seq<string>, gone: set<string>)
    requires AllDifferent(paths) && gone <= Elements(paths)
    ensures |gone| == |paths| <==> forall p :: p in paths ==> p in gone
  {
    DistinctSize(paths);
    SubsetSize(gone, Elements(paths));
    if forall p :: p in paths ==> p in gone {
      assert gone == Elements(paths);
    }
  }

  /** Unreadable files are never touched. */
  predicate BadKept(before: Files, after: Files) {
    forall n :: n in before && before[n].Bad? ==> n in after && after[n] == before[n]
  }

  function BadBefore(files: Files, name: string): (r: set<string>) {
    set n | n in Before(files, name) && files[n].Bad?
  }

  lemma BadStarves(files: Files, name: string, bad: set<string>)
    requires bad <= BadBefore(files, name) && |bad| >= RETRY_LIMIT
    ensures !Listed(files, name)
  {
    SubsetSize(bad, StuckBefore(files, name));
    StarvedNotListed(files, name);
  }

  /** The file was posted, confirmed, as it was on disk, since the log had the given length. */
  ghost predicate DeliveredFile(files: Files, log: seq<Event>, since: nat, name: string) {
    && name in files && files[name].Good?
    && exists i :: since <= i < |log| && log[i] == Posted(name, files[name].alert)
  }

  lemma LogGrows(files: Files, log: seq<Event>, more: seq<Event>, since: nat, gone: set<string>)
    requires log <= more && forall p :: p in gone ==> DeliveredFile(files, log, since, p)
    ensures forall p :: p in gone ==> DeliveredFile(files, more, since, p)
  {
    forall p | p in gone ensures DeliveredFile(files, more, since, p) {
      var i :| since <= i < |log| && log[i] == Posted(p, files[p].alert);
      assert more[i] == log[i];
    }
  }

  /** The alert that is pending under the name, or else the one given. */
  function Current(files: Files, name: string, a: Alert): (r: Alert) {
    if name in files && files[name].Good? then files[name].alert else a
  }

  /** A confirmed post of the alert since the log had the given length. */
  ghost predicate DeliveredIn(log: seq<Event>, since: nat, name: string, a: Alert) {
    exists i :: since <= i < |log| && log[i] == Posted(name, a)
  }

  predicate BadAt(files: Files, name: string) {
    name in files && files[name].Bad?
  }

  /**
   * What raising an alert with a file does: on success the alert that was pending, or else the raised one, was
   * posted and is no longer pending; otherwise every file is still there, and this one once it was queued.
   */
  ghost predicate RaisedFile(before: Files, after: Files, log: seq<Event>, since: nat, name: string, a: Alert, e: Exit,
                             queueing: Fault) {
    if e == Code(0) then DeliveredIn(log, since, name, Current(before, name, a)) && after == before - {name}
    else Kept(before, after) && (name in before || queueing == Fine ==> name in after)
  }

  /** Every file is still there as it was. */
  predicate Kept(before: Files, after: Files) {
    forall n :: n in before ==> n in after && after[n] == before[n]
  }
}
