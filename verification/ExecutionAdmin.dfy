/**
 * Hybrid V2 execution rows: the phase machine, the compare-and-set update that every writer uses,
 * the admin cancel that reads first and writes later, and the paginated listing.
 */
module ExecutionAdmin {
  import opened Text

  datatype Phase =
    | Discovered | Validating | ReadyToSimulate | Simulating | SimulationSucceeded | SimulationFailed
    | AwaitingSignature | Signing | SignatureVerified | ReadyForBroadcast
    | BroadcastDisabled | Cancelled | Stale | Failed

  predicate IsTerminal(p: Phase) {
    p == BroadcastDisabled || p == Cancelled || p == Stale || p == Failed
  }

  /** `can_transition_to`. */
  predicate CanTransition(p: Phase, q: Phase) {
    match p
    case Discovered => q == Validating || q == Cancelled || q == Failed
    case Validating => q == ReadyToSimulate || q == Failed || q == Cancelled || q == Stale
    case ReadyToSimulate => q == Simulating || q == Cancelled || q == Stale
    case Simulating => q == SimulationSucceeded || q == SimulationFailed || q == Failed
    case SimulationSucceeded => q == AwaitingSignature || q == Cancelled || q == Stale
    case SimulationFailed => q == Failed
    case AwaitingSignature => q == Signing || q == Cancelled || q == Stale
    case Signing => q == SignatureVerified || q == Failed
    case SignatureVerified => q == ReadyForBroadcast || q == Failed
    case ReadyForBroadcast => q == BroadcastDisabled
    case _ => false
  }

  predicate Cancellable(p: Phase) {
    p == Discovered || p == Validating || p == ReadyToSimulate || p == SimulationSucceeded || p == AwaitingSignature
  }

  /** The most transitions a phase can still be followed by. */
  function Height(p: Phase): (h: nat)
    ensures h <= 9
    ensures h == 0 <==> IsTerminal(p)
  {
    match p
    case Discovered => 9
    case Validating => 8
    case ReadyToSimulate => 7
    case Simulating => 6
    case SimulationSucceeded => 5
    case AwaitingSignature => 4
    case Signing => 3
    case SignatureVerified => 2
    case ReadyForBroadcast => 1
    case SimulationFailed => 1
    case _ => 0
  }

  /** The machine has no cycles, its terminal phases are exactly those without successors, and the
      admin's five phases are exactly those from which cancelling is legal. */
  lemma PhaseMachine(p: Phase, q: Phase)
    ensures CanTransition(p, q) ==> Height(q) < Height(p)
    ensures IsTerminal(p) <==> forall r :: !CanTransition(p, r)
    ensures CanTransition(p, Cancelled) <==> Cancellable(p)
  {
    if !IsTerminal(p) {
      var next := match p
        case Discovered => Validating
        case Validating => ReadyToSimulate
        case ReadyToSimulate => Simulating
        case Simulating => SimulationSucceeded
        case SimulationSucceeded => AwaitingSignature
        case AwaitingSignature => Signing
        case Signing => SignatureVerified
        case SignatureVerified => ReadyForBroadcast
        case ReadyForBroadcast => BroadcastDisabled
        case _ => Failed;
      assert CanTransition(p, next);
    }
  }

  /** The phases of an execution that goes well, in order. */
  const LINE: seq<Phase> := [
    Discovered, Validating, ReadyToSimulate, Simulating, SimulationSucceeded, AwaitingSignature, Signing,
    SignatureVerified, ReadyForBroadcast, BroadcastDisabled]

  /** The place of a phase on that line, if it is on it. */
  function Place(p: Phase): (r: Option<nat>)
    ensures r.Some? ==> r.value < |LINE| && LINE[r.value] == p
    ensures r.None? ==> p !in LINE
  {
    match p
    case Discovered => Some(0)
    case Validating => Some(1)
    case ReadyToSimulate => Some(2)
    case Simulating => Some(3)
    case SimulationSucceeded => Some(4)
    case AwaitingSignature => Some(5)
    case Signing => Some(6)
    case SignatureVerified => Some(7)
    case ReadyForBroadcast => Some(8)
    case BroadcastDisabled => Some(9)
    case _ => None
  }

  /** Edges onto the line are exactly its single steps; the other edges leave it for good. */
  lemma LineEdges(p: Phase, q: Phase)
    ensures Place(q).Some? ==>
      (CanTransition(p, q) <==> Place(p).Some? && Place(q).value == Place(p).value + 1)
    ensures Place(q).None? && CanTransition(p, q) ==>
      if Place(p).None? then p == SimulationFailed && q == Failed
      else IsTerminal(q) || (p == Simulating && q == SimulationFailed)
    ensures CanTransition(p, Failed) <==>
      p in {Discovered, Validating, Simulating, SimulationFailed, Signing, SignatureVerified}
    ensures CanTransition(p, Stale) <==> p in {Validating, ReadyToSimulate, SimulationSucceeded, AwaitingSignature}
    ensures CanTransition(p, SimulationFailed) <==> p == Simulating
  {
  }

  // ---------------------------------------------------------------- compare and set

  /** The columns a patch can set. */
  datatype Column =
    | TargetContract | Selector | CalldataHash | CalldataBytes | PlanHash | TxValueWei
    | SimulationBlockNumber | SimulationBlockHash | SimulationGasEstimate | SimulationResult
    | SignerIdentity | SigningPayloadHash | SignatureR | SignatureS | SignatureV | RecoveredSigner
    | GasLimit | MaxFeePerGasWei | MaxPriorityFeePerGasWei | ReservedNonce
    | FailureClass | FailureDetail | HolderEpoch | RetryCount | SignerRequestKey

  /** The columns that have a value, as text. */
  type Columns = map<Column, string>

  datatype Row = Row(deploymentId: int, phase: Phase, columns: Columns, updatedAtMs: int)

  type Rows = map<string, Row>

  datatype UpdateError = IllegalTransition | ImmutableField

  /** Which of the two stores holds the rows. */
  datatype Backend = Memory | Postgres

  /** A patch that would change a column already set. */
  predicate Diverges(columns: Columns, patch: Columns, c: Column) {
    c in columns && c in patch && patch[c] != columns[c]
  }

  predicate HashDiverges(columns: Columns, patch: Columns) {
    || Diverges(columns, patch, PlanHash)
    || Diverges(columns, patch, CalldataHash)
    || Diverges(columns, patch, CalldataBytes)
  }

  predicate Immutable(c: Column) {
    c == PlanHash || c == CalldataHash || c == CalldataBytes || c == SignerRequestKey
  }

  /**
   * The matching row afterwards. The in-memory store checks the signer key after setting the other columns in
   * place.
   */
  function UpdateRow(backend: Backend, row: Row, to: Phase, nowMs: int,
                     patch: Columns): (r: (Row, Result<bool, UpdateError>)) {
    if HashDiverges(row.columns, patch) then (row, Err(ImmutableField))
    else if Diverges(row.columns, patch, SignerRequestKey) then
      (if backend == Memory then row.(columns := row.columns + (patch - {SignerRequestKey})) else row,
       Err(ImmutableField))
    else (Row(row.deploymentId, to, row.columns + patch, nowMs), Ok(true))
  }

  /** `update_execution_phase`: the rows afterwards, and whether this writer won. */
  function Update(backend: Backend, rows: Rows, id: string, from: Phase, to: Phase, nowMs: int, patch: Columns)
    : (r: (Rows, Result<bool, UpdateError>))
  {
    if !CanTransition(from, to) then (rows, Err(IllegalTransition))
    else if id !in rows || rows[id].phase != from then (rows, Ok(false))
    else
      var (row, r) := UpdateRow(backend, rows[id], to, nowMs, patch);
      (rows[id := row], r)
  }

  /** The row keeps its deployment and every immutable column that was set. */
  predicate RowKeeps(before: Row, after: Row) {
    && after.deploymentId == before.deploymentId
    && forall c :: c in before.columns && Immutable(c) ==> c in after.columns && after.columns[c] == before.columns[c]
  }

  predicate RowsKeep(before: Rows, after: Rows) {
    forall id :: id in before ==> id in after && RowKeeps(before[id], after[id])
  }

  predicate NothingDiverges(columns: Columns, patch: Columns) {
    forall c :: Immutable(c) ==> !Diverges(columns, patch, c)
  }

  lemma UpdateRowMeaning(backend: Backend, row: Row, to: Phase, nowMs: int, patch: Columns)
    ensures
      var (after, r) := UpdateRow(backend, row, to, nowMs, patch);
      && RowKeeps(row, after) && (r == Ok(true) <==> NothingDiverges(row.columns, patch)) && r != Ok(false)
      && (r.Err? ==> after.phase == row.phase && after.updatedAtMs == row.updatedAtMs)
  {
    var columns := row.columns;
    if UpdateRow(backend, row, to, nowMs, patch).1 == Ok(true) {
      forall c | Immutable(c) ensures !Diverges(columns, patch, c) {}
    } else {
      assert HashDiverges(columns, patch) || Diverges(columns, patch, SignerRequestKey);
    }
  }

  /**
   * A writer wins exactly when the edge is legal, the row is in its from-phase and no set immutable
   * column would change; the row then has every patched value. Immutable columns stay set in any case,
   * no other row changes, and no phase moves without a win.
   */
  lemma UpdateMeaning(backend: Backend, rows: Rows, id: string, from: Phase, to: Phase, nowMs: int, patch: Columns)
    ensures
      var (after, r) := Update(backend, rows, id, from, to, nowMs, patch);
      && RowsKeep(rows, after) && after.Keys == rows.Keys
      && (forall other :: other in rows && other != id ==> after[other] == rows[other])
      && (r == Ok(true) <==>
          CanTransition(from, to) && id in rows && rows[id].phase == from && NothingDiverges(rows[id].columns, patch))
      && (r == Ok(true) ==> after[id] == Row(rows[id].deploymentId, to, rows[id].columns + patch, nowMs))
      && (r == Ok(false) ==> after == rows)
      && (r != Ok(true) && id in rows ==>
          after[id].phase == rows[id].phase && after[id].updatedAtMs == rows[id].updatedAtMs)
  {
    if id in rows {
      UpdateRowMeaning(backend, rows[id], to, nowMs, patch);
    }
  }

  /** Some other column of the patch has a new value. */
  predicate OtherwiseChanges(columns: Columns, patch: Columns) {
    exists c :: c in patch && c != SignerRequestKey && (c !in columns || columns[c] != patch[c])
  }

  /**
   * Exactly when a refused update has changed the row: in the in-memory store, when the signer key
   * is the only immutable column that would change and the patch sets another column to a new value.
   */
  lemma RefusalChangesIff(backend: Backend, rows: Rows, id: string, from: Phase, to: Phase, nowMs: int, patch: Columns)
    requires Update(backend, rows, id, from, to, nowMs, patch).1.Err?
    ensures
      Update(backend, rows, id, from, to, nowMs, patch).0 != rows <==>
        && backend == Memory && CanTransition(from, to) && id in rows && rows[id].phase == from
        && Diverges(rows[id].columns, patch, SignerRequestKey) && !HashDiverges(rows[id].columns, patch)
        && OtherwiseChanges(rows[id].columns, patch)
  {
    if id in rows {
      var columns := rows[id].columns;
      var merged := columns + (patch - {SignerRequestKey});
      assert rows[id := rows[id]] == rows;
      if OtherwiseChanges(columns, patch) {
        var c :| c in patch && c != SignerRequestKey && (c !in columns || columns[c] != patch[c]);
        assert c in merged && merged[c] == patch[c];
      } else {
        assert merged == columns;
      }
    }
  }

  /** An input on which the in-memory store refuses an update and keeps part of it. */
  lemma RefusalLeavesPart(rows: Rows, id: string, nowMs: int)
    requires id in rows && rows[id].phase == AwaitingSignature
    requires rows[id].columns == map[SignerRequestKey := "0xa"]
    ensures
      var patch: Columns := map[SignerRequestKey := "0xb", SignerIdentity := "signer"];
      var (after, r) := Update(Memory, rows, id, AwaitingSignature, Signing, nowMs, patch);
      && r == Err(ImmutableField) && after[id].columns == map[SignerRequestKey := "0xa", SignerIdentity := "signer"]
      && after[id].phase == AwaitingSignature
  {
    assert "0xa"[2] != "0xb"[2];
    var patch: Columns := map[SignerRequestKey := "0xb", SignerIdentity := "signer"];
    assert patch - {SignerRequestKey} == map[SignerIdentity := "signer"];
  }

  /** Setting the signer key after the other columns sets the whole patch. */
  lemma PatchInTwo(columns: Columns, patch: Columns)
    ensures
      var merged := columns + (patch - {SignerRequestKey});
      && (SignerRequestKey in merged <==> SignerRequestKey in columns)
      && (SignerRequestKey in columns ==> merged[SignerRequestKey] == columns[SignerRequestKey])
      && columns + patch ==
         (if SignerRequestKey in patch then merged[SignerRequestKey := patch[SignerRequestKey]] else merged)
  {
  }

  class ExecutionStore {
    var rows: Rows

    constructor ()
      ensures rows == map[]
    {
      rows := map[];
    }

    /** The in-memory update, in place. */
    method UpdateExecutionPhase(id: string, from: Phase, to: Phase, nowMs: int, patch: Columns)
      returns (r: Result<bool, UpdateError>)
      modifies this
      ensures rows == Update(Memory, old(rows), id, from, to, nowMs, patch).0
      ensures r == Update(Memory, old(rows), id, from, to, nowMs, patch).1
    {
      var legal := CanTransition(from, to);
      if !legal {
        return Err(IllegalTransition);
      }
      if id !in rows {
        return Ok(false);
      }
      var row := rows[id];
      if row.phase != from {
        return Ok(false);
      }
      row, r := PatchRow(row, to, nowMs, patch);
      rows := rows[id := row];
    }
  }

  /** The row as the in-memory store changes it, column by column. */
  method PatchRow(before: Row, to: Phase, nowMs: int, patch: Columns) returns (row: Row, r: Result<bool, UpdateError>)
    ensures row == UpdateRow(Memory, before, to, nowMs, patch).0 && r == UpdateRow(Memory, before, to, nowMs, patch).1
  {
    row := before;
    if HashDiverges(row.columns, patch) {
      return row, Err(ImmutableField);
    }
    PatchInTwo(row.columns, patch);
    row := row.(columns := row.columns + (patch - {SignerRequestKey}));
    if SignerRequestKey in patch {
      if SignerRequestKey in row.columns && row.columns[SignerRequestKey] != patch[SignerRequestKey] {
        return row, Err(ImmutableField);
      }
      row := row.(columns := row.columns[SignerRequestKey := patch[SignerRequestKey]]);
    }
    row := row.(phase := to);
    row := row.(updatedAtMs := nowMs);
    return row, Ok(true);
  }

  // ---------------------------------------------------------------- racing writers

  datatype CancelOutcome = Succeeded | NotFound | WrongDeployment | NotCancellable | LostUpdate

  /** What a cancel request names. */
  datatype Target = Target(deploymentId: int, id: string)

  /** A cancel between its read and its write. */
  datatype Pending = Pending(target: Target, seen: Phase)

  datatype Answered = Answered(target: Target, outcome: CancelOutcome)

  datatype Write = Write(id: string, from: Phase, to: Phase, cancel: Option<nat>)

  datatype State = State(rows: Rows, pending: map<nat, Pending>, answers: map<nat, Answered>, writes: seq<Write>)

  const EMPTY := State(map[], map[], map[], [])

  datatype Label =
    | Insert(id: string, row: Row)
    | Advance(id: string, from: Phase, to: Phase, nowMs: int, patch: Columns)
    | CancelRead(req: nat, target: Target)
    | CancelWrite(req: nat, nowMs: int)

  const CANCEL_PATCH: Columns :=
    map[FailureClass := "ADMIN_CANCELLED", FailureDetail := "operator-issued cancel via admin route"]

  function Answer(s: State, req: nat, target: Target, o: CancelOutcome): (t: State) {
    s.(pending := s.pending - {req}, answers := s.answers[req := Answered(target, o)])
  }

  function Next(backend: Backend, s: State, l: Label): (t: State) {
    match l
    case Insert(id, row) => if id in s.rows then s else s.(rows := s.rows[id := row])
    case Advance(id, from, to, nowMs, patch) =>
      var (rows, r) := Update(backend, s.rows, id, from, to, nowMs, patch);
      if r == Ok(true) then s.(rows := rows, writes := s.writes + [Write(id, from, to, None)]) else s.(rows := rows)
    case CancelRead(req, target) =>
      if req in s.pending || req in s.answers then s
      else if target.id !in s.rows then Answer(s, req, target, NotFound)
      else if s.rows[target.id].deploymentId != target.deploymentId then Answer(s, req, target, WrongDeployment)
      else if !Cancellable(s.rows[target.id].phase) then Answer(s, req, target, NotCancellable)
      else s.(pending := s.pending[req := Pending(target, s.rows[target.id].phase)])
    case CancelWrite(req, nowMs) =>
      if req !in s.pending then s
      else
        var p := s.pending[req];
        var (rows, r) := Update(backend, s.rows, p.target.id, p.seen, Cancelled, nowMs, CANCEL_PATCH);
        if r == Ok(true) then
          Answer(s, req, p.target, Succeeded)
            .(rows := rows, writes := s.writes + [Write(p.target.id, p.seen, Cancelled, Some(req))])
        else Answer(s, req, p.target, LostUpdate)
  }

  function Run(backend: Backend, labels: seq<Label>): (s: State) {
    if labels == [] then EMPTY else Next(backend, Run(backend, labels[..|labels| - 1]), labels[|labels| - 1])
  }

  /** How often a row was written. */
  function Count(writes: seq<Write>, id: string): (n: nat) {
    if writes == [] then 0
    else Count(writes[..|writes| - 1], id) + (if writes[|writes| - 1].id == id then 1 else 0)
  }

  predicate WritesOk(s: State) {
    && (forall k :: 0 <= k < |s.writes| ==> CanTransition(s.writes[k].from, s.writes[k].to) && s.writes[k].id in s.rows)
    && (forall k :: 0 <= k < |s.writes| && IsTerminal(s.writes[k].to) ==>
          s.rows[s.writes[k].id].phase == s.writes[k].to)
    && (forall k :: 0 <= k < |s.writes| && s.writes[k].cancel.Some? ==>
          s.writes[k].to == Cancelled && Cancellable(s.writes[k].from))
  }

  /** After a terminal write to a row there is no other write to it. */
  predicate TerminalLast(writes: seq<Write>) {
    forall i, j :: 0 <= i < j < |writes| && writes[i].id == writes[j].id ==> !IsTerminal(writes[i].to)
  }

  ghost predicate Bounded(s: State) {
    && (forall id :: id in s.rows ==> Count(s.writes, id) + Height(s.rows[id].phase) <= 9)
    && (forall id :: id !in s.rows ==> Count(s.writes, id) == 0)
  }

  /** The request succeeded by this write, on the row it named. */
  predicate SucceededBy(s: State, w: Write, req: nat) {
    && w.cancel == Some(req) && req in s.answers
    && s.answers[req].outcome == Succeeded && s.answers[req].target.id == w.id
  }

  ghost predicate SuccessesWritten(s: State) {
    && (forall req :: req in s.answers && s.answers[req].outcome == Succeeded ==>
          exists k :: 0 <= k < |s.writes| && SucceededBy(s, s.writes[k], req))
    && (forall k :: 0 <= k < |s.writes| && s.writes[k].cancel.Some? ==>
          SucceededBy(s, s.writes[k], s.writes[k].cancel.value))
    && (forall i, j :: 0 <= i < j < |s.writes| && s.writes[i].cancel.Some? ==> s.writes[i].cancel != s.writes[j].cancel)
  }

  /** A pending or successful cancel names an existing row of its deployment. */
  predicate TargetsExist(s: State) {
    && (forall req :: req in s.pending ==>
          && Cancellable(s.pending[req].seen) && req !in s.answers && s.pending[req].target.id in s.rows
          && s.rows[s.pending[req].target.id].deploymentId == s.pending[req].target.deploymentId)
    && (forall req :: req in s.answers && s.answers[req].outcome == Succeeded ==>
          && s.answers[req].target.id in s.rows
          && s.rows[s.answers[req].target.id].deploymentId == s.answers[req].target.deploymentId)
  }

  ghost predicate Inv(s: State) {
    WritesOk(s) && TerminalLast(s.writes) && Bounded(s) && SuccessesWritten(s) && TargetsExist(s)
  }

  /** A winning write moves one row along one legal edge, from the phase it has at that moment. */
  predicate Wins(s: State, t: State, w: Write) {
    && w.id in s.rows && s.rows[w.id].phase == w.from && CanTransition(w.from, w.to)
    && t.rows.Keys == s.rows.Keys && t.rows[w.id].phase == w.to
    && t.rows[w.id].deploymentId == s.rows[w.id].deploymentId
    && (forall id :: id in s.rows && id != w.id ==> t.rows[id] == s.rows[id])
    && t.writes == s.writes + [w]
  }

  /** The state after a win: a cancel's request is answered, any other writer answers nothing. */
  predicate WinAnswers(s: State, t: State, w: Write) {
    match w.cancel
    case None => t.pending == s.pending && t.answers == s.answers
    case Some(req) =>
      && req in s.pending && w.to == Cancelled && w.from == s.pending[req].seen && w.id == s.pending[req].target.id
      && t == Answer(s, req, s.pending[req].target, Succeeded).(rows := t.rows, writes := t.writes)
  }

  lemma WinKeepsWrites(s: State, t: State, w: Write)
    requires WritesOk(s) && TerminalLast(s.writes) && Wins(s, t, w)
    requires w.cancel.Some? ==> w.to == Cancelled && Cancellable(w.from)
    ensures WritesOk(t) && TerminalLast(t.writes)
  {
  }

  lemma WinKeepsBounded(s: State, t: State, w: Write)
    requires Bounded(s) && Wins(s, t, w)
    ensures Bounded(t)
  {
  }

  /** The cancel bookkeeping when a write is appended. */
  lemma WinKeepsSuccesses(s: State, t: State, w: Write)
    requires SuccessesWritten(s) && TargetsExist(s) && t.writes == s.writes + [w] && WinAnswers(s, t, w)
    ensures SuccessesWritten(t)
  {
    assert t.writes[|s.writes|] == w;
    assert forall k :: 0 <= k < |s.writes| ==> t.writes[k] == s.writes[k];
    forall req | req in t.answers && t.answers[req].outcome == Succeeded
      ensures exists k :: 0 <= k < |t.writes| && SucceededBy(t, t.writes[k], req)
    {
      if w.cancel == Some(req) {
        assert SucceededBy(t, t.writes[|s.writes|], req);
      } else {
        var k :| 0 <= k < |s.writes| && SucceededBy(s, s.writes[k], req);
        assert SucceededBy(t, t.writes[k], req);
      }
    }
  }

  lemma WinKeepsTargets(s: State, t: State, w: Write)
    requires TargetsExist(s) && Wins(s, t, w) && WinAnswers(s, t, w)
    ensures TargetsExist(t)
  {
  }

  lemma WinKeeps(s: State, t: State, w: Write)
    requires Inv(s) && Wins(s, t, w) && WinAnswers(s, t, w)
    ensures Inv(t)
  {
    WinKeepsWrites(s, t, w);
    WinKeepsBounded(s, t, w);
    WinKeepsSuccesses(s, t, w);
    WinKeepsTargets(s, t, w);
  }

  lemma AnswerKeeps(s: State, req: nat, target: Target, o: CancelOutcome)
    requires Inv(s) && req !in s.answers && o != Succeeded
    ensures Inv(Answer(s, req, target, o))
  {
    AnswerKeepsSuccesses(s, req, target, o);
  }

  lemma AnswerKeepsSuccesses(s: State, req: nat, target: Target, o: CancelOutcome)
    requires SuccessesWritten(s) && req !in s.answers && o != Succeeded
    ensures SuccessesWritten(Answer(s, req, target, o))
  {
    var t := Answer(s, req, target, o);
    forall r | r in t.answers && t.answers[r].outcome == Succeeded
      ensures exists k :: 0 <= k < |t.writes| && SucceededBy(t, t.writes[k], r)
    {
      var k :| 0 <= k < |s.writes| && SucceededBy(s, s.writes[k], r);
      assert SucceededBy(t, t.writes[k], r);
    }
  }

  lemma SuccessesFrame(s: State, t: State)
    requires SuccessesWritten(s) && t.answers == s.answers && t.writes == s.writes
    ensures SuccessesWritten(t)
  {
    forall req | req in t.answers && t.answers[req].outcome == Succeeded
      ensures exists k :: 0 <= k < |t.writes| && SucceededBy(t, t.writes[k], req)
    {
      var k :| 0 <= k < |s.writes| && SucceededBy(s, s.writes[k], req);
      assert SucceededBy(t, t.writes[k], req);
    }
  }

  /** Rows that differ in columns only are as good. */
  lemma ColumnsKeep(s: State, rows: Rows)
    requires Inv(s) && rows.Keys == s.rows.Keys && RowsKeep(s.rows, rows)
    requires forall id :: id in rows ==> rows[id].phase == s.rows[id].phase
    ensures Inv(s.(rows := rows))
  {
    SuccessesFrame(s, s.(rows := rows));
  }

  lemma AdvanceKeeps(backend: Backend, s: State, l: Label)
    requires Inv(s) && l.Advance?
    ensures Inv(Next(backend, s, l))
  {
    var (rows, r) := Update(backend, s.rows, l.id, l.from, l.to, l.nowMs, l.patch);
    UpdateMeaning(backend, s.rows, l.id, l.from, l.to, l.nowMs, l.patch);
    if r == Ok(true) {
      WinKeeps(s, Next(backend, s, l), Write(l.id, l.from, l.to, None));
    } else {
      ColumnsKeep(s, rows);
    }
  }

  lemma CancelWriteKeeps(backend: Backend, s: State, req: nat, nowMs: int)
    requires Inv(s)
    ensures Inv(Next(backend, s, CancelWrite(req, nowMs)))
  {
    if req in s.pending {
      var p := s.pending[req];
      UpdateMeaning(backend, s.rows, p.target.id, p.seen, Cancelled, nowMs, CANCEL_PATCH);
      if Update(backend, s.rows, p.target.id, p.seen, Cancelled, nowMs, CANCEL_PATCH).1 == Ok(true) {
        WinKeeps(s, Next(backend, s, CancelWrite(req, nowMs)), Write(p.target.id, p.seen, Cancelled, Some(req)));
      } else {
        AnswerKeeps(s, req, p.target, LostUpdate);
      }
    }
  }

  lemma CancelReadKeeps(backend: Backend, s: State, req: nat, target: Target)
    requires Inv(s)
    ensures Inv(Next(backend, s, CancelRead(req, target)))
  {
    if req !in s.pending && req !in s.answers {
      if target.id !in s.rows {
        AnswerKeeps(s, req, target, NotFound);
      } else if s.rows[target.id].deploymentId != target.deploymentId {
        AnswerKeeps(s, req, target, WrongDeployment);
      } else if !Cancellable(s.rows[target.id].phase) {
        AnswerKeeps(s, req, target, NotCancellable);
      } else {
      }
    }
  }

  lemma InsertKeeps(s: State, id: string, row: Row)
    requires Inv(s) && id !in s.rows
    ensures Inv(s.(rows := s.rows[id := row]))
  {
    var t := s.(rows := s.rows[id := row]);
    SuccessesFrame(s, t);
    assert WritesOk(t) && TargetsExist(t);
  }

  lemma StepKeeps(backend: Backend, s: State, l: Label)
    requires Inv(s)
    ensures Inv(Next(backend, s, l))
  {
    match l
    case Insert(id, row) => if id !in s.rows { InsertKeeps(s, id, row); }
    case Advance(_, _, _, _, _) => AdvanceKeeps(backend, s, l);
    case CancelRead(req, target) => CancelReadKeeps(backend, s, req, target);
    case CancelWrite(req, nowMs) => CancelWriteKeeps(backend, s, req, nowMs);
  }

  lemma {:induction false} RunKeeps(backend: Backend, labels: seq<Label>)
    ensures Inv(Run(backend, labels))
  {
    if labels != [] {
      RunKeeps(backend, labels[..|labels| - 1]);
      StepKeeps(backend, Run(backend, labels[..|labels| - 1]), labels[|labels| - 1]);
    }
  }

  // ---------------------------------------------------------------- what holds in every run

  /** What the request named stays on record. */
  predicate Named(s: State, req: nat, target: Target) {
    && (req in s.pending || req in s.answers)
    && (req in s.pending ==> s.pending[req].target == target) && (req in s.answers ==> s.answers[req].target == target)
  }

  lemma NamedStays(backend: Backend, s: State, l: Label, req: nat, target: Target)
    requires Named(s, req, target)
    ensures Named(Next(backend, s, l), req, target)
  {
  }

  /** A new cancel request at step i is on record with the row it named, at every later point. */
  lemma {:induction false} RequestNames(backend: Backend, labels: seq<Label>, i: nat)
    requires i < |labels| && labels[i].CancelRead?
    requires labels[i].req !in Run(backend, labels[..i]).pending && labels[i].req !in Run(backend, labels[..i]).answers
    ensures Named(Run(backend, labels), labels[i].req, labels[i].target)
  {
    var before := labels[..|labels| - 1];
    if i < |before| {
      assert before[..i] == labels[..i];
      RequestNames(backend, before, i);
      NamedStays(backend, Run(backend, before), labels[|labels| - 1], labels[i].req, labels[i].target);
    } else {
      assert before == labels[..i];
    }
  }

  /**
   * In every run: a cancel that reports success wrote Cancelled over one of the five cancellable
   * phases, on the row it named, of the deployment it named, and that row is Cancelled ever after.
   */
  lemma SuccessfulCancel(backend: Backend, labels: seq<Label>, req: nat) returns (k: nat)
    requires req in Run(backend, labels).answers && Run(backend, labels).answers[req].outcome == Succeeded
    ensures
      var s := Run(backend, labels);
      var target := s.answers[req].target;
      && k < |s.writes| && s.writes[k].cancel == Some(req) && s.writes[k].id == target.id
      && Cancellable(s.writes[k].from)
      && target.id in s.rows && s.rows[target.id].phase == Cancelled
      && s.rows[target.id].deploymentId == target.deploymentId
  {
    RunKeeps(backend, labels);
    var s := Run(backend, labels);
    k :| 0 <= k < |s.writes| && SucceededBy(s, s.writes[k], req);
  }

  /** Two requests that named one row and both succeeded are the same request. */
  lemma AtMostOneCancelSucceeds(backend: Backend, labels: seq<Label>, a: nat, b: nat)
    requires
      var answers := Run(backend, labels).answers;
      && a in answers && answers[a].outcome == Succeeded && b in answers && answers[b].outcome == Succeeded
      && answers[a].target.id == answers[b].target.id
    ensures a == b
  {
    RunKeeps(backend, labels);
    var i := SuccessfulCancel(backend, labels, a);
    var j := SuccessfulCancel(backend, labels, b);
    assert i == j;
  }

  /** The step at which a cancel turns successful is a win from a cancellable phase, on the row it named. */
  lemma CancelWinsNow(backend: Backend, s: State, l: Label, req: nat)
    requires TargetsExist(s) && req !in s.answers
    requires req in Next(backend, s, l).answers && Next(backend, s, l).answers[req].outcome == Succeeded
    ensures
      exists w :: Wins(s, Next(backend, s, l), w) && w.cancel == Some(req) && w.to == Cancelled
                  && Cancellable(s.rows[w.id].phase) && w.id == Next(backend, s, l).answers[req].target.id
  {
    assert l.CancelWrite? && l.req == req && req in s.pending;
    CancelWriteWins(backend, s, req, l.nowMs);
  }

  lemma CancelWriteWins(backend: Backend, s: State, req: nat, nowMs: int)
    requires req in s.pending
    ensures
      var p, t := s.pending[req], Next(backend, s, CancelWrite(req, nowMs));
      t.answers[req] == Answered(p.target, Succeeded) ==> Wins(s, t, Write(p.target.id, p.seen, Cancelled, Some(req)))
  {
    var p := s.pending[req];
    UpdateMeaning(backend, s.rows, p.target.id, p.seen, Cancelled, nowMs, CANCEL_PATCH);
  }

  /** What a new cancel request is told at once, before anything is written. */
  function FirstAnswer(rows: Rows, target: Target): (o: Option<CancelOutcome>) {
    if target.id !in rows then Some(NotFound)
    else if rows[target.id].deploymentId != target.deploymentId then Some(WrongDeployment)
    else if rows[target.id].phase
            in {Discovered, Validating, ReadyToSimulate, SimulationSucceeded, AwaitingSignature} then None
    else Some(NotCancellable)
  }

  lemma CancelReadAnswers(backend: Backend, s: State, req: nat, target: Target)
    requires req !in s.pending && req !in s.answers
    ensures
      var t := Next(backend, s, CancelRead(req, target));
      && t.rows == s.rows && t.writes == s.writes
      && match FirstAnswer(s.rows, target)
         case Some(o) => req !in t.pending && req in t.answers && t.answers[req] == Answered(target, o)
         case None => req !in t.answers && req in t.pending
                      && t.pending[req] == Pending(target, s.rows[target.id].phase)
  {
  }

  /**
   * A pending cancel succeeds exactly if the row is still in the phase it read, and then leaves the row cancelled
   * with the operator's reason; otherwise it reports a lost update and changes nothing.
   */
  lemma CancelWriteAnswers(backend: Backend, s: State, req: nat, nowMs: int)
    requires TargetsExist(s) && req in s.pending
    ensures
      var p, t := s.pending[req], Next(backend, s, CancelWrite(req, nowMs));
      var row := s.rows[p.target.id];
      && req !in t.pending && req in t.answers
      && t.answers[req] == Answered(p.target, if row.phase == p.seen then Succeeded else LostUpdate)
      && (row.phase != p.seen ==> t.rows == s.rows)
      && (row.phase == p.seen ==>
          t.rows == s.rows[p.target.id := Row(row.deploymentId, Cancelled, row.columns + CANCEL_PATCH, nowMs)])
  {
    var p := s.pending[req];
    PhaseMachine(p.seen, Cancelled);
    UpdateMeaning(backend, s.rows, p.target.id, p.seen, Cancelled, nowMs, CANCEL_PATCH);
    assert NothingDiverges(s.rows[p.target.id].columns, CANCEL_PATCH);
  }

  /** No row is ever advanced more than nine times, whatever races. */
  lemma RowsSettle(backend: Backend, labels: seq<Label>, id: string)
    requires id in Run(backend, labels).rows
    ensures Count(Run(backend, labels).writes, id) <= 9
  {
    RunKeeps(backend, labels);
  }

  /** A terminal row is never written again, by any step. */
  lemma TerminalRowsFrozen(backend: Backend, s: State, l: Label, id: string)
    requires id in s.rows && IsTerminal(s.rows[id].phase)
    ensures id in Next(backend, s, l).rows && Next(backend, s, l).rows[id] == s.rows[id]
  {
  }

  predicate Passed(writes: seq<Write>, id: string, p: Phase) {
    exists k :: 0 <= k < |writes| && writes[k].id == id && writes[k].to == p
  }

  /** Every phase of the line between the given place and the row's was written to the row. */
  predicate Walked(s: State, id: string, from: nat) {
    && id in s.rows
    && (Place(s.rows[id].phase).Some? ==>
          forall k :: from < k <= Place(s.rows[id].phase).value ==> Passed(s.writes, id, LINE[k]))
  }

  /** A step wins one write or moves no phase. */
  lemma StepWins(backend: Backend, s: State, l: Label) returns (w: Option<Write>)
    ensures w.Some? ==> Wins(s, Next(backend, s, l), w.value)
    ensures w.None? ==>
      var t := Next(backend, s, l);
      t.writes == s.writes && forall id :: id in s.rows ==> id in t.rows && t.rows[id].phase == s.rows[id].phase
  {
    w := None;
    match l
    case Advance(id, from, to, nowMs, patch) =>
      UpdateMeaning(backend, s.rows, id, from, to, nowMs, patch);
      if Update(backend, s.rows, id, from, to, nowMs, patch).1 == Ok(true) {
        w := Some(Write(id, from, to, None));
      }
    case CancelWrite(req, nowMs) =>
      if req in s.pending {
        var p := s.pending[req];
        UpdateMeaning(backend, s.rows, p.target.id, p.seen, Cancelled, nowMs, CANCEL_PATCH);
        if Update(backend, s.rows, p.target.id, p.seen, Cancelled, nowMs, CANCEL_PATCH).1 == Ok(true) {
          w := Some(Write(p.target.id, p.seen, Cancelled, Some(req)));
        }
      }
    case _ =>
  }

  lemma WinWalks(s: State, t: State, w: Write, id: string, from: nat)
    requires Wins(s, t, w) && Walked(s, id, from)
    ensures Walked(t, id, from)
  {
    LineEdges(w.from, w.to);
    if Place(t.rows[id].phase).Some? {
      forall k | from < k <= Place(t.rows[id].phase).value
        ensures Passed(t.writes, id, LINE[k])
      {
        if w.id == id && LINE[k] == w.to {
          assert t.writes[|s.writes|] == w;
        } else {
          assert Passed(s.writes, id, LINE[k]);
          var j :| 0 <= j < |s.writes| && s.writes[j].id == id && s.writes[j].to == LINE[k];
          assert t.writes[j] == s.writes[j];
        }
      }
    }
  }

  /**
   * A row inserted at a place of the line is found further along it only after a write to every phase in
   * between: none is ready for broadcast without a successful simulation and a verified signature.
   */
  lemma {:induction false} WalksTheLine(backend: Backend, labels: seq<Label>, i: nat)
    requires i < |labels| && labels[i].Insert? && labels[i].id !in Run(backend, labels[..i]).rows
    requires Place(labels[i].row.phase).Some?
    ensures Walked(Run(backend, labels), labels[i].id, Place(labels[i].row.phase).value)
  {
    var before := labels[..|labels| - 1];
    if i < |before| {
      assert before[..i] == labels[..i];
      WalksTheLine(backend, before, i);
      var s, l := Run(backend, before), labels[|labels| - 1];
      var w := StepWins(backend, s, l);
      if w.Some? {
        WinWalks(s, Next(backend, s, l), w.value, labels[i].id, Place(labels[i].row.phase).value);
      }
    } else {
      assert before == labels[..i];
    }
  }

  lemma BroadcastNeedsBoth(backend: Backend, labels: seq<Label>, i: nat)
    requires i < |labels| && labels[i].Insert? && labels[i].id !in Run(backend, labels[..i]).rows
    requires labels[i].row.phase == Discovered
    ensures
      var s, id := Run(backend, labels), labels[i].id;
      && id in s.rows
      && (s.rows[id].phase == ReadyForBroadcast || s.rows[id].phase == BroadcastDisabled ==>
          Passed(s.writes, id, SimulationSucceeded) && Passed(s.writes, id, SignatureVerified))
  {
    WalksTheLine(backend, labels, i);
    assert LINE[4] == SimulationSucceeded && LINE[7] == SignatureVerified;
  }

  lemma StepKeepsRows(backend: Backend, s: State, l: Label)
    ensures RowsKeep(s.rows, Next(backend, s, l).rows)
  {
    match l
    case Advance(id, from, to, nowMs, patch) => UpdateMeaning(backend, s.rows, id, from, to, nowMs, patch);
    case CancelWrite(req, nowMs) =>
      if req in s.pending {
        var p := s.pending[req];
        UpdateMeaning(backend, s.rows, p.target.id, p.seen, Cancelled, nowMs, CANCEL_PATCH);
      }
    case _ =>
  }

  /** Plan hash, calldata hash, calldata bytes and signer key, once set, keep their value through any continuation. */
  lemma {:induction false} ImmutableForGood(backend: Backend, labels: seq<Label>, more: seq<Label>)
    ensures RowsKeep(Run(backend, labels).rows, Run(backend, labels + more).rows)
  {
    if more == [] {
      assert labels + more == labels;
    } else {
      var before, last := more[..|more| - 1], more[|more| - 1];
      ImmutableForGood(backend, labels, before);
      assert (labels + more)[..|labels + more| - 1] == labels + before && (labels + more)[|labels + more| - 1] == last;
      StepKeepsRows(backend, Run(backend, labels + before), last);
    }
  }

  // ---------------------------------------------------------------- pagination

  const MAX_ROWS: int := 10_000

  function Min(a: int, b: int): (m: int) {
    if a <= b then a else b
  }

  function Limit(q: Option<I64>): (n: int)
    ensures 1 <= n <= 1_000
    ensures q.None? ==> n == 100
    ensures q.Some? ==> (n == q.value || (q.value < n == 1) || (1_000 == n < q.value))
  {
    var n := if q.Some? then q.value else 100;
    if n < 1 then 1 else if n > 1_000 then 1_000 else n
  }

  function Offset(q: Option<I64>): (n: I64)
    ensures 0 <= n
    ensures q.Some? && 0 <= q.value ==> n == q.value
    ensures q.None? || q.value < 0 ==> n == 0
  {
    if q.Some? && q.value > 0 then q.value else 0
  }

  /** `limit.checked_add(offset).unwrap_or(limit).min(10_000)` on 64-bit integers. */
  function EffectiveLimit(limit: int, offset: I64): (n: int)
    requires 1 <= limit <= 1_000 && 0 <= offset
    ensures 1 <= n <= MAX_ROWS
  {
    Min(if limit + offset < I64_BOUND then limit + offset else limit, MAX_ROWS)
  }

  function Take<T>(s: seq<T>, n: nat): (r: seq<T>) {
    if n <= |s| then s[..n] else s
  }

  function Skip<T>(s: seq<T>, n: nat): (r: seq<T>) {
    if n <= |s| then s[n..] else []
  }

  /** One page: the store returns a prefix of its order, the route skips and takes. */
  function Page<T>(rows: seq<T>, limit: Option<I64>, offset: Option<I64>): (r: seq<T>) {
    var n, from := Limit(limit), Offset(offset);
    Take(Skip(Take(rows, EffectiveLimit(n, from)), from), n)
  }

  /** A page is the slice [offset, offset + limit) of the first 10,000 rows, overflow included. */
  lemma PageIsSlice<T>(rows: seq<T>, limit: Option<I64>, offset: Option<I64>)
    ensures
      var visible, n, from := Take(rows, MAX_ROWS), Limit(limit), Offset(offset);
      Page(rows, limit, offset) == if from <= |visible| then visible[from..Min(from + n, |visible|)] else []
  {
    var visible, n, from := Take(rows, MAX_ROWS), Limit(limit), Offset(offset);
    var taken := Take(rows, EffectiveLimit(n, from));
    if from <= |visible| {
      assert taken == visible[..Min(from + n, |visible|)];
      assert Skip(taken, from) == visible[from..Min(from + n, |visible|)];
    } else {
      assert |taken| < from;
    }
  }

  /** Where page number `count` starts. */
  function Start(limit: nat, count: nat): (n: nat)
    ensures n == count * limit
  {
    if count == 0 then 0 else Start(limit, count - 1) + limit
  }

  /** The first `count` pages of stride `limit`, one after the other. */
  function Pages<T>(rows: seq<T>, limit: I64, count: nat): (r: seq<T>)
    requires 1 <= limit <= 1_000 && Start(limit, count) < I64_BOUND
  {
    if count == 0 then [] else Pages(rows, limit, count - 1) + Page(rows, Some(limit), Some(Start(limit, count - 1)))
  }

  /** Taking a prefix and then its next piece is taking a longer prefix. */
  lemma TakeMore<T>(s: seq<T>, from: nat, n: nat)
    ensures Take(s, from) + (if from <= |s| then s[from..Min(from + n, |s|)] else []) == Take(s, from + n)
  {
  }

  /** Pages tile: no row of the first 10,000 is missed or repeated. */
  lemma {:induction false} PagesTile<T>(rows: seq<T>, limit: I64, count: nat)
    requires 1 <= limit <= 1_000 && Start(limit, count) < I64_BOUND
    ensures Pages(rows, limit, count) == Take(Take(rows, MAX_ROWS), Start(limit, count))
  {
    if count > 0 {
      PagesTile(rows, limit, count - 1);
      PageIsSlice(rows, Some(limit), Some(Start(limit, count - 1)));
      TakeMore(Take(rows, MAX_ROWS), Start(limit, count - 1), limit);
    }
  }
}
