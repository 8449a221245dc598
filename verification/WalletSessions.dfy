/**
 * Wallet read sessions: challenge, verify, session check and logout over three tables. Each committed
 * transaction is one step; a transaction that fails is rolled back and changes nothing.
 */
module WalletSessions {
  import opened Text
  import opened Words
  import opened WriteDigest
  import opened WalletMessage

  const CHALLENGE_TTL_MS: int := 300_000
  const SESSION_TTL_MS: int := 900_000
  const CLOCK_SKEW_MS: int := 30_000
  const READ_CHAIN_ID: int := 84532

  const ZERO_WALLET: string := ['0', 'x'] + seq(40, i => '0')

  type Wallet = w: string | IsWallet(w) witness ZERO_WALLET

  /** Hashes, time printing (absent outside the printable range) and recovery of a message's signer. */
  datatype Env = Env(
    sha: Hash,
    keccak: Hash,
    rfc3339: int -> Option<string>,
    recover: (string, string) -> Option<string>
  )

  datatype ChallengeRow = ChallengeRow(
    wallet: Wallet,
    origin: string,
    chainId: int,
    message: string,
    issuedAtMs: int,
    expiresAtMs: int,
    consumedAtMs: Option<int>
  )

  datatype SessionRow = SessionRow(
    wallet: Wallet,
    origin: string,
    chainId: int,
    issuedAtMs: int,
    expiresAtMs: int,
    revokedAtMs: Option<int>
  )

  /** The scopes of the rate table. */
  datatype Scope = ChallengeGlobal | ChallengeOf(wallet: Wallet) | VerifyGlobal | VerifyOf(wallet: Wallet)

  type Rates = map<(Scope, int), nat>

  datatype Tables = Tables(challenges: map<Word, ChallengeRow>, sessions: map<Word, SessionRow>, rates: Rates)

  datatype AuthError = InvalidWallet | BadClock | StorageUnavailable | RateLimited | InvalidProof | AuthRequired

  /** The text a scope is stored under. */
  function ScopeText(s: Scope): (t: string) {
    match s
    case ChallengeGlobal => "challenge:" + "global"
    case ChallengeOf(wallet) => "challenge:" + wallet
    case VerifyGlobal => "verify:" + "global"
    case VerifyOf(wallet) => "verify:" + wallet
  }

  /** No two scopes share a row of the rate table. */
  lemma ScopeTextInjective(a: Scope, b: Scope)
    requires ScopeText(a) == ScopeText(b)
    ensures a == b
  {
    assert ScopeText(a)[0] == ScopeText(b)[0];
    if a.ChallengeOf? && b.ChallengeOf? {
      ConcatUnique("challenge:", a.wallet, "challenge:", b.wallet);
    } else if a.VerifyOf? && b.VerifyOf? {
      ConcatUnique("verify:", a.wallet, "verify:", b.wallet);
    }
  }

  // ---------------------------------------------------------------- transactions as functions

  /** Integer division toward zero, as on `i64`. */
  function Bucket(nowMs: int): (b: int) {
    if nowMs >= 0 then nowMs / 60_000 else -(-nowMs / 60_000)
  }

  function Rate(rates: Rates, scope: Scope, bucket: int): (n: nat) {
    if (scope, bucket) in rates then rates[(scope, bucket)] else 0
  }

  /** `rate_limit`: the first attempt inserts 1, later ones increment while below the maximum. */
  function Counted(rates: Rates, scope: Scope, nowMs: int, max: nat): (r: Option<Rates>) {
    var k := (scope, Bucket(nowMs));
    if k !in rates then Some(rates[k := 1])
    else if rates[k] < max then Some(rates[k := rates[k] + 1])
    else None
  }

  function ChallengeMessage(env: Env, wallet: Wallet, origin: string, nonce: string, issued: int,
                            expires: int): (m: Option<string>) {
    match env.rfc3339(issued)
    case None => None
    case Some(from) =>
      match env.rfc3339(expires)
      case None => None
      case Some(until) => Some(Message(env.keccak, SignIn(wallet, origin, nonce, from, until)))
  }

  function NewRow(wallet: Wallet, origin: string, message: string, nowMs: int): (r: ChallengeRow) {
    ChallengeRow(wallet, origin, READ_CHAIN_ID, message, nowMs, nowMs + CHALLENGE_TTL_MS, None)
  }

  /** The transaction of `challenge`: both counters and the row, or nothing. */
  function ChallengeTx(t: Tables, nonceHash: Word, row: ChallengeRow): (r: Result<Tables, AuthError>) {
    match Counted(t.rates, ChallengeGlobal, row.issuedAtMs, 120)
    case None => Err(RateLimited)
    case Some(counted) =>
      match Counted(counted, ChallengeOf(row.wallet), row.issuedAtMs, 5)
      case None => Err(RateLimited)
      case Some(both) =>
        if nonceHash in t.challenges then Err(StorageUnavailable)
        else Ok(t.(challenges := t.challenges[nonceHash := row], rates := both))
  }

  /** The row `verify` may use: unconsumed, unexpired, issued by this origin, rebuilt with this nonce. */
  predicate Provable(env: Env, c: ChallengeRow, origin: string, nonce: string, nowMs: int) {
    && c.consumedAtMs.None? && nowMs < c.expiresAtMs
    && c.origin == origin && c.chainId == READ_CHAIN_ID && c.issuedAtMs <= nowMs + CLOCK_SKEW_MS
    && ChallengeMessage(env, c.wallet, c.origin, nonce, c.issuedAtMs, c.expiresAtMs) == Some(c.message)
  }

  predicate SignedBy(env: Env, c: ChallengeRow, signature: string) {
    env.recover(c.message, signature).Some? && EqIgnoreCase(env.recover(c.message, signature).value, c.wallet)
  }

  function Opened(c: ChallengeRow, nowMs: int): (s: SessionRow) {
    SessionRow(c.wallet, c.origin, READ_CHAIN_ID, nowMs, nowMs + SESSION_TTL_MS, None)
  }

  /** The last transaction of `verify`: consume the challenge and open the session, or nothing. */
  function SessionTx(env: Env, t: Tables, origin: string, nonce: string, signature: string, tokenHash: Word, nowMs: int)
    : (r: Result<Tables, AuthError>)
  {
    var n := env.sha(Utf8(nonce));
    if n !in t.challenges then Err(InvalidProof)
    else
      var c := t.challenges[n];
      if !Provable(env, c, origin, nonce, nowMs) || !SignedBy(env, c, signature) then Err(InvalidProof)
      else if tokenHash in t.sessions then Err(StorageUnavailable)
      else Ok(t.(challenges := t.challenges[n := c.(consumedAtMs := Some(nowMs))],
                 sessions := t.sessions[tokenHash := Opened(c, nowMs)]))
  }

  /** `session_wallet` for a token with this hash. */
  function SessionWallet(t: Tables, origin: string, tokenHash: Word, nowMs: int): (r: Option<Wallet>) {
    if tokenHash !in t.sessions then None
    else
      var s := t.sessions[tokenHash];
      if s.origin == origin && s.chainId == READ_CHAIN_ID && nowMs < s.expiresAtMs && s.revokedAtMs.None?
      then Some(s.wallet)
      else None
  }

  function RevokeTx(t: Tables, tokenHash: Word, nowMs: int): (r: Tables) {
    if tokenHash in t.sessions && t.sessions[tokenHash].revokedAtMs.None?
    then t.(sessions := t.sessions[tokenHash := t.sessions[tokenHash].(revokedAtMs := Some(nowMs))])
    else t
  }

  // ---------------------------------------------------------------- the message names its nonce

  lemma {:induction false} JoinCancels(a: seq<string>, b: seq<string>, k: nat)
    requires k < |a| == |b| && Join(a) == Join(b)
    requires forall i :: 0 <= i < |a| && i != k ==> a[i] == b[i]
    ensures a[k] == b[k]
  {
    if |a| > 1 {
      var s, t := Join(a[1..]), Join(b[1..]);
      if k == 0 {
        assert a[1..] == b[1..];
        assert a[0] + (['\n'] + s) == Join(a) == b[0] + (['\n'] + s);
        ConcatUnique(a[0], ['\n'] + s, b[0], ['\n'] + s);
      } else {
        assert a[0] + ['\n'] + s == Join(a) == b[0] + ['\n'] + t;
        ConcatUnique(a[0] + ['\n'], s, b[0] + ['\n'], t);
        JoinCancels(a[1..], b[1..], k - 1);
      }
    }
  }

  /** For one row, the message can be rebuilt with one nonce only. */
  lemma MessageNamesNonce(env: Env, c: ChallengeRow, a: string, b: string)
    requires ChallengeMessage(env, c.wallet, c.origin, a, c.issuedAtMs, c.expiresAtMs) == Some(c.message)
    requires ChallengeMessage(env, c.wallet, c.origin, b, c.issuedAtMs, c.expiresAtMs) == Some(c.message)
    ensures a == b
  {
    var from, until := env.rfc3339(c.issuedAtMs).value, env.rfc3339(c.expiresAtMs).value;
    var x := MessageLines(env.keccak, SignIn(c.wallet, c.origin, a, from, until));
    var y := MessageLines(env.keccak, SignIn(c.wallet, c.origin, b, from, until));
    JoinCancels(x, y, 8);
    ConcatUnique("Nonce: ", a, "Nonce: ", b);
  }

  // ---------------------------------------------------------------- runs

  datatype Label =
    | Challenge(address: string, origin: string, nonce: string, nowMs: int)
    | VerifyAttempt(nowMs: int)
    | VerifyWalletAttempt(nonce: string, nowMs: int)
    | OpenSession(origin: string, nonce: string, signature: string, token: string, nowMs: int)
    | Revoke(token: string, nowMs: int)

  /** A session opened for a challenge. */
  datatype Opening = Opening(nonceHash: Word, tokenHash: Word, nonce: string, signature: string, at: int)

  /** The tables, and what happened: the nonces issued, the sessions opened, the tokens logged out. */
  datatype State = State(tables: Tables, nonces: map<Word, string>, openings: seq<Opening>, revoked: set<Word>)

  const EMPTY := State(Tables(map[], map[], map[]), map[], [], {})

  function Digest32(env: Env, s: string): (w: Word) {
    env.sha(Utf8(s))
  }

  /** `challenge`: the row it tries to commit, if the address is one and the clock can be printed. */
  function RowFor(env: Env, address: string, origin: string, nonce: string, nowMs: int)
    : (r: Result<ChallengeRow, AuthError>)
  {
    match NormalizeOwner(address)
    case None => Err(InvalidWallet)
    case Some(wallet) =>
      match ChallengeMessage(env, wallet, origin, nonce, nowMs, nowMs + CHALLENGE_TTL_MS)
      case None => Err(BadClock)
      case Some(message) => Ok(NewRow(wallet, origin, message, nowMs))
  }

  function WithRates(s: State, rates: Option<Rates>): (t: State) {
    match rates
    case None => s
    case Some(counted) => s.(tables := s.tables.(rates := counted))
  }

  function Next(env: Env, s: State, l: Label): (t: State) {
    match l
    case Challenge(address, origin, nonce, nowMs) =>
      var row := RowFor(env, address, origin, nonce, nowMs);
      if row.Err? then s else Issued(s, Digest32(env, nonce), nonce, row.value)
    case VerifyAttempt(nowMs) => WithRates(s, Counted(s.tables.rates, VerifyGlobal, nowMs, 120))
    case VerifyWalletAttempt(nonce, nowMs) =>
      var n := Digest32(env, nonce);
      if n in s.tables.challenges && nowMs < s.tables.challenges[n].expiresAtMs
      then WithRates(s, Counted(s.tables.rates, VerifyOf(s.tables.challenges[n].wallet), nowMs, 10))
      else s
    case OpenSession(origin, nonce, signature, token, nowMs) =>
      var r := SessionTx(env, s.tables, origin, nonce, signature, Digest32(env, token), nowMs);
      if r.Err? then s
      else s.(tables := r.value,
              openings := s.openings + [Opening(Digest32(env, nonce), Digest32(env, token), nonce, signature, nowMs)])
    case Revoke(token, nowMs) =>
      var h := Digest32(env, token);
      s.(tables := RevokeTx(s.tables, h, nowMs),
         revoked := if h in s.tables.sessions then s.revoked + {h} else s.revoked)
  }

  function Issued(s: State, n: Word, nonce: string, row: ChallengeRow): (t: State) {
    var r := ChallengeTx(s.tables, n, row);
    if r.Err? then s else s.(tables := r.value, nonces := s.nonces[n := nonce])
  }

  /** The state after a run. */
  function Run(env: Env, labels: seq<Label>): (s: State) {
    if labels == [] then EMPTY else Next(env, Run(env, labels[..|labels| - 1]), labels[|labels| - 1])
  }

  // ---------------------------------------------------------------- the invariant

  predicate ChallengeOk(env: Env, s: State, n: Word)
    requires n in s.tables.challenges
  {
    var c := s.tables.challenges[n];
    && n in s.nonces && Digest32(env, s.nonces[n]) == n
    && c.expiresAtMs == c.issuedAtMs + CHALLENGE_TTL_MS && c.chainId == READ_CHAIN_ID
    && ChallengeMessage(env, c.wallet, c.origin, s.nonces[n], c.issuedAtMs, c.expiresAtMs) == Some(c.message)
  }

  predicate ChallengesOk(env: Env, s: State) {
    forall n :: n in s.tables.challenges ==> ChallengeOk(env, s, n)
  }

  /** What is true of an opened session ever after. */
  predicate OpeningOk(env: Env, s: State, k: nat)
    requires k < |s.openings|
  {
    var o := s.openings[k];
    && o.nonceHash in s.tables.challenges && o.tokenHash in s.tables.sessions && o.nonceHash in s.nonces
    && var c, session := s.tables.challenges[o.nonceHash], s.tables.sessions[o.tokenHash];
       && c.consumedAtMs == Some(o.at) && o.at < c.expiresAtMs && c.issuedAtMs <= o.at + CLOCK_SKEW_MS
       && o.nonce == s.nonces[o.nonceHash] && SignedBy(env, c, o.signature)
       && session == Opened(c, o.at).(revokedAtMs := session.revokedAtMs)
  }

  predicate OpeningsOk(env: Env, s: State) {
    && (forall k :: 0 <= k < |s.openings| ==> OpeningOk(env, s, k))
    && (forall i, j :: 0 <= i < j < |s.openings| ==>
          s.openings[i].nonceHash != s.openings[j].nonceHash && s.openings[i].tokenHash != s.openings[j].tokenHash)
  }

  /** Sessions and consumed challenges all come from openings. */
  predicate Accounted(s: State) {
    && (forall h :: h in s.tables.sessions ==> exists k :: 0 <= k < |s.openings| && s.openings[k].tokenHash == h)
    && (forall n :: n in s.tables.challenges && s.tables.challenges[n].consumedAtMs.Some? ==>
          exists k :: 0 <= k < |s.openings| && s.openings[k].nonceHash == n)
  }

  ghost predicate RevokedOk(s: State) {
    forall h :: h in s.revoked <==> h in s.tables.sessions && s.tables.sessions[h].revokedAtMs.Some?
  }

  function RowsIn(t: Tables, bucket: int): (r: set<Word>) {
    set n | n in t.challenges && Bucket(t.challenges[n].issuedAtMs) == bucket
  }

  function RowsOf(t: Tables, wallet: Wallet, bucket: int): (r: set<Word>) {
    Owned(RowsIn(t, bucket), t.challenges, wallet)
  }

  function Owned(rows: set<Word>, challenges: map<Word, ChallengeRow>, wallet: Wallet): (r: set<Word>) {
    set n | n in rows && n in challenges && challenges[n].wallet == wallet
  }

  ghost predicate CountsOk(t: Tables) {
    && (forall b :: Rate(t.rates, ChallengeGlobal, b) == |RowsIn(t, b)|)
    && (forall w, b :: Rate(t.rates, ChallengeOf(w), b) == |RowsOf(t, w, b)|)
  }

  function Cap(s: Scope): (n: nat) {
    match s case ChallengeGlobal => 120 case ChallengeOf(_) => 5 case VerifyGlobal => 120 case VerifyOf(_) => 10
  }

  predicate CapsOk(rates: Rates) {
    forall k :: k in rates ==> 0 < rates[k] <= Cap(k.0)
  }

  ghost predicate HistoryOk(env: Env, s: State) {
    ChallengesOk(env, s) && OpeningsOk(env, s) && Accounted(s) && RevokedOk(s)
  }

  ghost predicate RatesOk(t: Tables) {
    CountsOk(t) && CapsOk(t.rates)
  }

  ghost predicate Inv(env: Env, s: State) {
    HistoryOk(env, s) && RatesOk(s.tables)
  }

  // ---------------------------------------------------------------- every step keeps it

  /** One counter after one attempt. */
  lemma CountedRate(rates: Rates, scope: Scope, nowMs: int, other: Scope, b: int)
    requires CapsOk(rates) && Counted(rates, scope, nowMs, Cap(scope)).Some?
    ensures
      var after := Counted(rates, scope, nowMs, Cap(scope)).value;
      && Rate(after, other, b) == Rate(rates, other, b) + (if other == scope && b == Bucket(nowMs) then 1 else 0)
      && CapsOk(after)
  {
  }

  /** The rates after both attempts of a challenge. */
  lemma ChallengeRates(t: Tables, n: Word, row: ChallengeRow, scope: Scope, b: int)
    requires CapsOk(t.rates) && ChallengeTx(t, n, row).Ok?
    ensures
      var after := ChallengeTx(t, n, row).value.rates;
      var own := scope == ChallengeGlobal || scope == ChallengeOf(row.wallet);
      && Rate(after, scope, b) == Rate(t.rates, scope, b) + (if own && b == Bucket(row.issuedAtMs) then 1 else 0)
      && CapsOk(after)
  {
  }

  lemma IssuedRowsIn(t: Tables, u: Tables, n: Word, row: ChallengeRow, b: int)
    requires n !in t.challenges && u.challenges == t.challenges[n := row]
    ensures RowsIn(u, b) == RowsIn(t, b) + if b == Bucket(row.issuedAtMs) then {n} else {}
    ensures |RowsIn(u, b)| == |RowsIn(t, b)| + if b == Bucket(row.issuedAtMs) then 1 else 0
  {
    assert RowsIn(u, b) == RowsIn(t, b) + if b == Bucket(row.issuedAtMs) then {n} else {};
  }

  lemma IssuedRowsOf(t: Tables, u: Tables, n: Word, row: ChallengeRow, w: Wallet, b: int)
    requires n !in t.challenges && u.challenges == t.challenges[n := row]
    ensures |RowsOf(u, w, b)| == |RowsOf(t, w, b)| + (if b == Bucket(row.issuedAtMs) && w == row.wallet then 1 else 0)
  {
    IssuedRowsIn(t, u, n, row, b);
    OwnedGrows(RowsIn(t, b), t.challenges, n, row, b == Bucket(row.issuedAtMs), w);
  }

  /** One more row, counted for its wallet if it counts at all. */
  lemma OwnedGrows(rows: set<Word>, challenges: map<Word, ChallengeRow>, n: Word, row: ChallengeRow, counts: bool,
                   w: Wallet)
    requires n !in challenges && rows <= challenges.Keys
    ensures
      var more := rows + if counts then {n} else {};
      |Owned(more, challenges[n := row], w)| ==
        |Owned(rows, challenges, w)| + if counts && w == row.wallet then 1 else 0
  {
    OwnedFrame(rows, challenges, n, row, w);
    if counts {
      OwnedAdd(rows, challenges[n := row], n, w);
    } else {
      assert rows + {} == rows;
    }
  }

  lemma OwnedFrame(rows: set<Word>, challenges: map<Word, ChallengeRow>, n: Word, row: ChallengeRow, w: Wallet)
    requires n !in challenges && rows <= challenges.Keys
    ensures Owned(rows, challenges[n := row], w) == Owned(rows, challenges, w) && n !in rows
  {
  }

  lemma OwnedAdd(rows: set<Word>, challenges: map<Word, ChallengeRow>, n: Word, w: Wallet)
    requires n in challenges && n !in rows
    ensures |Owned(rows + {n}, challenges, w)| ==
            |Owned(rows, challenges, w)| + if challenges[n].wallet == w then 1 else 0
  {
    if challenges[n].wallet == w {
      assert Owned(rows + {n}, challenges, w) == Owned(rows, challenges, w) + {n};
    } else {
      assert Owned(rows + {n}, challenges, w) == Owned(rows, challenges, w);
    }
  }

  lemma IssueCounts(t: Tables, n: Word, row: ChallengeRow)
    requires RatesOk(t) && ChallengeTx(t, n, row).Ok?
    ensures RatesOk(ChallengeTx(t, n, row).value)
  {
    var u := ChallengeTx(t, n, row).value;
    ChallengeRates(t, n, row, ChallengeGlobal, 0);
    forall b ensures Rate(u.rates, ChallengeGlobal, b) == |RowsIn(u, b)| {
      ChallengeRates(t, n, row, ChallengeGlobal, b);
      IssuedRowsIn(t, u, n, row, b);
    }
    forall w, b ensures Rate(u.rates, ChallengeOf(w), b) == |RowsOf(u, w, b)| {
      ChallengeRates(t, n, row, ChallengeOf(w), b);
      IssuedRowsOf(t, u, n, row, w, b);
    }
  }

  /** Rows keep their wallet and issue time. */
  predicate SameIssues(t: Tables, u: Tables) {
    && u.challenges.Keys == t.challenges.Keys
    && (forall n :: n in t.challenges ==>
          u.challenges[n].wallet == t.challenges[n].wallet && u.challenges[n].issuedAtMs == t.challenges[n].issuedAtMs)
  }

  ghost predicate SameChallengeRates(t: Tables, u: Tables) {
    && (forall b :: Rate(u.rates, ChallengeGlobal, b) == Rate(t.rates, ChallengeGlobal, b))
    && (forall w, b :: Rate(u.rates, ChallengeOf(w), b) == Rate(t.rates, ChallengeOf(w), b))
  }

  lemma SameCounts(t: Tables, u: Tables)
    requires CountsOk(t) && SameIssues(t, u) && SameChallengeRates(t, u)
    ensures CountsOk(u)
  {
    forall b ensures RowsIn(u, b) == RowsIn(t, b) {}
    forall w, b ensures RowsOf(u, w, b) == RowsOf(t, w, b) { assert RowsIn(u, b) == RowsIn(t, b); }
  }

  lemma AttemptCounts(t: Tables, scope: Scope, nowMs: int)
    requires RatesOk(t) && (scope.VerifyGlobal? || scope.VerifyOf?)
    requires Counted(t.rates, scope, nowMs, Cap(scope)).Some?
    ensures
      var u := t.(rates := Counted(t.rates, scope, nowMs, Cap(scope)).value);
      RatesOk(u)
  {
    var u := t.(rates := Counted(t.rates, scope, nowMs, Cap(scope)).value);
    CountedRate(t.rates, scope, nowMs, scope, 0);
    forall b ensures Rate(u.rates, ChallengeGlobal, b) == Rate(t.rates, ChallengeGlobal, b) {
      CountedRate(t.rates, scope, nowMs, ChallengeGlobal, b);
    }
    forall w, b ensures Rate(u.rates, ChallengeOf(w), b) == Rate(t.rates, ChallengeOf(w), b) {
      CountedRate(t.rates, scope, nowMs, ChallengeOf(w), b);
    }
    SameCounts(t, u);
  }

  /** Rows and sessions stay, but for a consumption or a revocation; nonces stay. */
  predicate Extends(s: State, t: State) {
    && (forall n :: n in s.tables.challenges ==>
          && n in t.tables.challenges
          && t.tables.challenges[n] == s.tables.challenges[n].(consumedAtMs := t.tables.challenges[n].consumedAtMs)
          && (s.tables.challenges[n].consumedAtMs.Some? ==>
                t.tables.challenges[n].consumedAtMs == s.tables.challenges[n].consumedAtMs))
    && (forall h :: h in s.tables.sessions ==>
          && h in t.tables.sessions
          && t.tables.sessions[h] == s.tables.sessions[h].(revokedAtMs := t.tables.sessions[h].revokedAtMs))
    && (forall n :: n in s.nonces && n in s.tables.challenges ==> n in t.nonces && t.nonces[n] == s.nonces[n])
  }

  lemma ChallengesFrame(env: Env, s: State, t: State)
    requires ChallengesOk(env, s) && Extends(s, t)
    requires forall n :: n in t.tables.challenges && n !in s.tables.challenges ==> ChallengeOk(env, t, n)
    ensures ChallengesOk(env, t)
  {
  }

  lemma OpeningExtends(env: Env, s: State, t: State, k: nat)
    requires Extends(s, t) && k < |s.openings| <= |t.openings| && t.openings[k] == s.openings[k] && OpeningOk(env, s, k)
    ensures OpeningOk(env, t, k)
  {
  }

  lemma OpeningsFrame(env: Env, s: State, t: State)
    requires OpeningsOk(env, s) && Extends(s, t) && t.openings == s.openings
    ensures OpeningsOk(env, t)
  {
    forall k | 0 <= k < |t.openings| ensures OpeningOk(env, t, k) { OpeningExtends(env, s, t, k); }
  }

  lemma IssueKeeps(env: Env, s: State, n: Word, nonce: string, row: ChallengeRow)
    requires HistoryOk(env, s) && n == Digest32(env, nonce) && row.consumedAtMs.None?
    requires row == NewRow(row.wallet, row.origin, row.message, row.issuedAtMs)
    requires ChallengeMessage(env, row.wallet, row.origin, nonce, row.issuedAtMs, row.expiresAtMs) == Some(row.message)
    ensures HistoryOk(env, Issued(s, n, nonce, row))
  {
    var t := Issued(s, n, nonce, row);
    if t != s {
      ChallengesFrame(env, s, t);
      OpeningsFrame(env, s, t);
    }
  }

  /** What a successful last transaction of `verify` does. */
  predicate Opens(env: Env, s: State, t: State, o: Opening) {
    && o.nonceHash in s.tables.challenges && o.tokenHash !in s.tables.sessions && o.nonceHash in s.nonces
    && var c := s.tables.challenges[o.nonceHash];
       && c.consumedAtMs.None? && o.at < c.expiresAtMs && c.issuedAtMs <= o.at + CLOCK_SKEW_MS
       && o.nonce == s.nonces[o.nonceHash] && SignedBy(env, c, o.signature)
       && t.tables == s.tables.(challenges := s.tables.challenges[o.nonceHash := c.(consumedAtMs := Some(o.at))],
                                sessions := s.tables.sessions[o.tokenHash := Opened(c, o.at)])
       && t == s.(tables := t.tables, openings := s.openings + [o])
  }

  lemma OpeningOpens(env: Env, s: State, l: Label)
    requires ChallengesOk(env, s) && l.OpenSession? && Next(env, s, l) != s
    ensures Opens(env, s, Next(env, s, l),
                  Opening(Digest32(env, l.nonce), Digest32(env, l.token), l.nonce, l.signature, l.nowMs))
  {
    var n := Digest32(env, l.nonce);
    assert ChallengeOk(env, s, n);
    MessageNamesNonce(env, s.tables.challenges[n], l.nonce, s.nonces[n]);
  }

  lemma OpensOpenings(env: Env, s: State, t: State, o: Opening)
    requires OpeningsOk(env, s) && Opens(env, s, t, o)
    ensures OpeningsOk(env, t)
  {
    var last := |s.openings|;
    forall k | 0 <= k < |t.openings|
      ensures OpeningOk(env, t, k)
      ensures k < last ==> t.openings[k].nonceHash != o.nonceHash && t.openings[k].tokenHash != o.tokenHash
    {
      if k < last {
        assert OpeningOk(env, s, k);
        OpeningExtends(env, s, t, k);
      } else {
        assert t.openings[k] == o;
      }
    }
  }

  lemma OpensExtends(env: Env, s: State, t: State, o: Opening)
    requires RevokedOk(s) && Opens(env, s, t, o)
    ensures Extends(s, t) && RevokedOk(t) && t.tables.challenges.Keys == s.tables.challenges.Keys
  {
  }

  lemma OpensAccounted(env: Env, s: State, t: State, o: Opening)
    requires Accounted(s) && Opens(env, s, t, o)
    ensures Accounted(t)
  {
    assert t.openings[|s.openings|] == o;
    assert forall k :: 0 <= k < |s.openings| ==> t.openings[k] == s.openings[k];
  }

  lemma OpenKeeps(env: Env, s: State, t: State, o: Opening)
    requires HistoryOk(env, s) && Opens(env, s, t, o)
    ensures HistoryOk(env, t)
  {
    OpensExtends(env, s, t, o);
    ChallengesFrame(env, s, t);
    OpensOpenings(env, s, t, o);
    OpensAccounted(env, s, t, o);
  }

  lemma AttemptKeeps(env: Env, s: State, rates: Option<Rates>)
    requires HistoryOk(env, s)
    ensures HistoryOk(env, WithRates(s, rates))
  {
    ChallengesFrame(env, s, WithRates(s, rates));
    OpeningsFrame(env, s, WithRates(s, rates));
  }

  lemma RevokeExtends(env: Env, s: State, token: string, nowMs: int)
    requires RevokedOk(s) && Accounted(s)
    ensures
      var t := Next(env, s, Revoke(token, nowMs));
      && Extends(s, t) && t.openings == s.openings && t.tables.challenges == s.tables.challenges
      && RevokedOk(t) && Accounted(t)
  {
  }

  lemma RevokeKeeps(env: Env, s: State, token: string, nowMs: int)
    requires HistoryOk(env, s)
    ensures HistoryOk(env, Next(env, s, Revoke(token, nowMs)))
  {
    var t := Next(env, s, Revoke(token, nowMs));
    RevokeExtends(env, s, token, nowMs);
    ChallengesFrame(env, s, t);
    OpeningsFrame(env, s, t);
  }

  lemma StepKeepsHistory(env: Env, s: State, l: Label)
    requires HistoryOk(env, s)
    ensures HistoryOk(env, Next(env, s, l))
  {
    match l
    case Challenge(address, origin, nonce, nowMs) =>
      var row := RowFor(env, address, origin, nonce, nowMs);
      if row.Ok? { IssueKeeps(env, s, Digest32(env, nonce), nonce, row.value); }
    case OpenSession(_, nonce, signature, token, nowMs) =>
      if Next(env, s, l) != s {
        OpeningOpens(env, s, l);
        OpenKeeps(env, s, Next(env, s, l),
                  Opening(Digest32(env, nonce), Digest32(env, token), nonce, signature, nowMs));
      }
    case VerifyAttempt(nowMs) => AttemptKeeps(env, s, Counted(s.tables.rates, VerifyGlobal, nowMs, 120));
    case VerifyWalletAttempt(nonce, nowMs) =>
      if Next(env, s, l) != s {
        AttemptKeeps(env, s,
                     Counted(s.tables.rates, VerifyOf(s.tables.challenges[Digest32(env, nonce)].wallet), nowMs, 10));
      }
    case Revoke(token, nowMs) => RevokeKeeps(env, s, token, nowMs);
  }

  lemma OpenedIssues(t: Tables, n: Word, at: int, sessions: map<Word, SessionRow>)
    requires n in t.challenges
    ensures
      var consumed := t.challenges[n].(consumedAtMs := Some(at));
      SameIssues(t, t.(challenges := t.challenges[n := consumed], sessions := sessions))
  {
  }

  lemma OpenCounts(env: Env, s: State, l: Label)
    requires RatesOk(s.tables) && l.OpenSession?
    ensures RatesOk(Next(env, s, l).tables)
  {
    var t := Next(env, s, l);
    if t.openings != s.openings {
      OpenedIssues(s.tables, Digest32(env, l.nonce), l.nowMs, t.tables.sessions);
      SameCounts(s.tables, t.tables);
    }
  }

  lemma StepKeepsRates(env: Env, s: State, l: Label)
    requires RatesOk(s.tables)
    ensures RatesOk(Next(env, s, l).tables)
  {
    var t := Next(env, s, l);
    match l
    case Challenge(address, origin, nonce, nowMs) =>
      var row := RowFor(env, address, origin, nonce, nowMs);
      if row.Ok? && ChallengeTx(s.tables, Digest32(env, nonce), row.value).Ok? {
        IssueCounts(s.tables, Digest32(env, nonce), row.value);
      }
    case VerifyAttempt(nowMs) => if t != s { AttemptCounts(s.tables, VerifyGlobal, nowMs); }
    case VerifyWalletAttempt(nonce, nowMs) =>
      if t != s { AttemptCounts(s.tables, VerifyOf(s.tables.challenges[Digest32(env, nonce)].wallet), nowMs); }
    case OpenSession(_, _, _, _, _) => OpenCounts(env, s, l);
    case Revoke(_, _) => SameCounts(s.tables, t.tables);
  }

  lemma {:induction false} RunInv(env: Env, labels: seq<Label>)
    ensures Inv(env, Run(env, labels))
  {
    if labels == [] {
      forall b ensures RowsIn(EMPTY.tables, b) == {} {}
      forall w, b ensures RowsOf(EMPTY.tables, w, b) == {} {}
    } else {
      RunInv(env, labels[..|labels| - 1]);
      StepKeepsHistory(env, Run(env, labels[..|labels| - 1]), labels[|labels| - 1]);
      StepKeepsRates(env, Run(env, labels[..|labels| - 1]), labels[|labels| - 1]);
    }
  }

  // ---------------------------------------------------------------- what holds in every run

  /** A challenge opens at most one session, and a token belongs to one opening. */
  lemma AtMostOneSessionPerChallenge(env: Env, labels: seq<Label>, i: nat, j: nat)
    requires i < |Run(env, labels).openings| && j < |Run(env, labels).openings|
    ensures
      var o := Run(env, labels).openings;
      (i == j <==> o[i].nonceHash == o[j].nonceHash) && (i == j <==> o[i].tokenHash == o[j].tokenHash)
  {
    RunInv(env, labels);
  }

  /**
   * A token accepted at time t was opened for a challenge issued to its wallet, by this very nonce,
   * less than 20 minutes before t, over a message that the wallet's key signed; and it was never
   * logged out. No hypothesis on the clock is needed.
   */
  lemma AcceptedTokenIsRecent(env: Env, labels: seq<Label>, origin: string, token: string, t: int) returns (k: nat)
    requires SessionWallet(Run(env, labels).tables, origin, Digest32(env, token), t).Some?
    ensures
      var s := Run(env, labels);
      && k < |s.openings| && s.openings[k].tokenHash == Digest32(env, token) && s.openings[k].tokenHash !in s.revoked
      && s.openings[k].nonceHash in s.tables.challenges && s.openings[k].nonceHash in s.nonces
      && var c := s.tables.challenges[s.openings[k].nonceHash];
         && SessionWallet(s.tables, origin, Digest32(env, token), t) == Some(c.wallet) && c.origin == origin
         && t - 1_200_000 < c.issuedAtMs && SignedBy(env, c, s.openings[k].signature)
         && s.openings[k].nonce == s.nonces[s.openings[k].nonceHash]
  {
    var s := Run(env, labels);
    RunInv(env, labels);
    k :| 0 <= k < |s.openings| && s.openings[k].tokenHash == Digest32(env, token);
    assert OpeningOk(env, s, k);
    assert ChallengeOk(env, s, s.openings[k].nonceHash);
  }

  lemma StepKeepsRevoked(env: Env, s: State, l: Label)
    ensures s.revoked <= Next(env, s, l).revoked
  {
  }

  lemma RunLast(env: Env, labels: seq<Label>, l: Label)
    ensures Run(env, labels + [l]) == Next(env, Run(env, labels), l)
  {
    assert (labels + [l])[..|labels|] == labels;
  }

  lemma {:induction false} RevokedGrows(env: Env, labels: seq<Label>, more: seq<Label>)
    ensures Run(env, labels).revoked <= Run(env, labels + more).revoked
    decreases |more|
  {
    if more == [] {
      assert labels + more == labels;
    } else {
      var earlier, last := labels + more[..|more| - 1], more[|more| - 1];
      RevokedGrows(env, labels, more[..|more| - 1]);
      LastKeepsRevoked(env, earlier, last);
      assert labels + more == earlier + [last];
    }
  }

  lemma LastKeepsRevoked(env: Env, labels: seq<Label>, l: Label)
    ensures Run(env, labels).revoked <= Run(env, labels + [l]).revoked
  {
    RunLast(env, labels, l);
    StepKeepsRevoked(env, Run(env, labels), l);
  }

  /** After a completed logout the token is refused for ever, at any time and for any origin. */
  lemma LoggedOutForGood(env: Env, labels: seq<Label>, token: string, nowMs: int, more: seq<Label>, origin: string,
                         t: int)
    requires Digest32(env, token) in Run(env, labels).tables.sessions
    ensures
      var after := Run(env, labels + [Revoke(token, nowMs)] + more);
      SessionWallet(after.tables, origin, Digest32(env, token), t) == None
  {
    var first := labels + [Revoke(token, nowMs)];
    RunLast(env, labels, Revoke(token, nowMs));
    RevokedGrows(env, first, more);
    RunInv(env, first + more);
  }

  /** The sum of the per-wallet challenge counters. */
  ghost function SumRates(rates: Rates, wallets: set<Wallet>, bucket: int): (n: nat) {
    if wallets == {} then 0
    else Rate(rates, ChallengeOf(Pick(wallets)), bucket) + SumRates(rates, wallets - {Pick(wallets)}, bucket)
  }

  function RowsOfAny(t: Tables, wallets: set<Wallet>, bucket: int): (r: set<Word>) {
    set n | n in RowsIn(t, bucket) && t.challenges[n].wallet in wallets
  }

  lemma {:induction false} SumCountsRows(t: Tables, wallets: set<Wallet>, bucket: int)
    requires CountsOk(t)
    ensures SumRates(t.rates, wallets, bucket) == |RowsOfAny(t, wallets, bucket)|
  {
    if wallets == {} {
      assert RowsOfAny(t, wallets, bucket) == {};
    } else {
      var w := Pick(wallets);
      SumCountsRows(t, wallets - {w}, bucket);
      var rest, own := RowsOfAny(t, wallets - {w}, bucket), RowsOf(t, w, bucket);
      assert RowsOfAny(t, wallets, bucket) == rest + own && rest !! own;
    }
  }

  lemma CountersConserve(t: Tables, wallets: set<Wallet>, bucket: int)
    requires CountsOk(t)
    requires forall n :: n in RowsIn(t, bucket) ==> t.challenges[n].wallet in wallets
    ensures Rate(t.rates, ChallengeGlobal, bucket) == SumRates(t.rates, wallets, bucket) == |RowsIn(t, bucket)|
  {
    SumCountsRows(t, wallets, bucket);
    assert RowsOfAny(t, wallets, bucket) == RowsIn(t, bucket);
  }

  /**
   * Conservation: in every run and minute, the global challenge counter, the sum of the per-wallet
   * counters and the number of committed rows agree, and no counter passes its cap.
   */
  lemma ChallengeCountersConserve(env: Env, labels: seq<Label>, wallets: set<Wallet>, bucket: int)
    requires forall n :: n in RowsIn(Run(env, labels).tables, bucket) ==>
      Run(env, labels).tables.challenges[n].wallet in wallets
    ensures
      var t := Run(env, labels).tables;
      && Rate(t.rates, ChallengeGlobal, bucket) == SumRates(t.rates, wallets, bucket) == |RowsIn(t, bucket)| <= 120
      && (forall w :: w in wallets ==> Rate(t.rates, ChallengeOf(w), bucket) == |RowsOf(t, w, bucket)| <= 5)
      && Rate(t.rates, VerifyGlobal, bucket) <= 120 && (forall w :: Rate(t.rates, VerifyOf(w), bucket) <= 10)
  {
    var t := Run(env, labels).tables;
    RunInv(env, labels);
    CountersConserve(t, wallets, bucket);
  }

  /** In every run, `verify` opens a session exactly for the issued nonce, in its window, signed by its wallet. */
  lemma OpensExactly(env: Env, labels: seq<Label>, origin: string, nonce: string, signature: string, token: string,
                     nowMs: int)
    ensures
      var s, n := Run(env, labels), Digest32(env, nonce);
      SessionTx(env, s.tables, origin, nonce, signature, Digest32(env, token), nowMs).Ok? <==>
        && n in s.tables.challenges && n in s.nonces && s.nonces[n] == nonce
        && var c := s.tables.challenges[n];
           && (forall k :: 0 <= k < |s.openings| ==> s.openings[k].nonceHash != n)
           && c.issuedAtMs - CLOCK_SKEW_MS <= nowMs < c.issuedAtMs + CHALLENGE_TTL_MS && c.origin == origin
           && SignedBy(env, c, signature) && Digest32(env, token) !in s.tables.sessions
  {
    var s, n := Run(env, labels), Digest32(env, nonce);
    RunInv(env, labels);
    if n in s.tables.challenges {
      var c := s.tables.challenges[n];
      assert ChallengeOk(env, s, n);
      if ChallengeMessage(env, c.wallet, c.origin, nonce, c.issuedAtMs, c.expiresAtMs) == Some(c.message) {
        MessageNamesNonce(env, c, nonce, s.nonces[n]);
      }
      if c.consumedAtMs.None? {
        forall k | 0 <= k < |s.openings| ensures s.openings[k].nonceHash != n { assert OpeningOk(env, s, k); }
      }
    }
  }

  // ---------------------------------------------------------------- the store as an object

  /** The token of an `Authorization: Bearer` header, when it has the shape of one. */
  function BearerToken(header: string): (r: Option<string>)
    ensures r.Some? ==> |r.value| == 64 && AllHex(r.value) && header == "Bearer " + r.value
  {
    if "Bearer " <= header && |header| == 71 && AllHex(header[7..]) then Some(header[7..]) else None
  }

  /** Accepted exactly: `Bearer `, then 64 hexadecimal digits, which are the token. */
  lemma BearerTokenExact(header: string, token: string)
    ensures BearerToken(header) == Some(token) <==> header == "Bearer " + token && |token| == 64 && AllHex(token)
  {
    assert header == "Bearer " + token ==> header[7..] == token;
  }

  /** The rate transactions of `verify`, each committed on its own: failed proofs still count. */
  function VerifyRates(env: Env, t: Tables, nonce: string, nowMs: int): (r: (Tables, bool)) {
    var n := Digest32(env, nonce);
    match Counted(t.rates, VerifyGlobal, nowMs, 120)
    case None => (t, false)
    case Some(counted) =>
      var u := t.(rates := counted);
      if n !in t.challenges || t.challenges[n].expiresAtMs <= nowMs then (u, true)
      else
        match Counted(counted, VerifyOf(t.challenges[n].wallet), nowMs, 10)
        case None => (u, false)
        case Some(both) => (t.(rates := both), true)
  }

  predicate ProofShape(nonce: string, signature: string) {
    |nonce| == 32 && AllHex(nonce) && |Utf8(signature)| == 132
  }

  class WalletReadStore {
    var challenges: map<Word, ChallengeRow>
    var sessions: map<Word, SessionRow>
    var rates: Rates

    constructor ()
      ensures Contents() == EMPTY.tables
    {
      challenges, sessions, rates := map[], map[], map[];
    }

    ghost function Contents(): (t: Tables)
      reads this
    {
      Tables(challenges, sessions, rates)
    }

    method RateLimit(scope: Scope, nowMs: int, max: nat) returns (ok: bool)
      modifies this`rates
      ensures ok <==> Counted(old(rates), scope, nowMs, max).Some?
      ensures rates == if ok then Counted(old(rates), scope, nowMs, max).value else old(rates)
    {
      var key := (scope, Bucket(nowMs));
      if key !in rates {
        rates := rates[key := 1];
        return true;
      }
      if rates[key] < max {
        rates := rates[key := rates[key] + 1];
        return true;
      }
      return false;
    }

    /** `challenge`: a refusal after the first counter rolls that counter back. */
    method Challenge(env: Env, address: string, origin: string, nonce: string, nowMs: int)
      returns (r: Result<string, AuthError>)
      modifies this
      ensures
        var row := RowFor(env, address, origin, nonce, nowMs);
        if row.Err? then Contents() == old(Contents()) && r == Err(row.error)
        else
          match ChallengeTx(old(Contents()), Digest32(env, nonce), row.value)
          case Err(e) => Contents() == old(Contents()) && r == Err(e)
          case Ok(t) => Contents() == t && r == Ok(row.value.message)
    {
      var row := RowFor(env, address, origin, nonce, nowMs);
      if row.Err? {
        return Err(row.error);
      }
      var snapshot := rates;
      var ok := RateLimit(ChallengeGlobal, nowMs, 120);
      if !ok {
        return Err(RateLimited);
      }
      ok := RateLimit(ChallengeOf(row.value.wallet), nowMs, 5);
      if !ok {
        rates := snapshot;
        return Err(RateLimited);
      }
      var n := Digest32(env, nonce);
      if n in challenges {
        rates := snapshot;
        return Err(StorageUnavailable);
      }
      challenges := challenges[n := row.value];
      return Ok(row.value.message);
    }

    /** The last transaction of `verify`. */
    method Open(env: Env, origin: string, nonce: string, signature: string, token: string, nowMs: int)
      returns (r: Result<SessionRow, AuthError>)
      modifies this
      ensures
        match SessionTx(env, old(Contents()), origin, nonce, signature, Digest32(env, token), nowMs)
        case Err(e) => Contents() == old(Contents()) && r == Err(e)
        case Ok(t) => Contents() == t && r == Ok(Opened(old(challenges)[Digest32(env, nonce)], nowMs))
    {
      var n, h := Digest32(env, nonce), Digest32(env, token);
      if n !in challenges {
        return Err(InvalidProof);
      }
      var c := challenges[n];
      if !Provable(env, c, origin, nonce, nowMs) {
        return Err(InvalidProof);
      }
      if !SignedBy(env, c, signature) {
        return Err(InvalidProof);
      }
      var snapshot := challenges;
      challenges := challenges[n := c.(consumedAtMs := Some(nowMs))];
      if h in sessions {
        challenges := snapshot;
        return Err(StorageUnavailable);
      }
      sessions := sessions[h := Opened(c, nowMs)];
      return Ok(Opened(c, nowMs));
    }

    /** `verify`: its three transactions without interference. */
    method Verify(env: Env, origin: string, nonce: string, signature: string, token: string, nowMs: int)
      returns (r: Result<SessionRow, AuthError>)
      modifies this
      ensures !(|nonce| == 32 && AllHex(nonce) && |Utf8(signature)| == 132) ==>
        Contents() == old(Contents()) && r == Err(InvalidProof)
      ensures |nonce| == 32 && AllHex(nonce) && |Utf8(signature)| == 132 ==>
        var (counted, ok) := VerifyRates(env, old(Contents()), nonce, nowMs);
        if !ok then Contents() == counted && r == Err(RateLimited)
        else
          match SessionTx(env, counted, origin, nonce, signature, Digest32(env, token), nowMs)
          case Err(e) => Contents() == counted && r == Err(e)
          case Ok(t) =>
            && Contents() == t && Digest32(env, nonce) in old(challenges)
            && var c := old(challenges)[Digest32(env, nonce)];
               r == Ok(SessionRow(c.wallet, c.origin, READ_CHAIN_ID, nowMs, nowMs + 900_000, None))
    {
      if !ProofShape(nonce, signature) {
        return Err(InvalidProof);
      }
      var ok := RateLimit(VerifyGlobal, nowMs, 120);
      if !ok {
        return Err(RateLimited);
      }
      var n := Digest32(env, nonce);
      if n in challenges && nowMs < challenges[n].expiresAtMs {
        ok := RateLimit(VerifyOf(challenges[n].wallet), nowMs, 10);
        if !ok {
          return Err(RateLimited);
        }
      }
      r := Open(env, origin, nonce, signature, token, nowMs);
    }

    method Session(env: Env, origin: string, header: string, nowMs: int) returns (r: Result<Wallet, AuthError>)
      ensures
        var token := BearerToken(header);
        if token.None? then r == Err(AuthRequired)
        else
          match SessionWallet(Contents(), origin, Digest32(env, token.value), nowMs)
          case None => r == Err(AuthRequired)
          case Some(wallet) => r == Ok(wallet)
    {
      var token := BearerToken(header);
      if token.None? {
        return Err(AuthRequired);
      }
      var h := Digest32(env, token.value);
      if h !in sessions {
        return Err(AuthRequired);
      }
      var s := sessions[h];
      if s.origin == origin && s.chainId == READ_CHAIN_ID && nowMs < s.expiresAtMs && s.revokedAtMs.None? {
        return Ok(s.wallet);
      }
      return Err(AuthRequired);
    }

    /** `logout`: after success the session check refuses the header for good. */
    method Logout(env: Env, origin: string, header: string, nowMs: int, laterMs: int) returns (r: Result<(), AuthError>)
      modifies this`sessions
      ensures r.Err? ==> sessions == old(sessions)
      ensures r.Ok? <==>
        && BearerToken(header).Some?
        && SessionWallet(old(Contents()), origin, Digest32(env, BearerToken(header).value), nowMs).Some?
      ensures r.Ok? ==>
        && BearerToken(header).Some?
        && var h := Digest32(env, BearerToken(header).value);
           && Contents() == RevokeTx(old(Contents()), h, laterMs)
           && h in sessions && sessions[h].revokedAtMs.Some?
    {
      var session := Session(env, origin, header, nowMs);
      if session.Err? {
        return Err(session.error);
      }
      var h := Digest32(env, BearerToken(header).value);
      if sessions[h].revokedAtMs.None? {
        sessions := sessions[h := sessions[h].(revokedAtMs := Some(laterMs))];
      }
      return Ok(());
    }
  }
}
