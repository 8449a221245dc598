/** Exactly when a session is accepted, a challenge issued and an attempt counted, over every run. */
module SessionWindows {
  import opened Text
  import opened Words
  import opened WriteDigest
  import opened WalletMessage
  import opened WalletSessions

  // ---------------------------------------------------------------- sessions

  /**
   * In every run, at any time t and for any origin: the token of an opening is accepted, for the wallet of its
   * challenge, exactly from that challenge's origin, before 15 minutes have passed and unless logged out.
   */
  lemma AcceptedExactly(env: Env, labels: seq<Label>, k: nat, origin: string, t: int)
    requires k < |Run(env, labels).openings|
    ensures
      var s, o := Run(env, labels), Run(env, labels).openings[k];
      && o.nonceHash in s.tables.challenges
      && var c := s.tables.challenges[o.nonceHash];
         SessionWallet(s.tables, origin, o.tokenHash, t) ==
           if origin == c.origin && t < o.at + 900_000 && o.tokenHash !in s.revoked then Some(c.wallet) else None
  {
    RunInv(env, labels);
    assert OpeningOk(env, Run(env, labels), k);
  }

  /** A token that opened no session is never accepted. */
  lemma UnopenedRefused(env: Env, labels: seq<Label>, tokenHash: Word, origin: string, t: int)
    requires forall k :: 0 <= k < |Run(env, labels).openings| ==> Run(env, labels).openings[k].tokenHash != tokenHash
    ensures SessionWallet(Run(env, labels).tables, origin, tokenHash, t) == None
  {
    RunInv(env, labels);
  }

  // ---------------------------------------------------------------- counters

  /** Buckets are minutes; before 1970 they round toward zero. */
  lemma BucketIsMinute(nowMs: int)
    ensures 0 <= nowMs ==> Bucket(nowMs) * 60_000 <= nowMs < (Bucket(nowMs) + 1) * 60_000
    ensures nowMs < 0 ==> (Bucket(nowMs) - 1) * 60_000 < nowMs <= Bucket(nowMs) * 60_000
  {
  }

  /** An attempt is counted exactly below its maximum; no other counter moves. */
  lemma CountedExactly(rates: Rates, scope: Scope, nowMs: int, max: nat)
    requires 0 < max
    ensures
      var b, r := Bucket(nowMs), Counted(rates, scope, nowMs, max);
      && (r.Some? <==> Rate(rates, scope, b) < max)
      && (r.Some? ==> forall other, m ::
            Rate(r.value, other, m) == Rate(rates, other, m) + if other == scope && m == b then 1 else 0)
  {
  }

  /**
   * In every run, a challenge is issued exactly if the address is a wallet's, the clock prints, fewer than 120
   * challenges were issued in its minute, fewer than 5 of them to the wallet, and the nonce is new.
   */
  lemma ChallengeIssuedIff(env: Env, labels: seq<Label>, address: string, origin: string, nonce: string, nowMs: int)
    ensures
      var s, n, row := Run(env, labels), Digest32(env, nonce), RowFor(env, address, origin, nonce, nowMs);
      var t := Run(env, labels + [Challenge(address, origin, nonce, nowMs)]);
      var b := Bucket(nowMs);
      if && row.Ok? && n !in s.tables.challenges && |RowsIn(s.tables, b)| < 120
         && |RowsOf(s.tables, row.value.wallet, b)| < 5
      then t.tables.challenges == s.tables.challenges[n := row.value] && t.tables.sessions == s.tables.sessions
      else t == s
  {
    var s, row := Run(env, labels), RowFor(env, address, origin, nonce, nowMs);
    RunInv(env, labels);
    RunLast(env, labels, Challenge(address, origin, nonce, nowMs));
    if row.Ok? {
      BothCounted(s.tables, Digest32(env, nonce), row.value);
    }
  }

  lemma BothCounted(t: Tables, n: Word, row: ChallengeRow)
    requires RatesOk(t)
    ensures ChallengeTx(t, n, row).Ok? <==>
      && n !in t.challenges && |RowsIn(t, Bucket(row.issuedAtMs))| < 120
      && |RowsOf(t, row.wallet, Bucket(row.issuedAtMs))| < 5
  {
    var b := Bucket(row.issuedAtMs);
    assert Rate(t.rates, ChallengeGlobal, b) == |RowsIn(t, b)|;
    assert Rate(t.rates, ChallengeOf(row.wallet), b) == |RowsOf(t, row.wallet, b)|;
  }

  /** What an issued challenge is: for the wallet and origin, on this chain, for five minutes. */
  lemma IssuedRow(env: Env, address: string, origin: string, nonce: string, nowMs: int)
    ensures
      var r := RowFor(env, address, origin, nonce, nowMs);
      && (r.Ok? <==>
          NormalizeOwner(address).Some? && env.rfc3339(nowMs).Some? && env.rfc3339(nowMs + 300_000).Some?)
      && (r.Ok? ==>
          var wallet := NormalizeOwner(address).value;
          var signIn := SignIn(wallet, origin, nonce, env.rfc3339(nowMs).value, env.rfc3339(nowMs + 300_000).value);
          r.value == ChallengeRow(wallet, origin, READ_CHAIN_ID, Message(env.keccak, signIn), nowMs, nowMs + 300_000,
                                  None))
  {
  }

  /**
   * The two rate steps of `verify`: it goes on exactly below 120 attempts in all and, if the challenge is there and
   * unexpired, below 10 for its wallet. The global attempt counts whenever it passes, the wallet's when both do.
   */
  lemma VerifyRatesExactly(env: Env, t: Tables, nonce: string, nowMs: int)
    ensures
      var n, b := Digest32(env, nonce), Bucket(nowMs);
      var (after, ok) := VerifyRates(env, t, nonce, nowMs);
      var named := n in t.challenges && nowMs < t.challenges[n].expiresAtMs;
      var global := Rate(t.rates, VerifyGlobal, b) < 120;
      && (ok <==> global && (named ==> Rate(t.rates, VerifyOf(t.challenges[n].wallet), b) < 10))
      && after == t.(rates := after.rates)
      && forall scope, m :: Rate(after.rates, scope, m) == Rate(t.rates, scope, m) +
           if m == b && ((scope.VerifyGlobal? && global)
                         || (named && ok && scope == VerifyOf(t.challenges[n].wallet))) then 1 else 0
  {
    CountedExactly(t.rates, VerifyGlobal, nowMs, 120);
    var n := Digest32(env, nonce);
    var counted := Counted(t.rates, VerifyGlobal, nowMs, 120);
    if counted.Some? && n in t.challenges {
      CountedExactly(counted.value, VerifyOf(t.challenges[n].wallet), nowMs, 10);
    }
  }

  // ---------------------------------------------------------------- attempts to verify

  /** The wallet whose counter a verify attempt moves, if its challenge is there and unexpired. */
  function AttemptedWallet(env: Env, s: State, l: Label): (w: Option<Wallet>) {
    if l.VerifyWalletAttempt? && Digest32(env, l.nonce) in s.tables.challenges
       && l.nowMs < s.tables.challenges[Digest32(env, l.nonce)].issuedAtMs + 300_000
    then Some(s.tables.challenges[Digest32(env, l.nonce)].wallet) else None
  }

  /** How often the scope was attempted in the minute. */
  function Attempts(env: Env, labels: seq<Label>, scope: Scope, b: int): (n: nat)
    requires scope.VerifyGlobal? || scope.VerifyOf?
  {
    if labels == [] then 0
    else
      var before, l := labels[..|labels| - 1], labels[|labels| - 1];
      Attempts(env, before, scope, b) + if Attempted(env, Run(env, before), l, scope, b) then 1 else 0
  }

  predicate Attempted(env: Env, s: State, l: Label, scope: Scope, b: int) {
    match scope
    case VerifyGlobal => l.VerifyAttempt? && Bucket(l.nowMs) == b
    case VerifyOf(wallet) => AttemptedWallet(env, s, l) == Some(wallet) && Bucket(l.nowMs) == b
    case _ => false
  }

  function Smaller(a: nat, b: nat): (m: nat) {
    if a <= b then a else b
  }

  /** One attempt moves its counter by one, up to the cap. */
  lemma AttemptMoves(s: State, scope: Scope, nowMs: int, other: Scope, b: int)
    requires CapsOk(s.tables.rates)
    ensures Rate(WithRates(s, Counted(s.tables.rates, scope, nowMs, Cap(scope))).tables.rates, other, b) ==
      Smaller(Rate(s.tables.rates, other, b) + (if other == scope && b == Bucket(nowMs) then 1 else 0), Cap(other))
  {
    CountedExactly(s.tables.rates, scope, nowMs, Cap(scope));
  }

  /** Issuing a challenge leaves the verify counters alone. */
  lemma IssueMoves(s: State, n: Word, nonce: string, row: ChallengeRow, scope: Scope, b: int)
    requires CapsOk(s.tables.rates) && (scope.VerifyGlobal? || scope.VerifyOf?)
    ensures Rate(Issued(s, n, nonce, row).tables.rates, scope, b) ==
            Smaller(Rate(s.tables.rates, scope, b), Cap(scope))
  {
    if ChallengeTx(s.tables, n, row).Ok? {
      ChallengeRates(s.tables, n, row, scope, b);
    }
  }

  /** Opening and revoking sessions leaves all counters alone. */
  lemma SessionsMove(env: Env, s: State, l: Label)
    requires l.OpenSession? || l.Revoke?
    ensures Next(env, s, l).tables.rates == s.tables.rates
  {
  }

  lemma WalletAttemptMoves(env: Env, s: State, l: Label, scope: Scope, b: int)
    requires CapsOk(s.tables.rates) && ChallengesOk(env, s) && (scope.VerifyGlobal? || scope.VerifyOf?)
    requires l.VerifyWalletAttempt?
    ensures Rate(Next(env, s, l).tables.rates, scope, b) ==
      Smaller(Rate(s.tables.rates, scope, b) + (if Attempted(env, s, l, scope, b) then 1 else 0), Cap(scope))
  {
    var n := Digest32(env, l.nonce);
    if n in s.tables.challenges {
      assert ChallengeOk(env, s, n);
      AttemptMoves(s, VerifyOf(s.tables.challenges[n].wallet), l.nowMs, scope, b);
    }
  }

  lemma StepCounts(env: Env, s: State, l: Label, scope: Scope, b: int)
    requires CapsOk(s.tables.rates) && ChallengesOk(env, s) && (scope.VerifyGlobal? || scope.VerifyOf?)
    ensures Rate(Next(env, s, l).tables.rates, scope, b) ==
      Smaller(Rate(s.tables.rates, scope, b) + (if Attempted(env, s, l, scope, b) then 1 else 0), Cap(scope))
  {
    match l
    case Challenge(address, origin, nonce, nowMs) =>
      var row := RowFor(env, address, origin, nonce, nowMs);
      if row.Ok? { IssueMoves(s, Digest32(env, nonce), nonce, row.value, scope, b); }
    case VerifyAttempt(nowMs) => AttemptMoves(s, VerifyGlobal, nowMs, scope, b);
    case VerifyWalletAttempt(_, _) => WalletAttemptMoves(env, s, l, scope, b);
    case _ => SessionsMove(env, s, l);
  }

  /**
   * The counters are exact: in every run and minute each verify counter stands at the number of attempts, up to
   * its cap, so the n-th attempt passes exactly for n up to 120 in all and 10 for a wallet.
   */
  lemma {:induction false} AttemptsCounted(env: Env, labels: seq<Label>, scope: Scope, b: int)
    requires scope.VerifyGlobal? || scope.VerifyOf?
    ensures Rate(Run(env, labels).tables.rates, scope, b) ==
      Smaller(Attempts(env, labels, scope, b), if scope.VerifyGlobal? then 120 else 10)
  {
    if labels != [] {
      var before := labels[..|labels| - 1];
      AttemptsCounted(env, before, scope, b);
      RunInv(env, before);
      StepCounts(env, Run(env, before), labels[|labels| - 1], scope, b);
    }
  }
}
