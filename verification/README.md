# DeOpt v2 backend: a Dafny model

A Dafny 4.11 model of the DeOpt v2 trading backend (Rust, with one Python operations script) and of
what its protocols guarantee. `dafny verify dfyconfig.toml` checks everything.

| module | models |
|---|---|
| `Text`, `Words`, `Sorting`, `Actions` | hexadecimal, decimal, UTF-8 and big-endian codecs; lexicographic sorting; the write actions and their names |
| `CanonicalPayload` | the frozen canonical payload text and a reader for it |
| `WriteDigest`, `TypedData` | the EIP-712 digest of a write authorization; EIP-712 structs in general |
| `ChallengeStore` | the challenge store, in memory and in Postgres, and `verify_and_claim` |
| `WriteProtocol`, `ExactlyOnce`, `Retries`, `KeyLimits`, `ChallengeCap` | many write requests at once, step by step; what holds over every run; what a request gets back; exactly which pairs of requests an idempotency key keeps apart; how many challenges can be outstanding |
| `WalletMessage`, `WalletSessions`, `SessionWindows` | the ERC-4361 sign-in message and the challenge, verify, session and logout protocol; exactly what is accepted when |
| `TradeDigest`, `Cosign`, `Preparing`, `Retirement` | the perp trade digest in two versions; preparing, reloading and cosigning a trade, and exactly when each succeeds; cosigning against the operator's retirement |
| `PriceQueue`, `OrderBook` | the perp order book and the two price-time queues it stands for |
| `AlertFiles`, `AlertOutbox` | the crash-safe backup alert outbox and the order in which it retries |
| `ExecutionAdmin` | execution phases, compare-and-set cancel against racing writers, pagination |
| `Positions` | the option position reader and its int128 words |
| `Metrics`, `MetricsReader` | the Prometheus text builder and a reader for its text |

Hashes and signature recovery are arbitrary functions. No hash into 32 bytes is injective, so the
binding theorems do not assume one: they conclude "equal, or else these two different strings, both
hashed along the way, collide". Clocks, random values, chain reads and HTTP answers are parameters.

What turned out different from what the documentation says:

- "One mutation per idempotency key" depends on the store and on the keys the challenges were issued
  with. With Postgres two requests of one account and action can both mutate exactly unless their
  challenges were issued with one key, whatever key they present. In memory they always can: a consumed
  row claimed again after its expiry is marked Expired, which frees its key (`KeyLimits.BothMutateIff`).
  Without such late claims the in-memory store keeps them apart exactly when each presents the key the
  other's challenge was issued with (`KeyLimits.BothMutateOnTimeIff`); signing no later a deadline than
  the challenge route proposes rules late claims out (`KeyLimits.SignedWithinIsOnTime`).
- The cap of 32 outstanding challenges is checked before issuing and without a lock. A challenge leaves
  at most 32 exactly when fewer than 32 are outstanding at the moment it is issued
  (`ChallengeCap.CapHoldsIff`); racing routes that counted earlier can reach any number
  (`ChallengeCap.RacingCapTight`).
- A reader that follows the payload's own grammar recovers it exactly when no key contains `=` and no
  address contains a quote or a backslash; a `|` in a key does no harm.
- The prepared trade reloads to itself exactly when both chain nonces are below 2^64.
- The cosign window's end rounds up in milliseconds: acceptance is possible until 86400.999 seconds.
- The cosign route reads, verifies and writes without a lock: overlapping requests can replace an
  accepted bundle (`Cosign.OverlapReplaces`), always by a sound one, and exactly when the later write
  read before anything was stored or replays a bundle replaced since (`Cosign.WriteReplacesIff`).
- The idempotency comparison of cosign is made on the printed signatures and ignores their case; on the
  decoded signatures it is byte for byte (`Cosign.ReplayAcceptedIff`). An `0X` prefix passes the
  comparison and is then refused as malformed, not as a conflict (`Cosign.ReplayRefusedAs`).
- A retired intent is meant to stay abandoned. A cosign request that read it as pending before can still
  store its signatures and make it ready again (`Retirement.OvertakenRevives`); the exact condition is
  `Retirement.RetirementUndoneIff`.
- A retry of pending alerts takes the first five JSON files by name. Five files that can never be
  delivered keep every later one from being retried (`AlertFiles.StarvingInput`); which files retries
  deliver is `AlertFiles.DeliveredExactly`.
- `StoredTradeSignatures::upsert` replaces the buyer signature before it refuses a malformed seller one.
- The in-memory execution store refuses a changed signer key only after it has set the patch's other
  columns, so a refused update can leave part of itself behind; Postgres does not
  (`ExecutionAdmin.RefusalChangesIff`).
- For a trade within one account the intent swaps the order ids if the taker sells and the nonces if it
  buys (`OrderBook.IntentNamesParties`); the self-trade check keeps the book from making such trades.

## Model

| member | source | states |
|---|---|---|
| `Text.ParseNonceHex` | src/auth/write_authorization.rs:435-449 | the nibble loop accepts exactly `0x` and 64 hexadecimal digits and yields the bytes they spell |
| `Text.NonceToHex` | src/auth/write_authorization.rs:451-458 | the printing loop yields the lower-case 0x form of the bytes |
| `Text.ParsePrinted` | src/auth/write_authorization.rs:435-458 | parsing a printed byte string gives it back, for nonces, addresses and signatures |
| `Text.PrintParsed` | src/auth/write_authorization.rs:435-467 | printing an accepted string lowercases it |
| `Text.ParseEqualIffSameLower` | src/auth/write_authorization.rs:642-644 | two accepted strings name the same bytes exactly when they agree up to ASCII case, which is what the signer comparison tests |
| `Words.Uint256ReaderExact` | src/api/perps_cosign.rs:168-187 | the reader returns v exactly on the word that `encode_u256` writes for v |
| `Words.ReadUint256Low128` | src/api/perps_cosign.rs:168-187 | the byte loop and copy compute that reader and fail exactly on a wrong length or a non-zero upper half |
| `Words.EncodeU256Injective` | src/auth/write_authorization.rs:426-430 | no two u128 values share a word |
| `Words.FixedPointRoundTrip` | src/api/dto.rs:238-264 | parsing undoes decimal printing for every u128; accepted are exactly non-empty digit strings below 2^128; reprinting is exact only without superfluous zeros |
| `Actions.ActionNamesExact` | src/auth/write_authorization.rs:105-158 | a string parses to an action exactly when it is that action's name |
| `Actions.ActionNameInjective` | src/auth/write_authorization.rs:106-130 | the names of different actions differ |
| `CanonicalPayload.EscapeCanonicalString` | src/auth/write_authorization.rs:316-329 | the character loop computes the escape function, which the next three rows pin down |
| `CanonicalPayload.EscapeConcat` | src/auth/write_authorization.rs:316-329 | escaping works character by character: the escape of a concatenation is the concatenation of the escapes |
| `CanonicalPayload.EscapeOne` | src/auth/write_authorization.rs:318-326 | a backslash and a quote get a backslash, newline, carriage return and tab become backslash and letter, every other character stands for itself |
| `CanonicalPayload.EscapedIsOneLine` | src/auth/write_authorization.rs:316-329 | an escaped string contains no newline, carriage return or tab |
| `CanonicalPayload.CanonicalPayloadBytes` | src/auth/write_authorization.rs:336-349 | the field loop computes the payload bytes |
| `CanonicalPayload.PayloadReadsBackIff` | src/auth/write_authorization.rs:303-349 | this reader recovers action and ordered fields, up to address case and integer width, if and only if keys are free of `=` and addresses of quotes and backslashes |
| `CanonicalPayload.PayloadBytesDetermineFields` | src/auth/write_authorization.rs:331-349 | under that condition equal bytes mean the same action and fields |
| `CanonicalPayload.UnreadableKeyCollides` | src/auth/write_authorization.rs:341-347 | two different requests sharing bytes when a key contains `=` |
| `CanonicalPayload.UnreadableAddressCollides` | src/auth/write_authorization.rs:310-310 | two different requests sharing bytes when an address contains a quote |
| `WriteDigest.ConcatInjective` | src/auth/write_authorization.rs:398-418 | equally many 32-byte words are read back from their concatenation |
| `WriteDigest.RequestDigestBinds` | src/auth/write_authorization.rs:363-418 | equal request digests mean the same action, address bytes, payload, nonce, non-negative deadline and key text, or a collision among the strings hashed |
| `WriteDigest.SameWriteSameDigest` | src/auth/write_authorization.rs:398-418 | what is not signed (address case, a negative deadline, an absent against an empty key) does not change the digest |
| `TypedData.WriteIsTyped` | src/auth/write_authorization.rs:388-418 | the write digest is the generic EIP-712 digest of a domain struct and a `WriteAuthorization` struct whose type string is printed from the very members that are hashed, names and values in order |
| `TypedData.NumberAgrees` | src/auth/write_authorization.rs:426-430 | the number encoder writes the 32-byte big-endian number |
| `TypedData.AddressAgrees` | src/auth/write_authorization.rs:420-424 | the address encoder writes the 32-byte big-endian number the address is |
| `ChallengeStore.ClaimMeaning` | src/auth/write_authorization.rs:769-830 | Fresh exactly when the row goes from Issued to Consumed, with digest and time recorded; a replay only on a live consumed bound row with this digest; a key conflict exactly when another consumed row owns the presented key (in memory) or the key of the live issued row (Postgres); what each other refusal says about the row; otherwise at most one expiry mark |
| `ChallengeStore.ClaimEvolves` | src/auth/write_authorization.rs:799-828 | a claim only advances a row's status and writes digest and consumption time once, in either store |
| `ChallengeStore.PostgresClaimKeepsUnique` | src/db/repository.rs:6327-6463 | with the unique index on the row's key, every claim keeps at most one consumed row per account, action and key |
| `ChallengeStore.MemoryClaimKeepsUniqueIff` | src/auth/write_authorization.rs:787-798 | the in-memory claim keeps that exactly unless it freshly consumes a row whose own key is taken |
| `ChallengeStore.StoresAgree` | src/db/repository.rs:6327-6463 | on a live bound row with its own key presented, both stores give the same outcome and rows |
| `ChallengeStore.AcceptsExactly` | src/auth/write_authorization.rs:586-644 | an envelope passes exactly on the right chain, for the expected action and account, before its deadline, with a well-formed nonce, signed over exactly this write by the account's key |
| `ChallengeStore.InMemoryChallengeStore.Issue` | src/auth/write_authorization.rs:742-749 | refuses exactly a known nonce, else adds the row and nothing more |
| `ChallengeStore.InMemoryChallengeStore.CountOutstanding` | src/auth/write_authorization.rs:751-767 | the filtering loop, in any order, returns the size of the set of live issued rows of the account and action |
| `ChallengeStore.OutstandingIsClaimable` | src/auth/write_authorization.rs:751-767 | a challenge is counted exactly if a request of the account and action could still claim it freshly |
| `ChallengeStore.InMemoryChallengeStore.Claim` | src/auth/write_authorization.rs:769-830 | the in-place claim computes the claim function on the old rows |
| `ChallengeStore.InMemoryChallengeStore.LookupIdempotentResult` | src/auth/write_authorization.rs:832-849 | returns the resource of some consumed row owning the key, or nothing only if there is none |
| `ChallengeStore.InMemoryChallengeStore.AttachResource` | src/auth/write_authorization.rs:851-861 | a present row gets the resource and keeps everything else, whatever its key or status; no other row changes, and an absent one none |
| `ChallengeStore.PostgresAttaches` | src/db/repository.rs:6496-6514 | Postgres attaches exactly to a consumed row without a resource, and never a second time |
| `ChallengeStore.InMemoryChallengeStore.IssueChallenge` | src/api/routes.rs:14459-14510 | refuses exactly at 32 outstanding challenges and otherwise adds one row, for this chain and for five minutes, so serial calls never leave more than 32 |
| `ChallengeStore.InMemoryChallengeStore.ClaimAndResolve` | src/auth/write_authorization.rs:651-695 | the whole answer: a fresh claim comes back without a resource, a replay with the one on its row, a consumed nonce without one as ambiguous; the lookup by key never changes it |
| `ChallengeStore.MemoryLookupFindsNothing` | src/auth/write_authorization.rs:663-682 | in memory a lookup directly after a claim that passed without a resource finds nothing, whatever keys are presented |
| `ChallengeStore.InMemoryChallengeStore.VerifyAndClaim` | src/auth/write_authorization.rs:586-705 | nothing changes unless every envelope check passes; then exactly the claim's effect and its resolution |
| `WriteProtocol.StepKeeps` | src/auth/write_authorization.rs:586-705 | every step of every request keeps the protocol invariant, whatever steps of others come between |
| `WriteProtocol.LedgerNeverRefuses` | src/auth/write_authorization.rs:880-901 | the version-2 nonce ledger never holds the nonce of a fresh claimant that reaches it |
| `ExactlyOnce.RunKeepsInv` | src/auth/write_authorization.rs:586-705 | the invariant holds at every point of every run from the empty store |
| `ExactlyOnce.AtMostOneMutationPerNonce` | src/auth/write_authorization.rs:769-861 | over every interleaving each nonce causes at most one mutation |
| `ExactlyOnce.FreshAtMostOnce` | src/auth/write_authorization.rs:812-819 | two requests that got one nonce freshly are the same request |
| `ExactlyOnce.ReplayHasFreshClaimant` | src/auth/write_authorization.rs:820-824 | for every reported replay there is a request that got the nonce freshly, with the same digest |
| `ExactlyOnce.RowsOnlyAdvance` | src/auth/write_authorization.rs:742-861 | between any two points of a run statuses only advance and digest and consumption time, once written, stay |
| `ExactlyOnce.AnswersAreGenuine` | src/auth/write_authorization.rs:663-705 | every answer is the request's own mutation, or one made under its nonce for the same signed write, or one made under a nonce issued for its account, action and key |
| `ExactlyOnce.ReachableUnique` | src/auth/write_authorization.rs:787-826 | with Postgres in every run, in memory in every run whose claims present their row's key, late claims included: at most one consumed row per account, action and key at every point |
| `ExactlyOnce.ReachableLookup` | src/auth/write_authorization.rs:832-849 | so at every such point the unordered search has one possible answer |
| `ExactlyOnce.ReachableFreshFindsNothing` | src/auth/write_authorization.rs:663-682 | and a request that claims freshly with its issued key and looks up at once finds no earlier resource |
| `Retries.RunKeepsIssued` | src/api/routes.rs:14471-14496 | in every reachable store every row is for this chain and expires 300000 ms after it was issued |
| `Retries.IssueStores` | src/api/routes.rs:14471-14496 | issuing adds one row, with the account as it came, or in lower case with Postgres, and nothing consumed |
| `Retries.ClaimsExactly` | src/auth/write_authorization.rs:769-830 | over every run, with either store: a claim is fresh exactly on a live untouched row of the same account (in any case) and action with no other consumed row under the key the store checks; it returns the stored resource exactly on a row consumed by the same digest; else the request is rejected |
| `Retries.AttachedForGood` | src/auth/write_authorization.rs:851-861 | over every run, with either store: once attached, a resource is on its row for good |
| `Retries.RetryClaims` | src/auth/write_authorization.rs:799-826 | after that, a claim by the same signed write is handed that very resource exactly if the row is under five minutes old and not marked expired and, in memory, no other consumed row has the presented key; else it is rejected |
| `Retries.HandedIsAnswered` | src/auth/write_authorization.rs:663-705 | whatever the others do, a request that was handed a resource takes three more steps, none of which refuses it, and answers with that resource |
| `Retries.CourseGoesOn` | src/auth/write_authorization.rs:663-705 | and each of those steps can happen |
| `Retries.RetryIsAnswered` | src/auth/write_authorization.rs:651-705 | so with clocks that do not run back, a retry within five minutes of the challenge ends with the attached resource |
| `Retries.AttachedIsFound` | src/auth/write_authorization.rs:832-861 | an attached resource is found by every request that presents its key, while its row is consumed: with Postgres always, in memory when claims present their issued keys |
| `Retries.LookupDecides` | src/auth/write_authorization.rs:663-705 | after its lookup a request is rejected exactly if it found nothing and its claim was a replay, answers with what it found, and may mutate exactly if it found nothing and its claim was fresh; the version-2 ledger never stops it |
| `ChallengeCap.RacingCap` | src/api/routes.rs:14459-14496 | over every interleaving of routes that counted fewer than 32 before issuing, a challenge leaves at most 32 outstanding plus those issued for the account and action between its count and its issue |
| `ChallengeCap.CapHoldsIff` | src/api/routes.rs:14465-14496 | in every run a challenge leaves at most 32 outstanding exactly when fewer than 32 are outstanding at the moment it is issued |
| `ChallengeCap.UndisturbedKeepsCap` | src/api/routes.rs:14465-14496 | so a route with nothing issued for its account and action between count and issue keeps the cap |
| `ChallengeCap.RacingCapTight` | src/api/routes.rs:14465-14496 | the bound is reached: for every account, action, clock and store and every 32 or more distinct nonces, routes that each counted fewer than 32 leave all those challenges outstanding |
| `ExactlyOnce.LedgerCheckNeverFires` | src/api/routes.rs:14597-14654 | in no run does the ledger check reject a request |
| `Retries.MutationsAreEntered` | src/api/routes.rs:14597-14654 | in every run no version-2 request mutates without its account, subaccount, action and nonce in the ledger |
| `ExactlyOnce.MemoryClaimKeepsKeysIff` | src/auth/write_authorization.rs:787-826 | the in-memory store keeps one consumed row per key, for good, exactly when the claim neither comes late to a consumed row nor leaves its row's taken key unpresented |
| `ExactlyOnce.AtMostOneMutationPerKey` | migrations/0029_write_auth_challenges.sql:46-48 | with Postgres in every run, in memory in every run without such claims: at most one mutation per account, action and issued key |
| `ExactlyOnce.MutationsHaveRows` | src/auth/write_authorization.rs:769-861 | every mutation's nonce has a row, so the statement above covers all mutations |
| `ExactlyOnce.AtMostOneMutationPerPresentedKey` | src/auth/write_authorization.rs:787-798 | the same for the presented key, when requests present the key their challenge was issued with |
| `KeyLimits.BothMutateIff` | src/auth/write_authorization.rs:787-826 | for any two requests of one account and action under two nonces and any two issued keys: some run lets both mutate exactly if the store is in memory, or a key is absent, or the issued keys differ |
| `KeyLimits.BothMutateOnTimeIff` | src/auth/write_authorization.rs:787-798 | among runs without late claims: for Postgres the same condition; in memory exactly unless each request presents the key the other's challenge was issued with |
| `KeyLimits.SignedWithinIsOnTime` | src/api/routes.rs:14478-14488 | a run whose requests sign deadlines no later than their challenges' expiry has no late claims |
| `KeyLimits.BothMutateWithin` | src/api/routes.rs:14478-14488 | so in such a run two requests that both mutate were not issued one key (Postgres), or not each presents the key of the other's challenge (memory) |
| `WalletMessage.NormalizeOwnerExact` | src/subaccounts/mod.rs:115-124 | accepts exactly an 0x address in any case padded with white space, and returns it in lower case |
| `WalletMessage.ChecksumAddress` | src/auth/wallet_read.rs:75-92 | the loop computes the checksummed address |
| `WalletMessage.ChecksumFollowsHash` | src/auth/wallet_read.rs:80-89 | a letter is upper case exactly where the printed hash has a digit of at least 8 |
| `WalletMessage.ChecksumOnlyCases` | src/auth/wallet_read.rs:75-92 | only letter case changes |
| `WalletMessage.HostOfOrigin` | src/auth/wallet_read.rs:94-104 | the host line names an https origin without its scheme |
| `WalletMessage.MessageReads` | src/auth/wallet_read.rs:94-109 | a reader of the ERC-4361 layout recovers wallet, origin, nonce and both times, each from after its own label, and finds host, checksum, version and chain id consistent, for texts without line breaks |
| `WalletMessage.MessageBinds` | src/auth/wallet_read.rs:94-109 | equal messages mean the same wallet, origin, nonce and printed times, for texts without line breaks |
| `WalletSessions.ScopeTextInjective` | src/auth/wallet_read.rs:175-176 | no two rate scopes share a row |
| `WalletSessions.MessageNamesNonce` | src/auth/wallet_read.rs:269-276 | for one row the message can be rebuilt with one nonce only |
| `WalletSessions.RunInv` | src/auth/wallet_read.rs:146-360 | the invariant of the three tables holds after every run of committed transactions |
| `WalletSessions.AtMostOneSessionPerChallenge` | src/auth/wallet_read.rs:254-302 | a challenge opens at most one session and a token belongs to one opening |
| `WalletSessions.AcceptedTokenIsRecent` | src/auth/wallet_read.rs:304-328 | a token accepted at t was opened for a challenge of its wallet, by the issued nonce itself, signed by the wallet, issued less than 20 minutes before t, and never logged out |
| `WalletSessions.LoggedOutForGood` | src/auth/wallet_read.rs:341-360 | after a completed logout the token is refused for ever |
| `WalletSessions.ChallengeCountersConserve` | src/auth/wallet_read.rs:111-183 | per minute the global counter, the sum of the wallet counters and the number of rows agree; at most 5 challenges per wallet and 120 in total, at most 10 proofs per wallet and 120 in total |
| `WalletSessions.OpensExactly` | src/auth/wallet_read.rs:254-296 | in every run `verify` opens a session exactly for the issued unused nonce, in its window, for its origin, signed by its wallet |
| `SessionWindows.AcceptedExactly` | src/auth/wallet_read.rs:304-328 | over every run, at any time and for any origin: the token of an opened session is accepted, for its challenge's wallet, exactly from that challenge's origin, less than 900000 ms after opening and unless logged out |
| `SessionWindows.UnopenedRefused` | src/auth/wallet_read.rs:304-328 | a token that opened no session is never accepted |
| `SessionWindows.CountedExactly` | src/auth/wallet_read.rs:111-132 | an attempt is counted exactly below its maximum, and no other counter moves |
| `SessionWindows.BucketIsMinute` | src/auth/wallet_read.rs:117-124 | a bucket is a minute, rounded toward zero |
| `SessionWindows.AttemptsCounted` | src/auth/wallet_read.rs:224-253 | over every run each verify counter stands at the number of attempts of its minute up to its cap, so the n-th attempt passes exactly for n up to 120 in all and 10 for a wallet |
| `SessionWindows.VerifyRatesExactly` | src/auth/wallet_read.rs:224-253 | verify goes on exactly below 120 attempts in all and, for a challenge that is there and unexpired, below 10 for its wallet; what each counter is afterwards |
| `SessionWindows.ChallengeIssuedIff` | src/auth/wallet_read.rs:146-189 | over every run a challenge is issued exactly for a wallet's address and a printable clock, with fewer than 120 issued in its minute, fewer than 5 of them to the wallet, and a new nonce; else nothing changes |
| `SessionWindows.IssuedRow` | src/auth/wallet_read.rs:146-176 | the row of an issued challenge: its wallet, origin and chain, the message to sign, and five minutes |
| `WalletSessions.BearerTokenExact` | src/auth/wallet_read.rs:311-318 | a header yields a token exactly when it is `Bearer ` followed by that token of 64 hexadecimal digits |
| `WalletSessions.WalletReadStore.RateLimit` | src/auth/wallet_read.rs:111-132 | counts one attempt or refuses at the maximum |
| `WalletSessions.WalletReadStore.Challenge` | src/auth/wallet_read.rs:146-189 | commits both counters and the row, or rolls everything back |
| `WalletSessions.WalletReadStore.Open` | src/auth/wallet_read.rs:254-296 | consumes the challenge and opens the session together, or changes nothing |
| `WalletSessions.WalletReadStore.Verify` | src/auth/wallet_read.rs:204-302 | counts the attempt globally and for the wallet, committed even if the proof fails, then opens the session for 900000 ms or changes nothing more |
| `WalletSessions.WalletReadStore.Session` | src/auth/wallet_read.rs:304-328 | refuses every header without a bearer token and otherwise answers as the session lookup, which `SessionWindows.AcceptedExactly` determines in every run |
| `WalletSessions.WalletReadStore.Logout` | src/auth/wallet_read.rs:341-360 | succeeds exactly for an accepted header, and then the session is revoked |
| `TradeDigest.TradeDigestBinds` | src/execution/perp_trade.rs:438-604 | equal digests mean the same version, chain, contract and signed fields, or a collision among the strings hashed; no digest serves both versions |
| `TradeDigest.SameTradeSameDigest` | src/execution/perp_trade.rs:497-514 | what a version does not sign does not matter: version 1 ignores the price bounds |
| `TypedData.TradeIsTyped` | src/execution/perp_trade.rs:438-604 | each version's trade digest is the generic EIP-712 digest of its engine's domain struct and a `PerpTrade` struct whose type string is printed from the very members that are hashed |
| `TypedData.FrozenTypes` | src/execution/perp_trade.rs:346-477 | the frozen type strings of writes and trades are those printed ones |
| `TypedData.ChainAgrees` | src/execution/perp_trade.rs:623-627 | the chain id encoder writes the 32-byte big-endian number |
| `TypedData.FlagAgrees` | src/execution/perp_trade.rs:613-621 | the flag encoder writes the 32-byte number 0 or 1 |
| `TradeDigest.DomainsSeparate` | src/auth/write_authorization.rs:388-396 | under different domain names no digest is both a write authorization's and a trade's, or two of the strings hashed collide |
| `TradeDigest.WritesNeverTrade` | src/execution/perp_trade.rs:220-245 | with the frozen texts of both domains: no signature authorizes both a write and a trade, short of a collision |
| `Cosign.FreezeCommits` | src/api/perps_cosign.rs:354-504 | a frozen trade has the request's parties, market, size, bounds and maker flag and the chain's nonces and mark price; size and price are positive and the price is within the bounds that are set |
| `Preparing.PrepareOkIff` | src/api/perps_cosign.rs:343-609 | prepare succeeds if and only if trading is in closed test, both trimmed addresses are well formed, allowed, different and have a nonce, market and size parse, the market is below 65536 and has a positive mark price that no set bound excludes (no bounds at all with version 1), the active version has a well-formed engine and the deadline fits; the frozen payload is then given field by field |
| `Preparing.SealsExactly` | src/api/perps_cosign.rs:506-609 | a valid payload is sealed exactly with an engine of the active version and columns that fit; the row holds it, nonces cut to 64 bits |
| `Preparing.ValidExactly` | src/execution/perp_trade.rs:68-103 | exactly which payloads are valid: identified, between well-formed addresses, positive size and price, price within the bounds that are set |
| `Preparing.DeadlineExact` | src/api/perps_cosign.rs:463-480 | the deadline is the preparation second plus the TTL in force, and a second before 1970 leaves none that fits |
| `Preparing.SpellingIsRead` | src/api/perps_cosign.rs:378-390 | decimal fields: every optional plus sign, leading zeros and decimal number below 2^128 is read as that number |
| `Preparing.ReadIsSpelled` | src/api/perps_cosign.rs:378-390 | and nothing else is read |
| `Preparing.ReloadsExactly` | src/execution/intent.rs:164-216 | a row reloads exactly if its metadata is complete, its deadline in whole seconds, its addresses well formed, size and price positive and within its bounds, of which version 1 has none; to the trade its columns say |
| `Preparing.PreparedCosignedIff` | src/api/perps_cosign.rs:785-885 | from preparation to cosigning: with nonces below 2^64 the first cosignature is accepted if and only if the TTL in force has not passed and both signatures recover to the request's parties on the digest that preparing returned, whatever version is active by then |
| `Preparing.HalfStoredConflicts` | src/api/perps_cosign.rs:859-885 | over half a bundle every unexpired request conflicts |
| `Cosign.PrepareThenReload` | src/api/perps_cosign.rs:343-609 | the row pins the active version and reloads to the frozen payload exactly when both nonces fit 64 bits |
| `Cosign.RowReloads` | src/execution/intent.rs:164-216 | in general the reload is the payload with nonces cut to 64 bits and the deadline exact |
| `Cosign.PreparedDigestSurvivesFlip` | src/api/perps_cosign.rs:506-532 | the digest rebuilt from the row is the signed one whatever version is active later |
| `Cosign.PreparedExpiresExactly` | src/api/perps_cosign.rs:853-857 | from preparation to cosigning, for every later active version, request, stored signatures and second, nonces over 64 bits included: a prepared trade is refused as expired exactly when more seconds than the TTL in force have passed |
| `Cosign.TtlMeaning` | src/api/perps_cosign.rs:463-480 | the TTL in force lies between 300 and 86400 seconds, is the configured one if that does, and the default for 0 |
| `Cosign.PreparedWindow` | src/api/perps_cosign.rs:463-480 | a prepared trade is never refused as expired in its first 300 seconds and always after 86400 |
| `Cosign.PreparedStaysExpired` | src/api/perps_cosign.rs:853-857 | once a request on it was refused as expired, so is every request at that or a later second, whatever it carries |
| `Cosign.PreparedWindowInMilliseconds` | src/api/perps_cosign.rs:463-480 | the same in milliseconds, with the exact rounding at the end |
| `Cosign.RouteAccepts` | src/api/perps_cosign.rs:785-885 | an accepted bundle recovers to the frozen buyer and seller on the row's digest; over a stored bundle only that bundle is accepted |
| `Cosign.FirstAcceptedIff` | src/api/perps_cosign.rs:785-857 | with nothing stored exactly the unexpired requests that decode to a sound bundle are accepted |
| `Cosign.ReplayAcceptedIff` | src/api/perps_cosign.rs:853-885 | over a stored bundle exactly the unexpired requests that decode to that very bundle are accepted |
| `Cosign.ReplayRefusedAs` | src/api/perps_cosign.rs:859-885 | of the others, those equal to it up to case are malformed, which takes an `0X` prefix; the rest conflict |
| `Cosign.FirstBundleStays` | src/api/perps_cosign.rs:837-885 | for every sequence of requests, times and active versions, what is first stored is sound and never replaced |
| `Cosign.AfterKeeps` | src/api/routes.rs:16058-16077 | with overlapping requests every write stores a sound bundle |
| `Cosign.WriteReplacesIff` | src/api/routes.rs:16058-16077 | a write replaces a stored bundle exactly when its request is accepted and it read nothing and carries another bundle, or it replays a bundle replaced since it read |
| `Cosign.ReplacesIffUnseen` | src/api/routes.rs:16058-16077 | for a request acceptable alone with another bundle, that read nothing or what is still stored: its write replaces exactly when it read nothing |
| `Cosign.OverlapStaysSound` | src/api/routes.rs:16058-16077 | over every interleaving the stored bundle is sound |
| `Cosign.OverlapReplaces` | src/api/routes.rs:16058-16077 | any two acceptable requests with different bundles have an interleaving in which the second bundle replaces the first |
| `Cosign.StoredTradeSignatures.Upsert` | src/execution/perp_trade.rs:142-153 | which signatures are replaced, including the buyer's when the seller's is refused |
| `Cosign.TradeIntent.CosignTrade` | src/api/routes.rs:16004-16087 | only a pending or ready intent is cosigned, as one step of the sequence above; success leaves it ready, so that it is ready exactly when signatures are stored |
| `Retirement.RunKeepsConsistent` | src/api/routes.rs:16028-16087 | over every interleaving of cosign requests and retirements what is stored is sound |
| `Retirement.RetireExactly` | src/execution/intent.rs:47-56 | retiring abandons an intent exactly unless it is prepared, submitted, confirmed or failed |
| `Retirement.SettledStays` | src/db/repository.rs:1413-1463 | such an intent stays as it is through any cosigning and retiring, unless a request that saw it pending is under way |
| `Retirement.RetirementUndoneIff` | src/db/repository.rs:1413-1463 | some continuation brings an abandoned intent back exactly when a request in flight saw it pending and has verified, or is let through by what it loaded, or by what is or will be stored |
| `Retirement.QuietRetirementIsFinal` | src/execution/intent.rs:28-37 | with no request in flight that saw it pending an abandoned intent stays abandoned for ever |
| `Retirement.QuietRetirementFreezes` | src/bin/retire_execution_intent.rs:3-14 | with none in flight at all nothing is ever signed or changed again |
| `Retirement.OvertakenRevives` | src/api/routes.rs:16078-16087 | any acceptable request that is overtaken by a retirement makes the intent ready again and stores its signatures |
| `PriceQueue.QueueAt` | src/orderbook/book.rs:37-44 | the queue splits at any price into levels served before, that level, levels served after |
| `PriceQueue.PopServesFront` | src/orderbook/book.rs:284-290 | popping the front of the best level, and dropping an emptied level, removes the front of the queue |
| `PriceQueue.FirstPrice` | src/orderbook/book.rs:262-267 | finds the lowest ask or the highest bid |
| `OrderBook.MatchServesInOrder` | src/orderbook/book.rs:88-126 | price-time priority: the i-th trade is with the i-th order of the queue, at its price, which is at most a buyer's and at least a seller's limit, with buyer, seller, nonces and deadlines in place, each order filled before the next |
| `OrderBook.MatchTradesMost` | src/orderbook/book.rs:88-126 | on a sorted queue the volume is the taker's size or all the size its price reaches |
| `OrderBook.TakerTradesMost` | src/orderbook/book.rs:88-126 | the same for every valid side of the book |
| `OrderBook.TouchMatches` | src/orderbook/book.rs:269-296 | filling the front of the best level is one step of matching against the queue |
| `OrderBook.QueueSorted` | src/orderbook/book.rs:37-44 | the queue of a valid side is sorted by price |
| `OrderBook.RestInserts` | src/orderbook/book.rs:298-311 | a resting order stands behind all orders at its price or better and ahead of all worse |
| `OrderBook.CancelRemoves` | src/orderbook/book.rs:162-173 | cancelling removes the order from the queue and moves no other |
| `OrderBook.RemovedJoins` | src/orderbook/book.rs:162-173 | what stood before and after a removed order is joined in order |
| `OrderBook.NoSelfTrades` | src/orderbook/book.rs:235-251 | an order that passes the self-trade check trades with no order of its account |
| `OrderBook.RefusalExactly` | src/orderbook/book.rs:60-84 | a well-formed post-only order is refused exactly if some opposite price is at most (buy) or at least (sell) its own; a self-trade exactly if an order of its account rests at such a price; admitted is exactly the rest |
| `OrderBook.SubmitAccounts` | src/orderbook/book.rs:86-160 | the makers of a taker's trades are different opposite orders, each smaller afterwards by its trade and filled exactly when nothing is left; no other order changes; the taker's final size and status |
| `OrderBook.IntentNamesParties` | src/engine/state.rs:172-209 | buyer and seller are always right; orders and nonces go to the right party when the accounts differ; within one account the order ids are swapped exactly for a selling taker, nonces and maker flag exactly for a buying one; the earlier deadline counts |
| `OrderBook.Book.ApplyMakerFill` | src/orderbook/book.rs:269-296 | fills the front order, dropping it, its location and an emptied level when nothing is left; the book stays valid and uncrossed |
| `OrderBook.Book.MatchTaker` | src/orderbook/book.rs:88-126 | the loop trades exactly as against the opposite queue and leaves that queue's remainder; volume and remainder add up |
| `OrderBook.Book.Rest` | src/orderbook/book.rs:298-311 | inserts the order with time priority; the book stays valid and uncrossed |
| `OrderBook.Book.Settle` | src/orderbook/book.rs:128-153 | a remainder rests if good till cancelled and is cut off otherwise |
| `OrderBook.Book.Submit` | src/orderbook/book.rs:60-160 | admits exactly what the checks allow, in their order; refusals leave the levels alone, and the book valid unless they overwrite the record of an order resting elsewhere; an admitted order trades as against the queue, within its limit in numbers, never with its own account, not at all if post-only, and the report and the stored orders are those of `OrderBook.SubmitAccounts` |
| `OrderBook.OverwriteKeepsIff` | src/orderbook/book.rs:64-84 | recording an order under a resting id leaves the book valid exactly if it has size left at that id's side and price |
| `OrderBook.RestingTwiceBreaks` | src/orderbook/book.rs:298-311 | resting an id that already rests always makes the book invalid |
| `OrderBook.Book.Cancel` | src/orderbook/book.rs:162-181 | refuses exactly orders without a location; otherwise the order leaves its queue and everything else stays |
| `AlertFiles.WatchdogKeyInverts` | deploy/vps/discord_backup_alert.py:178-182 | the incident key is recovered from its file name |
| `AlertFiles.IdentifiedExactly` | deploy/vps/discord_backup_alert.py:169-174 | which file names a pending alert may be posted from: for a backup its own, for a watchdog any with 64 lower-case hexadecimal digits, for a probe none |
| `AlertFiles.RaisedIsIdentified` | deploy/vps/discord_backup_alert.py:222-230 | whatever an alert is queued under when it is raised, a retry may post it from there |
| `AlertFiles.JsonExactly` | deploy/vps/discord_backup_alert.py:163-163 | the files a retry lists are exactly those whose name ends in `.json` |
| `AlertFiles.FirstOnes` | deploy/vps/discord_backup_alert.py:163-163 | the first five of the sorted JSON names are exactly those with fewer than five JSON names before them |
| `AlertFiles.DeliveredExactly` | deploy/vps/discord_backup_alert.py:162-187 | if nothing fails, repeated retries deliver exactly the JSON files that are readable, belong to their alert and have fewer than five files before them that are not so |
| `AlertFiles.StarvingInput` | deploy/vps/discord_backup_alert.py:163-173 | five unreadable files before a backup alert: no retry ever takes the alert |
| `AlertOutbox.RemoveKeeps` | deploy/vps/discord_backup_alert.py:175-183 | removing a file right after its confirmed post keeps every queued alert on disk or posted |
| `AlertOutbox.MarkKeeps` | deploy/vps/discord_backup_alert.py:155-159 | the marker only ever names a posted incident |
| `AlertOutbox.SuppressKeeps` | deploy/vps/discord_backup_alert.py:213-217 | a suppression follows a confirmed post for its incident |
| `AlertOutbox.Host.PostAlert` | deploy/vps/discord_backup_alert.py:93-120 | true exactly when one of three attempts is confirmed and all before it were worth retrying |
| `AlertOutbox.DeliversExactly` | deploy/vps/discord_backup_alert.py:93-120 | a post succeeds exactly if an attempt within the tries is confirmed after retryable answers only |
| `AlertOutbox.Host.Queue` | deploy/vps/discord_backup_alert.py:129-136 | the file appears whole or not at all |
| `AlertOutbox.Host.MarkDelivered` | deploy/vps/discord_backup_alert.py:155-159 | writes only for the watchdog and the probe |
| `AlertOutbox.Host.Unlink` | deploy/vps/discord_backup_alert.py:183-183 | removes a file only right after its confirmed post |
| `AlertOutbox.Host.RetryOne` | deploy/vps/discord_backup_alert.py:166-186 | a file goes exactly when readable, identified, confirmed and not struck by a fault; all others stay |
| `AlertOutbox.Host.RetryAll` | deploy/vps/discord_backup_alert.py:162-187 | each path counts once; exactly the delivered ones are gone, and each of those was posted, confirmed, as it was on disk |
| `AlertOutbox.Host.Listing` | deploy/vps/discord_backup_alert.py:163-163 | exactly the JSON files with fewer than five JSON files before them by name, in order |
| `AlertOutbox.Host.RetryPendingFiles` | deploy/vps/discord_backup_alert.py:206-210 | without the credential nothing happens; only listed files go, each posted, confirmed; exit 0 exactly if all listed went and nothing died, death exactly if the process dies in it; if nothing fails exactly the deliverable ones go |
| `AlertOutbox.Host.Raise` | deploy/vps/discord_backup_alert.py:211-239 | success means suppressed for an incident already posted, or the pending alert (or else the raised one) posted now, no longer pending and marked if for the watchdog; otherwise every file stays, this alert's once queued; it dies exactly if the process does, and if nothing fails it succeeds exactly unless an unreadable file has its name |
| `AlertOutbox.Host.Invocations` | deploy/vps/discord_backup_alert.py:190-239 | any sequence of invocations, each dying or failing anywhere, keeps the log's guarantees and every unreadable file; a file behind five unreadable ones is never listed |
| `ExecutionAdmin.PhaseMachine` | src/hybrid_v2/execution/state.rs:121-174 | the phase graph has no cycles, terminal phases are those without successors, cancel is legal exactly from the five phases |
| `ExecutionAdmin.LineEdges` | src/hybrid_v2/execution/state.rs:121-174 | every edge of the matrix: the edges onto the ten phases of a successful execution are exactly its single steps, and exactly which phases can fail, go stale or fail simulation |
| `ExecutionAdmin.WalksTheLine` | src/hybrid_v2/execution/state.rs:121-174 | over every run a row is found further along those phases only after a write to each in between |
| `ExecutionAdmin.BroadcastNeedsBoth` | src/hybrid_v2/execution/orchestrator.rs:227-324 | so a row discovered first is ready for broadcast only after a successful simulation and a verified signature |
| `ExecutionAdmin.UpdateMeaning` | src/hybrid_v2/persistence.rs:4939-5093 | a writer wins exactly when the edge is legal, the row is in its from-phase and no set immutable column would change; then the whole patch is applied; immutable columns keep their value in any case, no other row changes, no phase moves without a win |
| `ExecutionAdmin.RefusalChangesIff` | src/hybrid_v2/persistence.rs:5072-5088 | a refused update has changed the row exactly in the in-memory store, when the signer key is the only immutable column that would change and another column gets a new value |
| `ExecutionAdmin.RefusalLeavesPart` | src/hybrid_v2/persistence.rs:5000-5088 | an update that is refused and leaves the signer identity set |
| `ExecutionAdmin.ImmutableForGood` | migrations/0050_hybrid_v2_signer_idempotency.sql:42-71 | through every continuation of every run, with either store, plan hash, calldata hash, calldata bytes and signer key keep their value once set |
| `ExecutionAdmin.ExecutionStore.UpdateExecutionPhase` | src/hybrid_v2/persistence.rs:4939-5093 | the in-place update computes that function |
| `ExecutionAdmin.RunKeeps` | src/api/hybrid_v2_execution_admin.rs:673-783 | the invariant of racing writers holds after every run |
| `ExecutionAdmin.SuccessfulCancel` | src/api/hybrid_v2_execution_admin.rs:699-783 | a successful cancel wrote over a cancellable phase of the row it named, in the deployment it named, and that row is Cancelled since |
| `ExecutionAdmin.RequestNames` | src/api/hybrid_v2_execution_admin.rs:673-708 | what a new cancel request named is what it is answered for, at every later point of the run |
| `ExecutionAdmin.CancelReadAnswers` | src/api/hybrid_v2_execution_admin.rs:699-747 | what a cancel is told at once: unknown row, wrong deployment or not cancellable, exactly when; else it has read the phase |
| `ExecutionAdmin.CancelWriteAnswers` | src/api/hybrid_v2_execution_admin.rs:748-783 | a pending cancel succeeds exactly if the row is still in the phase it read, leaving it cancelled with the operator's reason; else it reports a lost update and changes nothing |
| `ExecutionAdmin.CancelWinsNow` | src/api/hybrid_v2_execution_admin.rs:748-777 | the step that makes a cancel successful moves the row it named from the cancellable phase that row has at that step |
| `ExecutionAdmin.AtMostOneCancelSucceeds` | src/api/hybrid_v2_execution_admin.rs:748-777 | two requests that named one row and both succeeded are the same request |
| `ExecutionAdmin.RowsSettle` | src/hybrid_v2/execution/state.rs:121-174 | no row is advanced more than nine times, whatever races |
| `ExecutionAdmin.TerminalRowsFrozen` | src/hybrid_v2/execution/state.rs:105-113 | no step changes a terminal row |
| `ExecutionAdmin.PageIsSlice` | src/api/hybrid_v2_execution_admin.rs:632-648 | a page is the slice at its offset of the first 10,000 rows, overflow included |
| `ExecutionAdmin.PagesTile` | src/api/hybrid_v2_execution_admin.rs:632-648 | successive pages tile that prefix without gap or repeat |
| `Positions.QuantityExact` | src/api/trading_views.rs:218-230 | a word is accepted exactly when it is the sign-extended form of a non-zero int128 other than the minimum, and decodes to it |
| `Positions.ReadPositions` | src/api/trading_views.rs:160-234 | succeeds exactly when the reported ids, at most 128, all have open quantities; then one entry per id, in order, with its value |
| `Metrics.SafeLabelClasses` | src/monitoring.rs:1497-1507 | two values share a label exactly when they are equal or both become `other`, which exactly the unsafe ones and `other` itself do |
| `Metrics.Merge` | src/monitoring.rs:1360-1367 | each label carries the saturated sum of the counts it replaces |
| `Metrics.MergeConserves` | src/monitoring.rs:1360-1367 | the total is kept exactly when every merged label's sum fits u64, so always when the total does |
| `Metrics.MetricsText.Describe` | src/monitoring.rs:1415-1428 | HELP and TYPE once per name, as a pair |
| `Metrics.MetricsText.Gauge` | src/monitoring.rs:1342-1348 | description if new, then one sample |
| `Metrics.MetricsText.LabelledGauge` | src/monitoring.rs:1380-1413 | after the description, one sample per merged label set, sorted by labels, all labels safe |
| `Sorting.ListsUnique` | src/monitoring.rs:1397-1412 | a set has only one sorted listing, so the order of the samples is determined |
| `Metrics.MetricsText.LabeledGauges` | src/monitoring.rs:1350-1378 | samples only for exactly one dimension |
| `MetricsReader.TextReadsBack` | src/monitoring.rs:1342-1428 | a reader of the text format recovers exactly the lines written, for names of lower-case letters, digits and underscores, safe label values and one-line texts |
| `Metrics.ClassifyMeaning` | src/fees/perp_consumer.rs:38-73 | a consumer counts as new exactly if it names the configured current engine, as old exactly if it names the former and not the current one, up to case and padding, the zero address never |
| `Metrics.ZeroAddresses` | src/fees/perp_consumer.rs:67-73 | one or more zeros, alone or after `0x` or `0X`, are a zero address |
| `Metrics.ZeroAddressShape` | src/fees/perp_consumer.rs:67-73 | and nothing else is |
| `Metrics.BucketConsumers` | src/monitoring.rs:1135-1203 | always the three buckets, each with the saturated sum of its consumers; the total is kept whenever it fits u64 |

## Left out

- keccak256, SHA-256, ECDSA recovery, random generation and RFC 3339 printing: arbitrary functions or parameters.
- Rust's Unicode `to_lowercase`: modelled as ASCII lowercasing; the two differ only on addresses that are not ASCII.
- HTTP status codes, JSON shapes, SQL text, logging, and the enabled, chain and repository checks of the wallet routes.
- Database failures inside a transaction: the transaction then does not happen.
- `ChallengeStore.InMemoryChallengeStore.IssueChallenge`: the cap of 32 is for calls one after another; for racing ones `ChallengeCap` has the exact condition and the reached bound.
- Values of the clock near the 64-bit limits, where adding a time to live would overflow.
- `Cosign.TradeIntent.CosignTrade`: without interference; `Retirement` has the interleavings with retirement. The executor's and the broadcaster's writes of the status are not modelled.
- The typed-data JSON builders and calldata encoding.
- `AlertOutbox.Host.Invocations`: the alerts are delivered at least once, not exactly once; nothing here bounds repeats.
- `ExecutionAdmin.UpdateMeaning`: column values are texts, and columns that are never null may be absent here.
- `ExecutionAdmin.PageIsSlice`: the store's order is taken as fixed between pages; rows with equal update times have no fixed order in the source.
- `OrderBook.Book.Submit`: an id that is already resting is excluded for admitted orders, as the engine draws a new one for every order; `OrderBook.RestingTwiceBreaks` says what resting it again would do to the book. Trade times and market ids are dropped.
- Order book snapshots, RFQ, option matching, fees, indexing, reconciliation and broadcast: not part of this model.
