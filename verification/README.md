# Verified model of the Ouro Pass server core

Ouro Pass issues OAuth credentials to holders of Cardano stake: it reads the stake of an
account from a chain source, derives pool membership, issues codes, tokens and refresh
grants, keeps chat subscriptions alive while membership lasts, and broadcasts messages to
the subscribers. This project models the parts of the server (and of the tier editor in
its web front end) that carry protocol or arithmetic obligations, and proves them in Dafny.
`dafny verify dfyconfig.toml` checks everything.

How it is organised, by component:

- **Addresses and pool ids.** `Bits` and `Gf2` hold binary words and exclusive or as
  recursive functions on naturals; `ConvertBits` the regrouping loop over a wrapping 32-bit
  word; `Polymod` the checksum register of BIP-173 and its linear algebra, `Bch` the
  polynomial division over the field of 32 elements that it is; `Ascii` text and
  hexadecimal; `Bech32` the printer and parser, `Bech32Vector` a test string of the
  standard; `StakeAddress` CIP-19 reward addresses and the byte-string head of section 3.1
  of RFC 8949; `PoolId` and `Membership` the canonical spelling and the state derived from a
  snapshot.
- **Credentials.** `RefreshGrants` is the rotation protocol as a state machine whose steps
  are single SQL statements (one transaction for rotate-and-mint); `GrantRepo` the table
  class and the refresh endpoint that performs those steps. `OneTime` treats nonces,
  authorization codes and activation codes; `Timestamps` the text order in which the store
  compares times. `MemberRevocation` puts the administrator's cascade among all other
  requests, `RevocationRaces` among requests already under way.
- **Subscriptions.** `Reconciliation` is the grace and expiry machine and its pass,
  `EpochCursor` the loop that triggers passes.
- **Membership facts.** `Epochs`, `StakeHistory`, `MembershipCache` (one lookup) and
  `CacheRuns` (interleaved lookups with the shared fetch).
- **Eligibility.** `Names` and `Attestors` (facts and their aggregate, over `SetSum`), `Tier`
  (the rule language), `RuleMeaning` (what its conditions mean), `PoolFacts` (from snapshots
  through facts to tiers), `Decimal` (with `Powers`), `TierEditor` (the editor's flat view and
  the way back) and `EditorLosses` (what gets lost on it).
- **Controllers.** `Supervisor` (one worker per channel instance), `Push` (the delivery of one
  broadcast) and `PushWorker` (the job table and its worker).

Code that updates state step by step is a class or a loop whose contract ties it to a
specification function; the theorems are lemmas about those functions and about runs of
the state machines.

Some results say where the code does not do what its own documentation or a first reading
suggests; each comes with the input and with the exact condition:

- The shared fetch of the membership cache: `CacheRuns.AnswersAreFreshIff` says answers are
  of the epoch of their lookup exactly if nobody joins a fetch that was answered in an
  earlier one; `CacheRuns.JoinedFetchServesStale` is the run that does.
- The comment at `server/internal/utils/chain/epoch.go:24-29` says an unknown epoch can never
  cause a stale hit. `CacheRuns.StaleIffBeforeGenesis`: apart from late joiners it can,
  exactly when the local clock starts before genesis.
- Replay of a spent refresh token: `RefreshGrants.ReplayStartsWalkIff` and
  `GrantRepo.ReplayStopsIff` say that it stops the family exactly while nothing has written
  over the spent grant's status; `RefreshGrants.OverwrittenReplayDoesNothing` is the case.
- The rule editor: `EditorLosses` and `TierEditor.ThresholdIff` say which conditions change
  when they are saved unedited.
- `Timestamps.StoredOrder` and `OneTime.SweepEarlyIff`: when the store orders two times of
  one second the wrong way round, and which nonces the sweep therefore removes early.
- The same order of times in the job table: `PushWorker.DueAtIff` and `ListedEarly`.
- A revocation: `RevocationRaces.RaceIff` says exactly which writes already under way leave a
  token or a session active; for sessions a listing read before they were cancelled is enough.
- `Attestors.TotalExact` and `Attestors.RepresentativeIsMaxIff`: what the aggregate says when
  one pool is configured twice.

The functions of the Go library that look beyond ASCII (`strings.ToLower`, `ToUpper`,
`TrimSpace`) are a parameter, `Ascii.Library`: it is required to be the ASCII function on
ASCII text and to map bytes to bytes, and the results hold whatever it does elsewhere.
`PoolId.CanonicalIdempotent` names three more facts it needs (`PoolId.Regular`).

## Model

| member | source | states |
|---|---|---|
| ConvertBits.Convert | server/internal/utils/chain/stakeaddr.go:94-115 | The accumulator loop over a 32-bit word that wraps around spells the same bit string as its input, up to zero bits at the end; without padding it fails exactly when the leftover is non-zero or as long as an input element. |
| ConvertBits.BytesSurvive | server/internal/utils/chain/stakeaddr.go:94-115 | 8 to 5 bits with padding and then 5 to 8 without is the identity on every byte sequence. |
| ConvertBits.SymbolsSurvive | server/internal/utils/chain/stakeaddr.go:94-115 | Every 5-bit sequence that 5 to 8 accepts is recovered exactly by 8 to 5. |
| ConvertBits.FromToSymbols | server/internal/utils/chain/stakeaddr.go:94-115 | The symbol form of a byte string determines it. |
| Polymod.Polymod | server/internal/utils/chain/stakeaddr.go:55-68 | The two nested loops compute the register `Run`; `Bch.RunIsRemainder` says which number that is. |
| Bch.RunIsRemainder | server/internal/utils/chain/stakeaddr.go:55-68 | Over the field of 32 elements the register after a message of any length is the remainder of the polynomial with the coefficients of the register before it and then the message, modulo the generator polynomial of BIP-173, coefficients 1, 29, 22, 20, 21, 29, 18. |
| Bch.RemainderUnique | server/internal/utils/chain/stakeaddr.go:55-68 | That remainder is unique, so the register is determined by the polynomial alone. |
| Bch.ValidIff | server/internal/utils/chain/rewardaddr.go:74-78 | The parser's test: the register ends in 1 if and only if the polynomial of the symbols behind a leading 1 leaves the remainder 1. |
| Bch.GeneratorWords | server/internal/utils/chain/stakeaddr.go:56 | The five constants: the first is the generator polynomial without its leading term, and each next one is the one before it, multiplied symbol by symbol by the field element 2. |
| Bech32Vector.KnownAnswer | server/internal/utils/chain/rewardaddr.go:58-80 | BIP-173's test string A12UEL5L parses to the prefix a and no data. |
| Polymod.StepLinear | server/internal/utils/chain/stakeaddr.go:55-68 | One round of the register is linear over GF(2) in the register and the symbol together. |
| Polymod.RunLinear | server/internal/utils/chain/stakeaddr.go:55-68 | The register of a disturbed message is the register of the message plus that of the disturbance. |
| Polymod.StepKernel | server/internal/utils/chain/stakeaddr.go:55-68 | Shifting in a zero symbol never sends a non-zero 30-bit register to zero: the five generators are independent in their low five bits. |
| Polymod.StepInjective | server/internal/utils/chain/stakeaddr.go:55-68 | No two 30-bit registers become equal on the same symbol. |
| Polymod.OneChangeShows | server/internal/utils/chain/stakeaddr.go:55-68 | Changing any one symbol of a message of any length changes the final register. |
| Polymod.BurstShows | server/internal/utils/chain/stakeaddr.go:55-68 | So does replacing any stretch of at most six consecutive symbols in any way. |
| Polymod.SixSymbolsFit | server/internal/utils/chain/stakeaddr.go:55-68 | Up to six symbols read from the zero register stand in it bit for bit as they went in. |
| Polymod.TrailingSymbols | server/internal/utils/chain/stakeaddr.go:55-91 | Six trailing symbols add exactly their own bits to what six zeros leave; this is why the checksum can be read off. |
| Bech32.TablesAreCharset | server/internal/utils/chain/stakeaddr.go:15 | The symbol lookup and its inverse are the charset constant and its index search. |
| Bech32Vector.KnownSpelling | server/internal/utils/chain/stakeaddr.go:15 | The values 0 to 31 are spelled by the alphabet of BIP-173, and read back from it. |
| Bech32.ExpandHrp | server/internal/utils/chain/stakeaddr.go:70-80 | The expanded prefix: high three bits of every character, a zero, low five bits of every character. |
| Bech32.ExpandExact | server/internal/utils/chain/stakeaddr.go:70-80 | The two halves put together are the characters, so the expansion determines the prefix. |
| Bech32.ComputeChecksum | server/internal/utils/chain/stakeaddr.go:82-91 | The six symbols cut by shift and mask from the register spell its 30 bits. |
| Bech32.ChecksumUnique | server/internal/utils/chain/stakeaddr.go:82-91 | Six trailing symbols bring the register to 1 if and only if they are the computed checksum. |
| Bech32.PrintBech32 | server/internal/utils/chain/stakeaddr.go:44-53 | The printer loop yields prefix, separator and the charset spelling of data and checksum. |
| Bech32.ParseBech32 | server/internal/utils/chain/rewardaddr.go:58-80 | The parser, with its errors in the source's order: mixed case, no separator, bad character, bad checksum. |
| Bech32.ParseBody | server/internal/utils/chain/rewardaddr.go:68-80 | The symbol loop stops at the first character outside the charset and otherwise collects every symbol; the last six are dropped after the checksum test. |
| Bech32.DecodeExact | server/internal/utils/chain/rewardaddr.go:58-80 | The accepted strings are exactly the printed ones, in all lower or all upper case, with a non-empty prefix: re-encoding an accepted string gives its lower case. |
| Bech32.PrintParse | server/internal/utils/chain/stakeaddr.go:44-91 | Printing with any non-empty lower-case ASCII prefix and parsing again returns prefix and data. |
| Bech32.OneErrorRejected | server/internal/utils/chain/rewardaddr.go:58-80 | At any length, a text whose lower-case form differs from that of an accepted one in a single data or checksum character, replaced by another charset character, is rejected. |
| Bech32.OneCharacterRejected | server/internal/utils/chain/rewardaddr.go:58-80 | In particular replacing one such character of an accepted ASCII text, in either letter case. |
| Bech32.BurstRejected | server/internal/utils/chain/rewardaddr.go:58-80 | At any length, replacing a stretch of at most six data or checksum characters by any other charset characters makes an accepted text one that is rejected. |
| Bech32.RefusedBecause | server/internal/utils/chain/rewardaddr.go:58-73 | Mixed case, a missing separator and a character outside the charset are each reported exactly when they are the first thing wrong. |
| StakeAddress.StakeAddressFromCredential | server/internal/utils/chain/stakeaddr.go:20-42 | Only hex of exactly 28 bytes is accepted; the result is the printed header byte and credential under the network's prefix. |
| StakeAddress.PrintedForm | server/internal/utils/chain/stakeaddr.go:20-42 | Exactly the hex of 28 bytes is printed; the parser reads back the prefix stake on mainnet and stake_test elsewhere, and a payload of type 14, network 1 on mainnet and 0 elsewhere, and the credential. |
| StakeAddress.UnwrapWrapped | server/internal/utils/chain/rewardaddr.go:86-110 | Stripping undoes each of the three byte-string heads for every payload they can announce. |
| StakeAddress.UnwrapExact | server/internal/utils/chain/rewardaddr.go:86-110 | Exactly three byte-string heads are stripped, by their first byte, each only if it announces the bytes that follow. |
| StakeAddress.RawHexRecovered | server/internal/utils/chain/rewardaddr.go:16-54 | From raw hex, in either case and with blanks around, the 28-byte credential comes back. |
| StakeAddress.WrappedHexRecovered | server/internal/utils/chain/rewardaddr.go:16-110 | The same from hex of the CBOR-wrapped bytes. |
| StakeAddress.Bech32Recovered | server/internal/utils/chain/rewardaddr.go:16-54 | The same from the bech32 text of any key or script reward address with either prefix, in either case and with blanks around. |
| StakeAddress.PrintedRecovered | server/internal/utils/chain/rewardaddr.go:16-54 | In particular from the text the issuer prints. |
| StakeAddress.AddressRoundTrip | server/internal/utils/chain/rewardaddr.go:16-54 | Printing a credential's address and reading it returns the credential on every network. |
| StakeAddress.HexTakenIff | server/internal/utils/chain/rewardaddr.go:16-54 | Of unwrapped hex exactly 29 bytes with 14 or 15 in the first high nibble are taken; another length and another header are each refused as such. |
| StakeAddress.Refusals | server/internal/utils/chain/rewardaddr.go:16-54 | Blank text, text that is neither hex nor begins with stake, and other prefixes are refused as such; whatever is accepted names 28 bytes. |
| PoolId.CanonicalIdempotent | server/internal/utils/chain/poolid.go:14-26 | Canonicalising twice is canonicalising once, for every text. |
| PoolId.CanonicalOfName | server/internal/utils/chain/poolid.go:14-26 | Hex and bech32 spellings of a 28-byte hash, in any case and with blanks, have one canonical text. |
| PoolId.PoolTextInjective | server/internal/utils/chain/poolid.go:14-26 | Distinct hashes have distinct canonical texts. |
| PoolId.SamePoolIff | server/internal/utils/chain/poolid.go:14-26 | Two spellings agree after canonicalisation if and only if they name one pool. |
| PoolId.NamesIff | server/internal/utils/chain/poolid.go:14-26 | The canonical form of a pool's name is shared by exactly the names of that pool, whatever the other text is. |
| PoolId.CanonicalForm | server/internal/utils/chain/poolid.go:14-26 | The hex of 28 bytes becomes text that parses to the prefix pool and those bytes; anything else its lower case. |
| Membership.SpellingDoesNotMatter | server/internal/core/membership/state.go:39-61 | A pool configured as hex and as bech32 derives the same state from every snapshot. |
| Membership.ActiveIffSamePool | server/internal/core/membership/state.go:39-61 | A snapshot makes its holder active if and only if its active pool is the configured one. |
| Membership.PendingIffDelegating | server/internal/core/membership/state.go:39-61 | Without active stake the state is pending exactly for a registered account delegating to this pool. |
| Membership.DeriveStateExact | server/internal/core/membership/state.go:39-61 | The state for every snapshot: active if its active pool names the configured one; otherwise, active elsewhere or not, pending if the account is registered and delegates to it; otherwise none. |
| Membership.DeriveStateByPools | server/internal/core/membership/state.go:39-61 | The same by the pools the fields name: active stake at one pool and live delegation to another is active with the first and pending with the second. |
| Membership.BlankIsNonMember | server/internal/core/membership/state.go:40-50 | Without a snapshot or with a blank pool id nobody is a member. |
| RefreshGrants.NeverReactivated | server/internal/store/repo_refreshgrant.go:60-97 | No statement brings a grant back to active or changes what it was rotated from. |
| RefreshGrants.RunKeeps | server/internal/store/repo_refreshgrant.go:60-133 | Over every interleaving of mints, rotations, expiry writes, revocations, cascades and chain walks: at most one successor per grant, a grant with a successor is not active, and no walk has missed a child of a grant it has finished with. |
| RefreshGrants.FamilyIsPath | server/internal/core/oauth/token.go:138-157 | Of two grants of one rotation family one descends from the other: a family is a path. |
| RefreshGrants.AtMostOneActive | server/internal/core/oauth/token.go:138-157 | A family has at most one active grant. |
| RefreshGrants.RunNeverReactivates | server/internal/core/oauth/token.go:287-295 | A grant that is not active stays so over every run. |
| RefreshGrants.FinishedReachesAll | server/internal/store/repo_refreshgrant.go:101-133 | When a walk ends, whatever ran between its statements, every grant reachable from its start has been revoked by it. |
| RefreshGrants.WalkStopsFamily | server/internal/store/repo_refreshgrant.go:101-133 | After a walk has ended, no member of the whole family of its start, older or newer, is active in any later state. |
| RefreshGrants.RotatedUntilOverwritten | server/internal/store/repo_refreshgrant.go:60-97 | In every run a spent grant keeps the status that gives a replay away exactly until some statement writes over it. |
| RefreshGrants.ReplayStartsWalkIff | server/internal/core/oauth/token.go:72-81 | In every run, presenting a spent grant starts the chain walk if and only if nothing has written over its status since it was spent; otherwise it changes nothing. |
| RefreshGrants.OverwrittenReplayDoesNothing | server/internal/core/oauth/introspect.go:72-73 | The input that fails: a spent grant revoked by itself, or written expired by a slower request (token.go:82-84), is presented again without effect and its successor stays active. |
| RefreshGrants.ReplayStopsFamily | server/internal/core/oauth/token.go:72-81 | Presenting a grant that is still rotated: from when the walk has ended no member of its whole family is active in any later state. |
| RefreshGrants.NoRefreshAfterReplay | server/internal/core/oauth/token.go:72-81 | Hence no member of that family can be refreshed again. |
| RefreshGrants.EveryRun | server/internal/store/repo_refreshgrant.go:60-133 | Every run from the empty table: families are paths with at most one active grant, and none at all once a walk from one of their grants has ended. |
| RefreshGrants.FamilySharesBinding | server/internal/core/oauth/token.go:138-157 | Over every run all grants of one family belong to one credential, client and device: no rotation drops or changes the binding. |
| GrantRepo.Grants.Update | server/internal/store/repo_refreshgrant.go:60-67 | The unguarded status write touches that row's status only. |
| GrantRepo.Grants.RotateIfActive | server/internal/store/repo_refreshgrant.go:73-85 | True exactly for the caller that found the grant active; otherwise nothing changes. |
| GrantRepo.Grants.RevokeByStake | server/internal/store/repo_refreshgrant.go:89-97 | Revokes all grants of one credential and no other row, and counts those that were not revoked yet. |
| GrantRepo.Grants.RevokeChain | server/internal/store/repo_refreshgrant.go:101-133 | Run alone the worklist terminates and leaves exactly the start and its descendants revoked, every other row as it was. |
| GrantRepo.Grants.TokenRefresh | server/internal/core/oauth/token.go:66-162 | The endpoint's answer and its whole effect on the table: replay revokes the chain and an overdue grant is written expired unless that ignored write fails, and failure inside the transaction rolls the rotation back. |
| GrantRepo.RefreshSpends | server/internal/core/oauth/token.go:66-162 | A refresh that hands out a token rotates the grant, whose only child is then the new active one, for the same credential. |
| GrantRepo.PossessionRequired | server/internal/core/oauth/token.go:88-134 | A live grant bound to a device is refused without that device's key, a confidential one without its client or with a wrong secret, and the table then stays as it was; with them the answer is decided by eligibility, signer and mint. |
| GrantRepo.OverdueRefused | server/internal/core/oauth/token.go:82-85 | An overdue grant is refused whatever else the request shows, and is written expired if that write succeeds. |
| GrantRepo.DeadRefused | server/internal/core/oauth/token.go:67-81 | An unknown or inactive grant is refused; only presenting a rotated one changes the table. |
| GrantRepo.SuccessorStaysBound | server/internal/core/oauth/token.go:138-157 | The successor has the credential, client type, client and device of the grant it replaces. |
| GrantRepo.ReplayKillsSuccessor | server/internal/core/oauth/token.go:72-81 | Presenting a spent token again right away is refused and, if the revocation can be written, makes the successor it was traded for unusable. |
| GrantRepo.ReplayStopsIff | server/internal/core/oauth/token.go:72-81 | In any table, presenting a grant that is no longer active leaves its family without an active member if and only if its status is still rotated and the revocation can be written, or no member was active before. |
| GrantRepo.OverwrittenReplayKeepsSuccessor | server/internal/core/oauth/introspect.go:72-73 | After a write over the spent grant's status, presenting it changes nothing and the successor stays active. |
| GrantRepo.RefreshIsStep | server/internal/core/oauth/token.go:138-157 | A successful refresh by one caller is one step of the interleaved system. |
| Timestamps.StoredOrder | server/internal/store/sqlhelpers.go:34 | Two stored instants compare as text in time order, except exactly when they share a second and the earlier fraction begins the later one; then they compare reversed. |
| Timestamps.WholeSecondSortsLast | server/internal/store/sqlhelpers.go:34 | The reversed inputs at their simplest: a whole second sorts after every later instant within it. |
| Timestamps.FractionInjective | server/internal/store/sqlhelpers.go:34 | Distinct nanosecond counts are written differently after trailing zeros are trimmed. |
| Timestamps.ApartInOrder | server/internal/store/sqlhelpers.go:34 | Fractions of which neither begins the other compare as numbers do. |
| Timestamps.ExtensionReversed | server/internal/store/sqlhelpers.go:34 | A fraction that extends another is later in time and earlier in the store. |
| Timestamps.KnownSuffixes | server/internal/store/sqlhelpers.go:34 | How fractions are written: none for a whole second, a point and one digit for tenths. |
| OneTime.AtMostOneWinner | server/internal/store/repo_authnonce.go:31-89 | For any number of consumers interleaved between read and guarded write, sweep included, at most one succeeds, and a loser of the race lost to it or to the sweep. |
| OneTime.RedeemedOnce | server/internal/store/repo_authorizationcode.go:29-77 | A redemption succeeds exactly on a row that is there, unconsumed, not past its expiry and acceptable, and none succeeds after it. |
| OneTime.SweepEarlyIff | server/internal/store/repo_authnonce.go:27-37 | The sweep removes an unexpired nonce if and only if it expires later in the same second and its written fraction extends that of the sweep's clock; nothing with a full second left goes. |
| OneTime.SweepTakesLiveNonce | server/internal/store/repo_authnonce.go:27-37 | Such nonces: swept on the second, with any part of that second left. |
| OneTime.Nonces.Consume | server/internal/store/repo_authnonce.go:41-89 | Success exactly for a present, unconsumed, unexpired nonce of the right purpose; then only its consumption time changes; each error has its own condition. |
| OneTime.Nonces.DeleteExpired | server/internal/store/repo_authnonce.go:31-37 | Keeps exactly the nonces not stored before the clock, among them all that expire in a later second, and counts the others. |
| OneTime.AuthCodes.Consume | server/internal/store/repo_authorizationcode.go:29-77 | Success exactly for a present, unconsumed, unexpired code; then only its consumption time changes. |
| OneTime.Activations.Consume | server/internal/store/repo_activationcode.go:32-86 | Success exactly for a live code bound to this channel type and, when both are named, this instance; a code of another instance is refused unspent. |
| Reconciliation.Reconciler.Reconcile | server/internal/worker/reconciliation/reconciliation.go:115-176 | A pass gives every listed session its own turn whatever fails for the others, leaves all other rows alone, counts each session under its own outcome, and warns exactly the sessions that enter grace. |
| Reconciliation.CountsAddUp | server/internal/worker/reconciliation/reconciliation.go:90-97 | The counts add up to the sessions listed, and the grace count to the warnings sent. |
| Reconciliation.CountsExact | server/internal/worker/reconciliation/reconciliation.go:115-176 | Each count is the number of listed sessions whose turn ended that way, and exactly those that entered grace are warned. |
| Reconciliation.OutcomeMeans | server/internal/worker/reconciliation/reconciliation.go:121-174 | What an outcome says about the row: expired, in grace for the first time, kept, or unchanged because the check or the write failed. |
| Reconciliation.OthersUntouched | server/internal/worker/reconciliation/reconciliation.go:115-119 | A pass adds and removes no row and touches only active sessions of its pool. |
| Reconciliation.Reconciler.Turn | server/internal/worker/reconciliation/reconciliation.go:121-174 | One session's turn in all its branches: a failed check or write changes nothing. |
| Reconciliation.RunTracks | server/internal/worker/reconciliation/reconciliation.go:115-176 | After every run of turns on a non-decreasing clock the row is what the history determines: not in grace, in grace with the deadline of the first loss since the last renewal, or expired with a reason. |
| Reconciliation.ExpiresByTime | server/internal/worker/reconciliation/reconciliation.go:115-176 | A session is expired after a run if and only if some recorded loss came at least five days after another with no renewal between, however many passes there were and whatever failed. |
| Reconciliation.ExpiredIff | server/internal/worker/reconciliation/reconciliation.go:129-172 | The same in full: two recorded losses five days apart with no recorded renewal between them. |
| Reconciliation.LastRenewalDecides | server/internal/worker/reconciliation/reconciliation.go:129-145 | After any run the row carries tier and time of the last recorded renewal and is valid for thirty days from it; right after it no deadline is pending. |
| Reconciliation.UnrenewedKeeps | server/internal/worker/reconciliation/reconciliation.go:115-176 | No run changes whose subscription it is, and none without a recorded renewal its tier, last verification or validity. |
| Reconciliation.DeadlineFixed | server/internal/worker/reconciliation/reconciliation.go:148-166 | Without a renewal the pending deadline never moves. |
| Reconciliation.OneWarningPerGrace | server/internal/worker/reconciliation/reconciliation.go:148-160 | Between two grace entries, and so between two warnings, lies a recorded renewal. |
| EpochCursor.Watcher.PollOnce | server/internal/worker/reconciliation/reconciliation.go:181-233 | A poll triggers a pass exactly if some readable network is above its cursor, and moves the cursors to what it read exactly if that pass succeeds. |
| EpochCursor.PollExact | server/internal/worker/reconciliation/reconciliation.go:181-233 | A pass runs exactly if the networks could be listed and one was read at a later epoch than the cursor holds; the cursor takes over everything read, and nothing if the pass failed. |
| EpochCursor.CursorComesFrom | server/internal/worker/reconciliation/reconciliation.go:181-233 | A cursor always holds what some successful poll read. |
| EpochCursor.CursorRises | server/internal/worker/reconciliation/reconciliation.go:181-233 | If readings never fall, no cursor ever falls. |
| EpochCursor.CursorFallsIff | server/internal/worker/reconciliation/reconciliation.go:181-233 | Without that assumption a poll lowers some cursor exactly when its pass succeeds and it read a lower epoch there. |
| EpochCursor.UnprocessedAdvanceTriggers | server/internal/worker/reconciliation/reconciliation.go:181-233 | An advance that no successful poll has read yet triggers a pass on every poll that reads it. |
| EpochCursor.SuccessesBounded | server/internal/worker/reconciliation/reconciliation.go:181-233 | The number of successful passes is at most the sum over networks of the highest epoch read. |
| Epochs.StartThenEpoch | server/internal/utils/chain/epoch.go:30-51 | The start of an epoch lies in that epoch, for all epochs whose start fits a 64-bit time. |
| Epochs.EpochThenStart | server/internal/utils/chain/epoch.go:30-51 | Every instant lies between the start of its epoch and one epoch length later. |
| Epochs.KnownEpochs | server/internal/utils/chain/epoch.go:17-51 | The instants that fix the clocks: mainnet epoch 208 begins 1596059091 and is preceded by 207; the first epochs of preview and preprod. |
| Epochs.ClockExactly | server/internal/utils/chain/epoch.go:30-43 | There is no epoch exactly on other networks and before genesis. |
| StakeHistory.LatestStakeEntry | server/internal/utils/chain/koios.go:125-134 | The loop returns a row of highest epoch, absent only for no rows. |
| StakeHistory.TrailingActiveEpochs | server/internal/utils/chain/koios.go:139-160 | The two loops count the run of epochs with the pool downwards from the latest, epoch 0 included. |
| StakeHistory.CountDown | server/internal/utils/chain/koios.go:150-159 | The downward loop alone, for any map of epochs. |
| StakeHistory.OrderIrrelevant | server/internal/utils/chain/koios.go:100-160 | For rows with distinct epochs and non-empty pools the whole snapshot is independent of row order. |
| StakeHistory.LatestIsFirst | server/internal/utils/chain/koios.go:125-134 | Where epochs repeat, the first row of the highest epoch is the latest. |
| StakeHistory.LastRowCounts | server/internal/utils/chain/koios.go:139-160 | And for the run the last row of each epoch counts. |
| StakeHistory.DelegatedIsMaximalRun | server/internal/utils/chain/koios.go:100-160 | The run length counts exactly the epochs, ending with the latest, without a gap with the latest pool: each of them is a row and the one before is not. |
| StakeHistory.StateFromChain | server/internal/utils/chain/koios.go:100-136 | From the rows to the state: active with the pool of the row of highest epoch, wherever the account delegates now; otherwise pending with the pool that a registered account delegates to. |
| StakeHistory.StateWithoutHistory | server/internal/utils/chain/koios.go:100-122 | Without a history nobody is active. |
| StakeHistory.SnapshotFields | server/internal/utils/chain/koios.go:100-122 | The live delegation is kept exactly for registered accounts; rewards, status and epoch are taken over. |
| StakeHistory.MemberSinceIff | server/internal/core/attestor/poolstake.go:105-115 | The attested date is the start of the run's first epoch if and only if the snapshot epoch is that of the latest row. |
| StakeHistory.NoRunNoDate | server/internal/core/attestor/poolstake.go:105-115 | Without an active run, or on a network without a clock, no date is attested. |
| MembershipCache.CachedSource.Snapshot | server/internal/core/membership/cachedsource.go:66-96 | What a lookup answers and what it leaves in the cache, in every combination of hit, fetch of its own or joined, failed origin, failed write and inactive answer; other rows are untouched. |
| MembershipCache.ServedFromRow | server/internal/core/membership/cachedsource.go:101-131 | A stored answer is served with all its facts, as of a registered account that delegates where it is active. |
| MembershipCache.StoredHitsIff | server/internal/core/membership/cachedsource.go:66-96 | A written answer is served exactly at clocks of the epoch it was stored in, or without a clock then, of the epoch it is of; one without active stake never. |
| CacheRuns.RunKeeps | server/internal/core/membership/cachedsource.go:66-131 | Over every interleaving of lookups, clock, shared fetches and failed reads and writes, whatever is in the cache, under way or handed out was said by the origin in some epoch that has begun. |
| CacheRuns.RowsAreActive | server/internal/core/membership/cachedsource.go:84-94 | Over every run, what is in the cache always says active: an inactive answer removes the row. |
| CacheRuns.TimelyIffNoneLate | server/internal/core/membership/cachedsource.go:66-96 | Every answer was given in or after the epoch its lookup began in if and only if no answered lookup had joined a shared fetch answered in an earlier epoch than its own. |
| CacheRuns.LateIsDoomed | server/internal/core/membership/cachedsource.go:73-95 | A lookup that joins such a fetch is bound to an answer older than its own epoch. |
| CacheRuns.AnswersAreFreshIff | server/internal/core/membership/cachedsource.go:66-131 | Without such a late joiner every answer carries the origin's active facts of an epoch between the lookup's start and now; and, when the facts differ from epoch to epoch, only then. |
| CacheRuns.AnswersAreExact | server/internal/core/membership/cachedsource.go:66-131 | Without a late joiner a lookup that crosses no epoch boundary answers with the origin's pool, amount and run length. |
| CacheRuns.JoinedFetchServesStale | server/internal/core/membership/cachedsource.go:73-95 | The failing run, for every network with an epoch clock and every two epochs: a fetch joined late labels the row with the later epoch, and a lookup entirely inside it is answered with the facts of the earlier one. |
| MembershipCache.HitState | server/internal/core/membership/cachedsource.go:101-131 | For any live answer with the same epoch-stable facts as the one the row was stored from: the hit derives active exactly if the live answer does, and differs from it exactly where the live one is pending, where it gives none. |
| CacheRuns.AnswerState | server/internal/core/membership/state.go:39-61 | Without a late joiner, what a lookup within one epoch returns derives active for a pool exactly if any live answer of that epoch does. |
| CacheRuns.HitStateInRun | server/internal/core/membership/cachedsource.go:66-131 | In such a run a hit differs from any live answer of the epoch exactly where that one is pending, and gives none there. |
| MembershipCache.UnknownNetworkNeverHits | server/internal/core/membership/cachedsource.go:66-72 | Without an epoch clock nothing is served from the cache. |
| CacheRuns.ClockBeforeGenesisServesStale | server/internal/utils/chain/epoch.go:24-40 | The run that contradicts the comment there, for every known network and every clock before genesis: a row labelled 0 is served in epoch 0 with other facts. |
| CacheRuns.StaleIffBeforeGenesis | server/internal/utils/chain/epoch.go:24-40 | Late joiners aside, some run serves a stale answer if and only if the network has an epoch clock and the local clock starts before its genesis. |
| Names.SuffixIff | server/internal/core/attestor/set.go:77-99 | The suffix tests on fact names read off exactly the part after the last dot. |
| Attestors.KeyInjective | server/internal/core/attestor/poolstake.go:100 | A pool fact's name determines the pool and the fact. |
| Attestors.Evaluate | server/internal/core/attestor/set.go:55-74 | Fails exactly if some attestor fails; otherwise the merged facts with the three aggregates. |
| Attestors.FindActive | server/internal/core/attestor/set.go:77-84 | In whatever order the map is walked, found exactly if some state fact says active. |
| Attestors.SumActiveStake | server/internal/core/attestor/set.go:88-99 | In whatever order the map is walked, the sum of all stake facts that read as numbers. |
| Attestors.AnyActiveIff | server/internal/core/attestor/set.go:55-84 | For any list, duplicates included: the flag holds if and only if the last attestation of some pool is active. |
| Attestors.TotalIsSum | server/internal/core/attestor/set.go:88-99 | With distinct pools the total is the sum of the active amounts. |
| Attestors.TotalExact | server/internal/core/attestor/set.go:88-99 | For any list the total is the sum of the active amounts less those that a later attestation of the same pool replaces. |
| Attestors.RepresentativeIsMaxIff | server/internal/core/oauth/oauth.go:184-192 | For any list the representative state is the maximum of the attested states if and only if, when some attestation is active, an active one is the last of its pool. |
| Attestors.RepresentativeIsMax | server/internal/core/oauth/oauth.go:184-192 | With distinct pools it always is. |
| Attestors.AnyActiveMeans | server/internal/core/attestor/poolstake.go:55-95 | For attestors of different pools, each with its network's snapshot: the aggregate says active if and only if some snapshot's active pool is the one configured beside it, in whatever spelling. |
| PoolFacts.FactsMean | server/internal/core/attestor/poolstake.go:55-95 | With different pools, the merged facts about each are those of its own snapshot, in exactly these cases: its state; its active stake, if it is the active pool; the number of epochs, if positive. |
| PoolFacts.NoOtherFacts | server/internal/core/attestor/poolstake.go:55-95 | No facts are published about other pools or under other names. |
| PoolFacts.FactKeys | server/internal/core/attestor/poolstake.go:100 | The names of the facts. |
| PoolFacts.AggregateMeans | server/internal/core/attestor/set.go:55-99 | any_held, any_active and total_active_stake say whether some snapshot makes its holder active or pending, whether one makes it active, and the sum of the active stake that the snapshots credit to the configured pools. |
| PoolFacts.RepresentativeMeans | server/internal/core/oauth/oauth.go:184-192 | The reported state is active if some snapshot makes its holder active, else pending if one makes it pending, else none. |
| PoolFacts.StakeLadder | server/internal/core/oauth/oauth.go:207-248 | From the chain to the tier: a ladder of rules over the total stake gives the tier of the highest threshold that the stake with the configured pools reaches. |
| Attestors.OrderDoesNotMatter | server/internal/core/attestor/set.go:55-74 | With distinct pools the whole aggregate depends only on which attestations there are. |
| Attestors.SamePoolTwice | server/internal/core/attestor/poolstake.go:55-100 | Why distinctness is needed: an active and an inactive attestation of one pool aggregate to pending, with the first one's amount left. |
| Tier.FirstMatchDecides | server/internal/core/tier/tier.go:38-49 | The tier is that of the first rule whose condition holds, empty if none does. |
| RuleMeaning.OrderingsMean | server/internal/core/tier/tier.go:138-162 | For all integers the four orderings of their texts are the orderings of the numbers. |
| RuleMeaning.BlankIsZero | server/internal/core/tier/tier.go:138-169 | A missing or empty fact compares as 0. |
| RuleMeaning.NoNumberNoOrder | server/internal/core/tier/tier.go:138-162 | No ordering holds of a text that is no number, on either side. |
| RuleMeaning.EqualityIsTextual | server/internal/core/tier/tier.go:138-143 | Equality and inequality compare texts; any other operator never holds. |
| RuleMeaning.NumberForms | server/internal/core/tier/tier.go:145-147 | A number is digits with at most one sign before them, and has the value they spell. |
| RuleMeaning.FormsMean | server/internal/core/tier/tier.go:72-94 | What all, any, not, a test and the empty condition mean, over any number of parts. |
| RuleMeaning.DeMorgan | server/internal/core/tier/tier.go:72-94 | Both laws of De Morgan hold, for lists with a part. |
| RuleMeaning.LadderTier | server/internal/core/tier/tier.go:38-49 | A ladder of falling thresholds gives the tier of the highest one that the fact reaches, and none below the lowest. |
| Tier.Validate | server/internal/core/tier/tier.go:97-133 | The recursive check with its forms counter accepts exactly the conditions with at most one form at every level, operators only with facts, and known operators. |
| RuleMeaning.ValidIff | server/internal/core/tier/tier.go:97-133 | The accepted conditions, form by form. |
| Tier.ValidateRules | server/internal/core/tier/tier.go:53-70 | Reports the first rule that lacks a tier or has an invalid condition, and nothing exactly if there is none. |
| Tier.OneForm | server/internal/core/tier/tier.go:97-133 | In a validated condition each form excludes the other three. |
| Decimal.LovelaceSurvives | web/src/features/eligibility/TierRulesSection.tsx:54-67 | At every magnitude a whole number of lovelace survives the trip through ADA. |
| Decimal.AdaIsMillions | web/src/features/eligibility/TierRulesSection.tsx:54-61 | An amount typed in ADA is worth a million lovelace each, every further digit after the point a tenth of the one before it. |
| Decimal.NoAmountKept | web/src/features/eligibility/TierRulesSection.tsx:54-61 | With no digit or more than six after the point the text is left as typed. |
| Decimal.NoDigitsKept | web/src/features/eligibility/TierRulesSection.tsx:54-67 | So is, both ways, a text with another character than digits and a point. |
| Decimal.LovelaceInAda | web/src/features/eligibility/TierRulesSection.tsx:62-67 | Lovelace are shown as whole ADA and the rest without its last zeros. |
| Decimal.RoundTripIff | web/src/features/eligibility/TierRulesSection.tsx:54-67 | A stored threshold comes back unchanged if and only if it has no blanks around it, no leading zeros and no decimal point that reads as ADA. |
| TierEditor.ThresholdIff | web/src/features/eligibility/TierRulesSection.tsx:54-67 | A stake threshold means the same after the trip, for every fact value, if and only if its text comes back unchanged or, for the four orderings, it merely has leading zeros or is a non-number with blanks around it. |
| PoolFacts.EditorKnowsFacts | web/src/features/eligibility/TierRulesSection.tsx:35-41 | The editor gives each published fact its type, so stake amounts and nothing else are shown in ADA. |
| TierEditor.FlattenKeepsMeaning | web/src/features/eligibility/TierRulesSection.tsx:118-146 | Flattening a safe condition and writing it back keeps its value for all facts. |
| TierEditor.HiddenFormIsLost | web/src/features/eligibility/TierRulesSection.tsx:118-146 | A form with an empty list beside it is shown as an empty builder and saved as no condition at all. |
| EditorLosses.EmptyBuilderIff | web/src/features/eligibility/TierRulesSection.tsx:118-135 | The editor shows a condition that has a form as an empty builder if and only if an empty list stands beside that form. |
| EditorLosses.HiddenKeptIff | web/src/features/eligibility/TierRulesSection.tsx:118-146 | What is saved for it differs for a subject if and only if the condition did not hold of it; it is kept exactly if it held of everybody. |
| EditorLosses.HiddenFactChanges | web/src/features/eligibility/TierRulesSection.tsx:118-146 | A hidden fact always changes: some subject did not match and does now. |
| EditorLosses.HiddenAnyChanges | web/src/features/eligibility/TierRulesSection.tsx:118-146 | So does a hidden list of alternatives over different facts. |
| EditorLosses.LeafKeptIff | web/src/features/eligibility/TierRulesSection.tsx:118-146 | A condition that is a single test keeps its meaning for all facts if and only if its threshold is one the ADA conversion keeps. |
| EditorLosses.ListKeptIff | web/src/features/eligibility/TierRulesSection.tsx:118-146 | A flat list over different facts keeps its meaning if and only if every threshold does, or it is an `all` that nobody could match before and nobody can match after. |
| EditorLosses.AdvancedKept | web/src/features/eligibility/TierRulesSection.tsx:118-161 | A condition too deep for the builder comes back unchanged. |
| EditorLosses.OneRuleIff | web/src/features/eligibility/TierRulesSection.tsx:148-161 | A rule alone keeps every subject's tier if and only if its condition is kept. |
| EditorLosses.TiersKept | web/src/features/eligibility/TierRulesSection.tsx:148-161 | A list of rules whose conditions are all kept gives every subject the same tier. |
| TierEditor.EditorKeepsTiers | web/src/features/eligibility/TierRulesSection.tsx:118-161 | For every list of safe rules, evaluation after opening and saving in the editor gives the same tier for all facts. |
| Supervisor.Controller.Reconcile | server/internal/worker/telegram/supervisor.go:84-118 | One tick, failed listing included, is one step of the controller. |
| Supervisor.Controller.StopStale | server/internal/worker/telegram/supervisor.go:89-97 | Cancels and drops exactly the workers no longer wanted or with another fingerprint. |
| Supervisor.Controller.StartMissing | server/internal/worker/telegram/supervisor.go:98-117 | Starts exactly the wanted instances that do not run and can be built. |
| Supervisor.Controller.Shutdown | server/internal/worker/telegram/supervisor.go:52-67 | Every worker ever started is cancelled. |
| Supervisor.NoLeakNoDouble | server/internal/worker/telegram/supervisor.go:52-118 | Over every run of ticks each started and uncancelled worker is in the running map, and no instance has two. |
| Supervisor.TickConverges | server/internal/worker/telegram/supervisor.go:84-118 | After a successful listing only wanted instances run, with current fingerprints, lacking only those the factory failed; changed ones were cancelled. |
| Supervisor.FingerprintIff | server/internal/worker/telegram/supervisor.go:122-124 | Two rows have one fingerprint if and only if status and update time are the same. |
| Supervisor.ChangeRestarts | server/internal/worker/telegram/supervisor.go:84-118 | A running instance whose status or update time changed has its worker cancelled and, if it builds, a new one started; otherwise the worker goes on. |
| Supervisor.UnlistedStops | server/internal/worker/telegram/supervisor.go:89-97 | An instance no longer listed is stopped. |
| Supervisor.DesiredExact | server/internal/worker/telegram/supervisor.go:71-82 | What is wanted is exactly what is listed, each instance by its last row. |
| Supervisor.UnchangedListingIsNoOp | server/internal/worker/telegram/supervisor.go:84-118 | Once converged, a tick with the same listing starts and stops nothing. |
| Supervisor.OneGoodTickConverges | server/internal/worker/telegram/supervisor.go:84-118 | One tick in which everything builds reaches that point from any state. |
| Push.Deliver | server/internal/worker/push/push.go:155-171 | The tries are the channel's replies up to the first success, the first interrupted wait or the last attempt allowed; none if the limiter refused; the count and the verdict agree with them. |
| Push.DeliverAll | server/internal/worker/push/push.go:112-140 | Sent counts the candidates that took the message, Sent + Failed the matching candidates dealt with, and the sends are exactly those tries in order. |
| Push.RecipientsExact | server/internal/worker/push/push.go:99-140 | A job that gets through its listing tries to reach exactly the active subscribers of its instance, or of its pool and channel type, that have the tier, an entitlement and a topic it asks for. |
| Push.TriesExact | server/internal/worker/push/push.go:155-171 | Uninterrupted, a delivery makes exactly the tries up to the first success or the limit. |
| Push.StoppedShort | server/internal/worker/push/push.go:155-171 | A wait cut short ends the delivery, and a refused limiter prevents it. |
| Push.TriesAreOneLog | server/internal/worker/push/push.go:112-140 | All tries of one subscriber are the log of its own candidate. |
| Push.ScopedJobStaysInside | server/internal/worker/push/push.go:99-140 | A job scoped to an instance reaches only its subscribers, each with at most the allowed tries and at most one success. |
| Push.FailedIffNobodyGotIt | server/internal/worker/push/push.go:142-149 | A job that got through its candidates ends failed exactly when somebody was to receive it and no send succeeded, and done otherwise. |
| PushWorker.DueAtIff | server/internal/store/repo_pushjob.go:84-87 | When the listing takes a job to be due: never in a second before its own, and before its time exactly if both are in one second and the clock's written fraction begins the job's. |
| PushWorker.ListedEarly | server/internal/store/repo_pushjob.go:84-87 | Jobs listed early: on the second, by any part of that second before their time. |
| PushWorker.ListingExact | server/internal/store/repo_pushjob.go:84-87 | A listing has at most the worker's fifty jobs, and if fewer, all that are scheduled and due in the store's order. |
| PushWorker.StartedOnce | server/internal/worker/push/worker.go:31-56 | Over any interleaving of job creation with the worker's steps, failed writes and shutdowns included, each job starts sending at most once, and only after a listing that took it to be due in the store's order of times. |
| PushWorker.SentOnce | server/internal/worker/push/push.go:81-171 | Over the whole run of the worker each subscriber gets at most the allowed tries of each job and none after a success, so at most one success per job, and a job scoped to an instance is sent to nobody else. |
| PushWorker.DispatchesReach | server/internal/worker/push/push.go:112-140 | The delivery loop is a series of the run's dispatch steps. |
| PushWorker.Worker.RunJob | server/internal/worker/push/push.go:81-150 | The job's status after every course of events, and what was sent; a failed first write sends nothing; and the whole is a run of the worker's steps. |
| PushWorker.Worker.Drain | server/internal/worker/push/worker.go:42-51 | A round over the oldest due jobs begins, in that order, exactly those whose mark could be written, leaves other jobs alone, and is a run of the worker's steps. |
| MemberRevocation.Admin.RevokeMember | server/internal/httpapi/handlers_admin_resources.go:239-262 | The four writes in order, stopping at the first that fails, with the numbers of rows affected; if it completes, everything of the member is barred. |
| MemberRevocation.Admin.Execute | server/internal/httpapi/handlers_admin_resources.go:241-261 | Each statement changes exactly the rows it counts. |
| MemberRevocation.CascadeIsLocal | server/internal/httpapi/handlers_admin_resources.go:239-262 | Complete or not, a revocation changes only the member's own rows. |
| MemberRevocation.CascadeExact | server/internal/httpapi/handlers_admin_resources.go:239-262 | What a completed revocation leaves of every row: denied, tokens inactive, grants revoked, active sessions cancelled, ended ones as they were. |
| MemberRevocation.DeniedIsRefused | server/internal/core/oauth/oauth.go:168-179 | Once denied, a credential is refused in authorize, code exchange, refresh, activation request and activation, and gains no token or session. |
| MemberRevocation.RequestKeepsBar | server/internal/core/oauth/token.go:66-199 | No request or reconcile pass undoes any part of a revocation, finished or half-way. |
| MemberRevocation.StatementAdvances | server/internal/httpapi/handlers_admin_resources.go:239-262 | The next statement in order adds its part; statements of other revocations take nothing away. |
| MemberRevocation.BarHolds | server/internal/httpapi/handlers_admin_resources.go:239-262 | With any requests between the four statements, what has been written so far stays in force. |
| MemberRevocation.RevocationIsFinal | server/internal/core/oauth/introspect.go:24-55 | After a completed revocation, in every later run of requests and passes that are single steps, no token of the member introspects active, no session is active, and whatever is asked for the member is refused. |
| MemberRevocation.IntrospectionExact | server/internal/core/oauth/introspect.go:45-50 | Over every run a token introspects active exactly until it expires or it, or all tokens of its holder, are revoked: nothing else ends it and nothing brings it back. |
| MemberRevocation.ExchangeGranted | server/internal/core/oauth/token.go:165-199 | A code is traded exactly if it is live, presented by its client with its redirect, its credential is known not to be denied and a member, and both rows can be written; the token then introspects active until it expires. |
| MemberRevocation.TokenWithoutGrant | server/internal/core/oauth/token.go:188-198 | If the second of the two rows cannot be written the first stays. |
| MemberRevocation.RefreshGranted | server/internal/core/oauth/token.go:66-162 | The same for a refresh, with the grant live and in time and what it is bound to shown. |
| MemberRevocation.ActivateGranted | server/internal/worker/telegram/telegram.go:106-146 | A session is opened exactly for a live code bound to this bot of a credential that passes the gate; an old row for the same user keeps its pool and takes everything else. |
| MemberRevocation.CodesGranted | server/internal/core/oauth/oauth.go:115-153 | Authorization and activation codes are handed out exactly to credentials that pass the gate. |
| MemberRevocation.CancelExact | server/internal/worker/telegram/telegram.go:166-180 | Cancelling one session and cancelling those of a channel: which rows change and how. |
| MemberRevocation.RevokeExact | server/internal/core/oauth/introspect.go:60-77 | Revoking a token or a grant touches that row alone. |
| MemberRevocation.PassAfterDenial | server/internal/worker/reconciliation/reconciliation.go:115-176 | A pass treats a denied credential as lost, five days of grace included, and changes nothing while the deny-list cannot be read. |
| RevocationRaces.RaceIff | server/internal/httpapi/handlers_admin_resources.go:239-262 | With exchange, refresh, activation and pass split at their gates: at some point a token of the member is active after the tokens were revoked, or a session after the sessions were cancelled, if and only if a write that had been under way lands after that statement -- for a session, from a gate or from a listing read before the cancellation. |
| RevocationRaces.StrayGateWasFirst | server/internal/core/oauth/token.go:164-199 | Such a token, and such a session of an activation, comes from a gate passed before the first statement of the revocation. |
| RevocationRaces.LateExchange | server/internal/core/oauth/token.go:181-198 | The run for a token: an exchange past its gate lands after the whole revocation. |
| RevocationRaces.LateGraceEntry | server/internal/worker/reconciliation/reconciliation.go:116-160 | The run for a session: a pass listed it before the revocation, learns after it that membership is lost, and writing the grace deadline makes the row active again. |

## Left out

- HTTP routing, cookies, rate limits, pages, the rest of the web front end and the wallet script: plumbing.
- Network calls to the chain source and to Telegram, and JSON decoding: their outcomes are parameters (a value or an error).
- Signatures, hashing, encryption and tokens as strings: hashes of presented tokens are the keys of the tables, verification outcomes are parameters, and random identifiers are taken to be new.
- SQL engines and isolation levels: a table is a map, a statement one step, a transaction one step; rows that fail to parse are not modelled.
- The calendar part of a stored timestamp: taken as fixed-width and in time order; only the fraction is spelled out.
- The Unicode tables behind letter case and blanks: a parameter, as said above.
- The parser does not limit the length of the text or the characters of the prefix as BIP-173 does; the model follows the code, so the theorems hold at any length.
- Errors in bech32 text that are spread over more than six consecutive characters.
- Signing-key rotation, administrator roles, configuration, idempotency keys and the remaining tables: only easy properties.
- Goroutines: started and cancelled workers are ghost sets, and a cancelled worker is taken to stop.
- JSON null members and unknown members of a tier rule.
- CacheRuns.AnswersAreFreshIff: a run is that of one credential on one network in one server process, with a clock that does not go back, an origin whose active facts do not change within an epoch, and, except in `CacheRuns.StaleIffBeforeGenesis`, a start at or after genesis.
- Reconciliation.Reconciler.Reconcile: the row is not guarded between listing and write, so a pass is taken as atomic against other writers of the same session; the clock is assumed not to go back.
- MemberRevocation.RevocationIsFinal: every request is one step; what requests and passes already under way can still write is the subject of `RevocationRaces`.
- RevocationRaces.RaceIff: the one statement that consumes a code is part of the step up to the gate, and the two inserts of an exchange are one step; a refused refresh writes nothing there.
- MemberRevocation.Admin.RevokeMember: the step-up signature and the audit entry are not modelled.
- GrantRepo.Grants.TokenRefresh: the access token that accompanies a new grant is in `MemberRevocation`, not here.
- RefreshGrants.RunKeeps: a chain walk whose transaction fails is not a run of its own; it leaves nothing behind, like a walk that never began.
- EditorLosses.ListKeptIff: lists that test one fact twice, and whole rule lists in which an earlier rule masks a changed one, have no condition short of comparing the two evaluations.
- PushWorker.Worker.Drain: the delivery log is represented by the list of tries.
- StakeHistory.OrderIrrelevant: rows with equal epochs or empty pools, where order does matter, are not characterised.
