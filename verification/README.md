# Entros protocol core: a Dafny model

Three on-chain programs share an identity protocol. The registry holds the configuration (validator
keys, projection versions, fees) and a stake vault. The verifier checks zero-knowledge proofs and
stores their results. The anchor keeps one identity per wallet: a commitment that only an accepted
proof, or a validator-signed receipt, may replace, together with a Trust Score computed from a
52-slot activity ring.

The project models them as one transition system and proves what every run of it keeps.

| file | contents |
|---|---|
| `Bytes.dfy`, `Errors.dfy` | integers of fixed width, their byte encodings, slices, error codes |
| `Score.dfy` | the activity ring, weekly bins, integer square root and Trust Score |
| `ProofRequest.dfy` | canonical scalars, action and request encodings, digest, the counter account |
| `Receipts.dfy` | the Ed25519 instruction, the key policy, receipt layouts v1 to v4 |
| `Config.dfy` | the configuration as a record, and as raw bytes in five layouts |
| `Identities.dfy` | the identity record, its bytes, and layout growth |
| `Programs.dfy` | the transition system: one function per instruction, and whole runs |
| `Handlers.dfy` | the instructions as imperative handlers with rollback, refining the functions |
| `Requests.dfy` | the request-bound protocol over runs: consumable or dead, counters, at most once |
| `Policy.dfy` | validator keys, the version window, authority and single use of receipts over runs |
| `Reuse.dfy` | exactly when an update receipt can serve twice, and a run in which it does |
| `Provenance.dfy` | the proof and the signature behind every accepted update |
| `Outcomes.dfy` | exactly when each instruction succeeds and what it leaves, in terms of the state alone |
| `Lineage.dfy` | identities followed across wallets: chains, cooldowns, authorised moves, scores, conservation |
| `Attestation.dfy` | the whole past of a reachable identity: every link proved, every event signed |
| `Vault.dfy` | the stake vault |

How to read it. `Programs.Exec` gives one instruction's result, `Programs.Step` adds that a failing
instruction leaves no trace, and `Programs.Run` iterates it from any state. `Programs.Initial` is a
deployment just after `initialize_protocol`. `Programs.Effect` relates the states around a successful
instruction; invariants are proved over it. What is fixed for a run sits in `Programs.Env`: the build
(the `request-bound-v1` feature on or off), SHA-256, the Groth16 verifier, and the addresses derived
from a wallet, all uninterpreted. No property assumes the hash injective: where two different
preimages would have to share a digest, the lemma concludes that a collision is at hand. Token, rent
and fee calls are flags of an instruction, `tokens` and `paid`. The clock and the loader's programdata
account change by instructions of their own; the clock never moves backwards.

Where the code and its comments differ, the model follows the code:

- The comment at `programs/entros-anchor/src/lib.rs:71-75` says a repeat inside an active bin adds
  nothing to the score. That holds at the moment of the repeat only. Bins slide with the clock, so
  two verifications six days apart later fall in different bins while only the first is recorded:
  `Score.RingCanMissABin`. `Score.RingBinsExactly` says exactly when a bin is active, and
  `Score.RingAgainstHistory` that the loss is never more than one bin.
- The comment at `programs/entros-anchor/src/lib.rs:2813` says `saturating_sub` yields 0 for a past
  timestamp. On `i64` it is negative; the ring refuses such an entry all the same (`Bytes.SatSub`).
- The comment at `programs/entros-registry/src/lib.rs:142` says `update_protocol_config` resizes a
  grown account. The account is deserialised first, so every legacy layout is refused:
  `ConfigAccounts.ConfigAccount.UpdateProtocolConfig`.
- The comment at `programs/entros-anchor/src/lib.rs:1667-1669` calls a receipt single-use because
  the last verification time advances. It advances by whole seconds, and the comparison admits
  equality: `Reuse.ReceiptReusedExactly`.
- The comments at `programs/entros-registry/src/lib.rs:161` and
  `programs/entros-anchor/src/lib.rs:2422` name 113 and 551 bytes as the current layouts; the
  constants are 185 and 593.

Two properties hold only under a condition, which is proved exactly and shown necessary by an input:
an update receipt serves once unless it is used again within the second it was validated in
(`Reuse.ReceiptReusedExactly`), and a stake can be withdrawn unless what stays in the vault would be
below the rent-exempt minimum (`Vault.StakePayableExactly`).

## Model

| member | source | states |
|---|---|---|
| Requests.CurrentResultIsConsumable | programs/entros-anchor/src/lib.rs:801-905 | In every reachable state a stored bound result whose counter is its wallet's counter faces a live identity whose commitment is the proof's starting point, and the consumer's digest recomputed from that identity is the stored digest. |
| Requests.CurrentResultClaimable | programs/entros-anchor/src/lib.rs:836-905 | In every reachable state such a result passes all the consumer's checks on it if and only if it has not expired, and it expires within 300 seconds. |
| Requests.StaleResultIsRefused | programs/entros-anchor/src/lib.rs:842-856 | A result whose counter is not its wallet's counter is refused by every update, whatever else holds. |
| Requests.CounterFixesView | programs/entros-anchor/src/proof_request.rs:51-119 | Over any run counters never fall, and while a wallet's counter stands still the commitment, mint and projection a proof can see of it stay the same. |
| Requests.NoResultSurvivesRestoration | programs/entros-anchor/src/lib.rs:897-900 | If the identity a result was proved against has looked different at any moment of a run, the result is refused for good, even after the identity looks as it did before. |
| Requests.CounterCounts | programs/entros-anchor/src/lib.rs:1400-1427 | After any run a counter is its starting value plus the number of successful mints, updates, resets, rebaselines and migrations on that wallet; preparing it and everything else add nothing. |
| Requests.AtMostOneSpentPerCounter | programs/entros-anchor/src/lib.rs:852-900 | Of all results verified at one counter of one wallet, any run consumes at most one. |
| Requests.ResultsServeOnce | programs/entros-anchor/src/lib.rs:1014-1019 | Over any run of either build the updates that consumed a slot, and what it still holds, never outnumber the verifications that filled it: no verification is consumed twice. |
| Requests.RunOk | programs/entros-verifier/src/bound.rs:84-176 | The state invariant (configuration, identities at their own addresses, every stored result consumable or outdated) survives every run. |
| Provenance.UpdateWasProved | programs/entros-verifier/src/bound.rs:120-176 | Every accepted update of any run consumed a proof that a step of that run verified, for this wallet and nonce, at most 300 (bound) or 600 (earlier build) seconds before, on inputs whose first is the commitment stored, whose second is the one before it, and whose others are the two distances as numbers and, in the bound build, the halves of the digest of the request for the wallet, counter, mint and projection as they now stand. |
| Provenance.UpdateWasSigned | programs/entros-anchor/src/lib.rs:520-559 | Every accepted update of any run carried a receipt at most 300 seconds old whose digest was signed by a key that was primary within the last day. |
| Outcomes.UpdateExactly | programs/entros-anchor/src/lib.rs:724-1091 | An update succeeds if and only if: the build matches, the identity is the wallet's and its version within the window; the stored result is usable (its wallet, nonce, counter, times and digest); it leads from the present commitment to a different non-zero one, which is the expected one where one is named; the digest signed in front is that of a fresh, unused receipt for it; and count and age fit. Then every field of the state afterwards is as stated, the score by its plain arithmetic. |
| Outcomes.CurrentProofUpdates | programs/entros-anchor/src/lib.rs:836-905 | In every reachable state of the bound build an unexpired stored result whose counter is the wallet's, with a usable receipt, is accepted and its commitment stored, whatever ran since it was verified. |
| Outcomes.BoundExactly | programs/entros-verifier/src/bound.rs:48-177 | A bound verification succeeds if and only if its slot is free, its expiry and distances are in bounds, identity and counter exist as named, and the circuit accepts the proof on the six inputs of the request; it stores exactly that snapshot. |
| Outcomes.PlainExactly | programs/entros-verifier/src/lib.rs:161-205 | The earlier verification succeeds if and only if its slot is free, its two distances are in bounds as whole field elements, and the circuit accepts the proof; it stores what the inputs say and the present time. |
| Outcomes.MintExactly | programs/entros-anchor/src/lib.rs:1130-1379 | A mint succeeds if and only if the wallet has no identity, its counter can count, the window is in order and the message in front is a fresh mint receipt for it; it leaves exactly the new identity and one more count. |
| Outcomes.ResetExactly | programs/entros-anchor/src/lib.rs:1738-1890 | A reset succeeds if and only if 604800 seconds have passed since the last, the version asked for is the current one, the accounts are the right ones and the message in front is a fresh reset receipt; it leaves the commitment, no reputation and everything else as it was. |
| Outcomes.RebaselineExactly | programs/entros-anchor/src/lib.rs:1951-2085 | A rebaseline succeeds if and only if 604800 seconds have passed since the last, the identity's version is behind the current one asked for and the message in front is a fresh rebaseline receipt; it leaves the reputation as it was. |
| Outcomes.MigrateExactly | programs/entros-anchor/src/lib.rs:1399-1650 | A migration succeeds if and only if the new wallet is free and the one last named, both counters can count and the accounts are the right ones; it moves every reputation field and frees the old wallet. |
| Outcomes.ReachableReset | programs/entros-anchor/src/lib.rs:1802-1864 | In every reachable state any identity can be reset under those conditions alone: its owner and the window are never in the way. |
| Outcomes.ReachableRebaseline | programs/entros-anchor/src/lib.rs:2039-2064 | The same for a rebaseline. |
| Outcomes.ReachableMigrate | programs/entros-anchor/src/lib.rs:1404-1427 | The same for a migration. |
| Outcomes.VersionsExactly | programs/entros-registry/src/lib.rs:404-456 | The window is set if and only if the admin asks for an ordered pair no lower than the stored one; then exactly the versions between the two may update. |
| Outcomes.SmallExactly | programs/entros-anchor/src/lib.rs:1382-1395 | Closing removes exactly the wallet's own slot, preparing gives only an absent counter zero, authorising writes one field; when each succeeds. |
| Lineage.RunRecorded | programs/entros-anchor/src/lib.rs:1021-1056 | In every reachable state each identity stores what its whole life, followed through migrations, amounts to: commitment, version, times, count and score, with the bounded ring equal to the newest 52 entries of the unbounded gated log. |
| Lineage.CountIsUpdates | programs/entros-anchor/src/lib.rs:1022-1025 | The history a count stands for has as many entries as there were updates since the last mint or reset. |
| Lineage.CooldownsHold | programs/entros-anchor/src/lib.rs:1802-1814 | Any two resets of a life are at least 604800 seconds apart, and so are any two rebaselines. |
| Lineage.RebaselinesBounded | programs/entros-anchor/src/lib.rs:2039-2048 | A life has no more rebaselines than its version number, and its version never falls. |
| Attestation.ReachableIdentity | programs/entros-anchor/src/lib.rs:981-1027 | Every identity of every reachable state, wherever it has moved: its commitment is the end of an unbroken chain of links with 3 <= min_distance < threshold <= 96 and new != prev; each link is the claim of an update that consumed an accepted proof and a signed receipt; the chain starts at the last mint, reset or rebaseline, which carried a signed receipt; its count is its updates since the last mint or reset, and its rebaselines are bounded by its version, that by the protocol's. |
| Attestation.RunAttested | programs/entros-verifier/src/bound.rs:120-176 | Over any run, for every identity's whole life: each update consumed a proof that a step of the run verified on the claim's own inputs (in the bound build for a request naming the wallet, mint and version of the time, and unexpired), and each mint, update, reset and rebaseline was signed for, by a key primary in the day before, for exactly its wallet, commitment, purpose and version. |
| Lineage.ReachableCooldowns | programs/entros-anchor/src/lib.rs:2044-2048 | In every reachable state, across migrations, resets and rebaselines keep their distance and versions have only risen. |
| Lineage.ReachableRing | programs/entros-anchor/src/lib.rs:1029-1038 | In every reachable state the ring activates no bin the full verification history does not, has bin k or k + 1 for every history-active k up to 10, and holds at most one entry per bin. |
| Lineage.UpdateScores | programs/entros-anchor/src/lib.rs:1027-1056 | After any update of any run the stored score is the score of the complete log of the identity's life, in plain arithmetic, lies between min(max, inc) and min(max, 78 inc / 12 + 76), and exceeds the registry preview by at most 2 inc / 12 + inc / 12. |
| Lineage.MovesWereAuthorized | programs/entros-anchor/src/lib.rs:1567-1571 | In any life each move to a wallet that can sign goes to the wallet named by the last authorisation, made since the move before, so one authorisation serves one move and an older one serves none. |
| Lineage.ReachableMoves | programs/entros-anchor/src/lib.rs:1382-1395 | The same for every identity of every reachable state. |
| Lineage.IdentitiesAreMints | programs/entros-anchor/src/lib.rs:1567-1585 | Over any run there are exactly as many identities as successful mints: migration neither makes nor loses one. |
| Policy.WindowNeverFalls | programs/entros-registry/src/lib.rs:77-88 | Over any run minimum <= current, neither ever falls, the primary key is never zero, and the clock never runs back. |
| Policy.GraceKeyWasPrimary | programs/entros-registry/src/lib.rs:274-295 | In every reachable state a secondary key was the primary no earlier than a day before its window ends. |
| Policy.AcceptedKeyWasPrimary | programs/entros-anchor/src/lib.rs:181-194 | In every reachable state each key the receipt check accepts is one of at most two, not zero, and was the primary at some moment of the last 86400 seconds. |
| Policy.CutOverLasts | programs/entros-registry/src/lib.rs:204-215 | After a successful set_validator_pubkey, and along any run until the next successful key instruction, a key is accepted at any time if and only if it is the new one. |
| Policy.GraceEnds | programs/entros-registry/src/lib.rs:274-295 | After a successful rotation, and along any such run, a key is accepted at a time if and only if it is the new one, or the previous non-zero one, the grace is positive and the time is at most its end. |
| Policy.AdminWasHandedOver | programs/entros-registry/src/lib.rs:309-556 | Whenever the admin changes in any run, the new admin signed for it, and either it was the standing proposal of whoever was admin when it was proposed, or the loader's programdata account, as it then stood, names it as the upgrade authority. |
| Policy.BaselineWasSigned | programs/entros-anchor/src/lib.rs:449-476 | Every mint, reset and rebaseline of any run carried a message for exactly this wallet, commitment, purpose and version, at most 300 seconds old, signed by a key that was primary within the last day. |
| Policy.ReceiptUsedOnce | programs/entros-anchor/src/lib.rs:1009-1026 | A receipt validated before the update that consumed it is refused by every later update of that wallet until an identity migrates in. |
| Reuse.ReceiptReusedExactly | programs/entros-anchor/src/lib.rs:1009-1026 | A receipt once accepted is accepted again, while no identity migrates in, if and only if it was validated in the second it was first used, the identity has not been verified, reset or rebaselined in a later second, and every other check passes. |
| Reuse.ReceiptServesTwice | programs/entros-anchor/src/lib.rs:1009-1012 | A concrete run from a fresh deployment in which it is: within one second the commitment goes A, B, C and back to B, with the first update's receipt and signature serving the third. |
| Score.RecordVerification | programs/entros-anchor/src/lib.rs:83-92 | The in-place shift leaves the array equal to the gated insertion into the old contents. |
| Score.RingRefinesLog | programs/entros-anchor/src/lib.rs:83-92 | Writing the 52-slot ring of a log gives the 52-slot ring of the written, unbounded log. |
| Score.GatedSpaced | programs/entros-anchor/src/lib.rs:84-87 | The gated log of any non-decreasing times has its i-th and j-th entries at least j - i weeks apart. |
| Score.RingActivatesLogBins | programs/entros-anchor/src/lib.rs:1029-1038 | Every entry the ring has dropped lies outside the twelve bins: ring and full log activate the same bins. |
| Score.RingBinsDistinct | programs/entros-anchor/src/state.rs:21-25 | Two ring entries never fall in one bin. |
| Score.RingAgainstHistory | programs/entros-anchor/src/lib.rs:69-92 | Against the ungated history the ring activates no extra bin, and for an active bin k <= 10 has bin k or k + 1. |
| Score.RingCanMissABin | programs/entros-anchor/src/lib.rs:71-76 | A concrete history with an active bin the ring does not have. |
| Score.RingBinsExactly | programs/entros-anchor/src/lib.rs:84-91 | A bin is active in the ring if and only if some verification in it found the newest recorded entry absent or at least a week old. |
| Score.Isqrt | programs/entros-anchor/src/lib.rs:307-318 | For every u64 the Newton loop terminates, every intermediate sum fits u64, and the result r has r * r <= n < (r + 1) * (r + 1). |
| Score.RootUnique | programs/entros-registry/src/lib.rs:15-26 | That specification has one solution, so the two programs' copies compute the same number. |
| Score.ComputeTrustScore | programs/entros-registry/src/lib.rs:601-656 | The loops compute the Trust Score, said without them: the whole part of (12 - k) twelfths of the increment for every week k with an entry in it, four times the integer root of the whole days since creation, a year at most, and the ceiling; none exactly when the age overflows. Sums and the u16 cast lose nothing. |
| Score.ScoreUnique | programs/entros-anchor/src/lib.rs:1029-1056 | That arithmetic has one result, so the two programs' loops agree. |
| Score.NewWeekAdds | programs/entros-anchor/src/lib.rs:1040-1047 | Below the ceiling a newly used week k raises the score by exactly the q with 12 q <= inc (12 - k) < 12 q + 12. |
| Score.AgeBonusAlone | programs/entros-anchor/src/lib.rs:1049-1056 | With no week used the score is min(max, 4 r) for the integer root r of the whole days, 365 at most. |
| Score.RingScoreIsLogScore | programs/entros-anchor/src/lib.rs:1029-1056 | The score read off the ring is the score read off the complete gated log. |
| Score.TrustScoreBounds | programs/entros-anchor/src/lib.rs:1040-1056 | With the newest bin active the score is between min(max, inc) and min(max, 78 inc / 12 + 76). |
| Score.PreviewGap | programs/entros-registry/src/lib.rs:601-618 | The preview on the ten newest ring entries loses at most the two oldest bins' weights and never exceeds the full score. |
| ProofRequest.ModulusIsFieldOrder | crates/proof-request/src/lib.rs:11-14 | The 32 constant bytes are the order of the BN254 scalar field. |
| ProofRequest.CanonicalIffBelowOrder | crates/proof-request/src/lib.rs:22-24 | Comparing the arrays lexicographically is comparing the numbers with the field order, for every 32-byte value. |
| ProofRequest.Encode | crates/proof-request/src/lib.rs:39-62 | Filling the buffer slice by slice gives the concatenation of the fields, or nothing for exactly the refused actions. |
| ProofRequest.ActionBytesInjective | crates/proof-request/src/lib.rs:50-61 | Two actions with the same bytes are the same action. |
| ProofRequest.ActionOffsets | crates/proof-request/src/lib.rs:50-61 | Each field of the action at its offset, numbers big-endian, behind the literal domain. |
| ProofRequest.ComputeRequestDigest | crates/proof-request/src/lib.rs:64-83 | The digest is the hash of the 225-byte request holding the hash of the action. |
| ProofRequest.RequestOffsets | crates/proof-request/src/lib.rs:73-81 | Each part of the request at its offset, behind the literal domain. |
| ProofRequest.DigestExactly | crates/proof-request/src/lib.rs:39-49 | A request has a digest if and only if both commitments are non-zero below the field order, the distances are in order up to 256 and the expiry is not zero. |
| ProofRequest.DigestBindsRequest | crates/proof-request/src/lib.rs:64-83 | Two requests with one digest are one request, or exhibit a hash collision. |
| ProofRequest.DigestLimbs | crates/proof-request/src/lib.rs:84-89 | Both limbs are canonical, below 2^128, and recompose the digest. |
| ProofRequest.EncodeU16 | programs/entros-verifier/src/lib.rs:339-343 | The field element is numerically the value and decodes to it. |
| ProofRequest.DecodeU16Exact | programs/entros-verifier/src/lib.rs:319-324 | Decoding succeeds if and only if the whole field element fits sixteen bits, and gives the number the circuit sees. |
| ProofRequest.StateBytesRead | crates/proof-request/src/lib.rs:110-120 | A fresh counter account reads as its counter. |
| ProofRequest.CounterExactly | crates/proof-request/src/lib.rs:110-120 | The account reads as a counter if and only if it has 50 bytes with tag, generation, wallet and bump at their offsets, and then as the number at 41 to 49. |
| ProofRequest.CounterWrite | programs/entros-anchor/src/proof_request.rs:114-117 | Overwriting bytes 41 to 49 changes the counter and nothing the reader checks. |
| ProofRequest.CounterAccount.Advance | programs/entros-anchor/src/proof_request.rs:51-119 | Creates an absent counter at zero, adds exactly one, refuses overflow and foreign bytes. |
| ProofRequest.CounterAccount.Prepare | programs/entros-anchor/src/proof_request.rs:26-48 | Creates or claims a blank counter at zero and never changes an existing one. |
| Receipts.LoadedMessageWasSigned | programs/entros-anchor/src/lib.rs:385-447 | Whatever other instructions the transaction carries, a message the parser returns was signed by an accepted, non-zero key. |
| Receipts.LoadExactly | programs/entros-anchor/src/lib.rs:335-447 | The parser returns a message if and only if a primary key is configured and the header says so byte by byte: one signature, all three parts in this instruction, an allowed size, and a key that is the primary or the secondary still in time. |
| Receipts.AcceptedIffEncoded | programs/entros-anchor/src/lib.rs:601-683 | A message is accepted, with a given session, if and only if it is the v1, v2 or v3 encoding of the expected transition with a time in [now - 300, now]; v1 only for a version-zero mint, v3 tier at most 2. |
| Receipts.PayloadExactly | programs/entros-anchor/src/lib.rs:601-683 | On the bytes: a message is accepted if and only if its length, its literal domain, byte 28 (1 mint, 2 rebaseline, 3 reset, 4 update), version, wallet, commitment, time within 300 seconds and tier at most 2 are right; the session is the last 33 bytes of a 136-byte one. |
| Receipts.OneMessageOneTransition | programs/entros-anchor/src/lib.rs:601-683 | No message authorises two different wallets, commitments, purposes or versions, at any times. |
| Receipts.BuildV4Preimage | programs/entros-anchor/src/lib.rs:478-506 | Filling the 136-byte buffer gives the concatenation of the fields, or the error of the first bad argument. |
| Receipts.V4Offsets | programs/entros-anchor/src/lib.rs:494-505 | Each field of the preimage at its offset, byte 28 being 4, behind the literal domain. |
| Receipts.V4Injective | programs/entros-anchor/src/lib.rs:478-506 | The preimage binds wallet, commitment, version, time, tier and session, with no session distinct from every session. |
| Receipts.UpdateReceiptBinds | programs/entros-anchor/src/lib.rs:520-559 | A signed instruction accepted for two different updates exhibits a collision, and one accepted for an update is refused for every mint, rebaseline and reset. |
| ConfigAccounts.ConfigAccount.InitializeProtocol | programs/entros-registry/src/lib.rs:105-139 | Succeeds once, for a non-zero key only; the new account has the full length, decodes to the initial record, and both of the anchor's readers see its key and version zero. |
| ConfigAccounts.DecodeEncode | programs/entros-registry/src/state.rs:4-38 | Serialising a configuration and decoding it gives it back. |
| ConfigAccounts.ViewIsEverything | programs/entros-registry/src/state.rs:40-60 | Tag and record determine every byte of the account. |
| ConfigAccounts.SpliceFields | programs/entros-registry/src/lib.rs:204-215 | Writing one field's byte range changes that field of the record and no other. |
| ConfigAccounts.ReadersSeeView | programs/entros-anchor/src/lib.rs:196-254 | For every known length the anchor's raw readers answer from the record the zero-padded account stands for, so growth changes no answer. |
| ConfigAccounts.GrowthMovesProjectionReader | programs/entros-anchor/src/lib.rs:227-254 | For an arbitrary length growth changes the projection reader's answer if and only if the account ends inside the two version fields and the zero-filled versions are in order. |
| ConfigAccounts.ConfigAccount.SetValidatorPubkey | programs/entros-registry/src/lib.rs:173-223 | On each of five layouts the raw-byte instruction commutes with decoding: same error and no change, or the record machine's next record under the old tag. It succeeds if and only if the key is not zero and the admin's bytes match; then the key stands at 77, 145 to 185 are zero, every other byte is the grown account's, and the anchor reads the new key and no secondary. |
| ConfigAccounts.ConfigAccount.RotateValidatorPubkey | programs/entros-registry/src/lib.rs:227-306 | The same for rotation: exactly when it succeeds, and the key, the previous key and the deadline the anchor then reads. |
| ConfigAccounts.ConfigAccount.Propose | programs/entros-registry/src/lib.rs:309-351 | The same for proposing an authority, all bytes stated. |
| ConfigAccounts.ConfigAccount.Accept | programs/entros-registry/src/lib.rs:354-400 | The same for accepting it: if and only if the pending bytes are the signer's and not zero. |
| ConfigAccounts.ConfigAccount.SetProjectionVersions | programs/entros-registry/src/lib.rs:404-456 | The same for the version window: if and only if the admin asks for an ordered pair no lower than the stored bytes, and the anchor then reads that pair. |
| ConfigAccounts.ConfigAccount.MigrateAuthority | programs/entros-registry/src/lib.rs:496-556 | The same for recovery: if and only if the programdata bytes name the signer as upgrade authority. |
| ConfigAccounts.ConfigAccount.UpdateProtocolConfig | programs/entros-registry/src/lib.rs:143-156 | The same on the current layout, with the fee's bytes at 61; every legacy layout is refused unchanged. |
| Identities.ViewSerialize | programs/entros-anchor/src/state.rs:4-36 | Serialising an identity and reading it back gives it back, ring included. |
| Identities.RawReads | programs/entros-verifier/src/bound.rs:90-113 | The verifier's fixed offsets hold owner, commitment, mint, bump and projection. |
| Identities.FieldOffsets | programs/entros-anchor/src/state.rs:4-36 | Every field of the serialised identity, each ring slot included, at its offset. |
| Identities.GrowthKeepsRecord | programs/entros-anchor/src/proof_request.rs:131-177 | Growing any known layout keeps the record it stands for, and growing twice is growing once. |
| Identities.IdentityAccount.Grow | programs/entros-anchor/src/lib.rs:740-765 | Resizing zero-fills and keeps the record. |
| Identities.IdentityAccount.UpgradeLayout | programs/entros-anchor/src/proof_request.rs:131-177 | Succeeds if and only if the build is the bound one and the account is an authentic identity of this wallet in a 52-slot layout; then it grows keeping its record, otherwise it refuses with the build's or the account's error and changes nothing. |
| Handlers.Ledger.Execute | programs/entros-anchor/src/lib.rs:897-900 | Whatever a handler wrote before it failed, the counter included, one instruction with rollback is exactly one step of the transition system, with the same error; this covers every handler, those without a row of their own included. |
| Handlers.Ledger.ExecuteAll | programs/entros-anchor/src/lib.rs:1093-1127 | Executing a list of instructions is the run of that list. |
| Handlers.Ledger.TakeBound | programs/entros-anchor/src/lib.rs:801-905 | The interleaved checks answer as the specification does, and on success the counter has already moved by one. |
| Handlers.Ledger.Rewrite | programs/entros-anchor/src/lib.rs:1021-1056 | The in-place ring write and the scoring loops give the identity the specification gives. |
| Handlers.Ledger.CheckUpdateReceipt | programs/entros-anchor/src/lib.rs:520-559 | Comparing with the digest of the filled buffer is the specification's receipt check, errors included. |
| Handlers.Ledger.UpdateIdentity | programs/entros-anchor/src/lib.rs:724-1091 | The update with its early counter write and early close ends in the specified state or the specified error. |
| Handlers.Ledger.VerifyProofBound | programs/entros-verifier/src/bound.rs:48-177 | The bound verification stores the specified snapshot or returns the specified error. |
| Handlers.Ledger.CheckBoundProof | programs/entros-verifier/src/bound.rs:140-161 | The verifier is asked on the one list of six inputs that holds the new commitment, the one before, the two distances as numbers and the digest in two halves, in this order. |
| Handlers.Ledger.Advance | programs/entros-anchor/src/proof_request.rs:51-119 | The counter is created at zero when absent and then incremented, or the overflow is reported. |
| Handlers.Ledger.MintIdentity | programs/entros-anchor/src/lib.rs:1130-1379 | The mint, whose counter and account are written before the token calls, the policy and the receipt can fail and whose version is written only after its receipt, ends in the specified state or error. |
| Handlers.Ledger.MigrateIdentity | programs/entros-anchor/src/lib.rs:1399-1650 | The migration, with both counters written before the token calls and, in the earlier build, the new wallet checked only after them, carries every reputation field and ends in the specified state or error. |
| Vault.VaultConserves | programs/entros-registry/src/lib.rs:559-592 | Over any sequence of registrations, unstakings and gifts the vault holds exactly the recorded stakes plus the gifts, so it never lacks a recorded stake. |
| Vault.StakePayableExactly | programs/entros-registry/src/lib.rs:675-697 | In every reachable state unstaking pays in full if and only if the validator is registered and the other stakes plus the gifts are nothing or reach the runtime's rent-exempt minimum. |
| Vault.StakePayableBeside | programs/entros-registry/src/lib.rs:675-697 | So it does beside any other stake that reaches the minimum, and when nothing else is in the vault. |
| Vault.StakeHeldBack | programs/entros-registry/src/lib.rs:671-674 | Two concrete stakes of which one is refused because of the minimum. |
| Vault.StakeVault.RegisterValidator | programs/entros-registry/src/lib.rs:559-592 | Moves the stake in and records it, or changes nothing. |
| Vault.StakeVault.UnstakeValidator | programs/entros-registry/src/lib.rs:675-697 | Pays the recorded stake out and forgets it, or changes nothing. |

## Left out

- Token-2022, associated-token, metadata, mint-account and rent calls: library behaviour. Mint and
  migrate have one flag for the calls that make the token and one for the transfers, burn and close
  after it, the other instructions one flag; which call of a group fails is not modelled.
- Lamport balances other than the vault's, and `withdraw_treasury`. The rent-exempt minimum of the
  vault is a parameter; the runtime rule that enforces it is not in this repository.
- The pairing arithmetic of Groth16, SHA-256 and Ed25519: functions and predicates without
  properties.
- Address derivation and bump search: an identity, counter or result is keyed by its wallet and
  nonce; the mint and counter addresses and the bump of a wallet are arbitrary functions of it. Account ownership,
  discriminator and writability checks hold by construction in the transition system.
- Identities and configurations of older layouts inside the transition system: runs start from an
  empty deployment, and legacy layouts are covered at the byte level. Rings written before entries
  were gated are outside every ring property.
- `proof_hash` and `is_valid` of the earlier proof results: nothing reads them. The version byte of a
  bound result is always the current generation.
- `Challenge` accounts and `set_encrypted_baseline`: no proof or update reads them.
- Events, logs and compute budgets.
- ConfigAccounts.ConfigAccount.RotateValidatorPubkey: the growth that precedes the overflow check is
  undone by the runtime on failure, so the model checks first; growth's own rent transfer is not
  modelled.
- Score.ComputeTrustScore: one method stands for the two copies of the scoring loops, with 52 entries
  in the anchor and 10 in the registry.
