/** The three programs as one transition system. A state holds the clock, the protocol
    configuration, the identities, the request counters and the stored proof results; an
    instruction either yields the next state or an error, and an error changes nothing. */
module Programs {
  import opened Bytes
  import opened Errors
  import opened Score
  import opened Receipts
  import opened ProofRequest
  import opened Identities
  import Config

  const RESET_COOLDOWN_SECS: i64 := 604_800
  const REBASELINE_COOLDOWN_SECS: i64 := 604_800
  const MAX_PROOF_AGE_SECS: i64 := 600
  const MAX_THRESHOLD: u16 := 96
  const MIN_DISTANCE_FLOOR: u16 := 3

  /** What is fixed for a whole run: the build (`bound`: the request-bound feature), the deployment,
      and the functions the model leaves uninterpreted. */
  datatype Env = Env(
    bound: bool,
    deployment: Key,
    verifierId: Key,
    anchorId: Key,
    hash: Hash,
    identityPda: Key -> Key,
    mintPda: Key -> Key,
    bumpOf: Key -> byte,
    counterPda: Key -> Key,
    sysvar: Key,
    proves: (seq<byte>, seq<Key>) -> bool)

  /** A request-bound proof result. */
  datatype BoundResult = BoundResult(
    wallet: Key, nonce: Key, commitmentNew: Key, commitmentPrev: Key, threshold: u16, minDistance: u16,
    counter: u64, validUntil: u64, verifiedAt: i64, digest: Key)

  /** A proof result of the earlier build. */
  datatype PlainResult = PlainResult(
    verifier: Key, nonce: Key, verifiedAt: i64, commitmentNew: Key, commitmentPrev: Key,
    threshold: u16, minDistance: u16)

  /** A result account is addressed by the wallet that verified and the nonce it chose. */
  type Slot = (Key, Key)

  /** `programData` is the account in which the loader keeps the registry's upgrade authority. */
  datatype World = World(
    clock: i64,
    programData: seq<byte>,
    cfg: Config.Config,
    ids: map<Key, Identity>,
    counters: map<Key, u64>,
    bound: map<Slot, BoundResult>,
    plain: map<Slot, PlainResult>)

  /** `signed` is the preceding Ed25519 instruction, if any; `tokens` says whether the calls that
      make the new token succeed, `paid` whether the later transfers do. `extra` holds the addresses
      of the remaining accounts. The clock and the loader take steps of their own. */
  datatype Instr =
    | Tick(time: i64)
    | Deploy(programData: seq<byte>)
    | Configure(op: Config.ConfigOp)
    | Prepare(wallet: Key)
    | VerifyBound(wallet: Key, nonce: Key, proof: seq<byte>, commitmentNew: Key, commitmentPrev: Key,
                  threshold: u16, minDistance: u16, validUntil: u64)
    | VerifyPlain(wallet: Key, nonce: Key, proof: seq<byte>, inputs: seq<Key>)
    | CloseResult(wallet: Key, nonce: Key, fromBound: bool)
    | MintAnchor(wallet: Key, commitment: Key, extra: seq<Key>, signed: Option<seq<byte>>, tokens: bool, paid: bool)
    | UpdateAnchor(wallet: Key, slot: Slot, fromBound: bool, expected: Option<Key>, receipt: UpdateReceipt,
                   signed: Option<seq<byte>>, paid: bool)
    | ResetAnchor(wallet: Key, commitment: Key, version: u16, extra: seq<Key>, signed: Option<seq<byte>>, paid: bool)
    | RebaselineAnchor(wallet: Key, commitment: Key, version: u16, extra: seq<Key>, signed: Option<seq<byte>>,
                       paid: bool)
    | Authorize(wallet: Key, newWallet: Key, paid: bool)
    | Migrate(wallet: Key, user: Key, extra: seq<Key>, tokens: bool, paid: bool)

  // --- Shared checks ---

  function CheckBounds(threshold: u16, minDistance: u16): (r: Outcome<Error>)
    ensures r.Pass? <==> MIN_DISTANCE_FLOOR <= minDistance < threshold <= MAX_THRESHOLD
  {
    if threshold > MAX_THRESHOLD || minDistance < MIN_DISTANCE_FLOOR || minDistance >= threshold
    then Fail(InvalidPublicInputs) else Pass
  }

  /** `validate_identity_projection` */
  function CheckWindow(version: u16, cfg: Config.Config): Outcome<Error> {
    if cfg.minimum > cfg.current then Fail(InvalidProtocolConfig)
    else if version < cfg.minimum then Fail(ProjectionVersionTooOld)
    else if version > cfg.current then Fail(ProjectionVersionTooNew)
    else Pass
  }

  function CounterOf(w: World, wallet: Key): u64 {
    if wallet in w.counters then w.counters[wallet] else 0
  }

  /** `advance`: create at zero when absent, then add one. The earlier build keeps no counters. */
  function Advanced(env: Env, w: World, wallet: Key): Result<World, Error> {
    if !env.bound then Ok(w)
    else if CounterOf(w, wallet) == U64_MAX then Err(ArithmeticOverflow)
    else Ok(w.(counters := w.counters[wallet := CounterOf(w, wallet) + 1]))
  }

  // --- Proofs ---

  function RequestContext(env: Env, wallet: Key, nonce: Key): Context {
    Context(env.deployment, env.verifierId, env.anchorId, wallet, nonce)
  }

  /** The action a digest commits to: the proof's own fields, and the identity as it now stands. */
  function ActionFor(env: Env, wallet: Key, id: Identity, counter: u64, commitmentNew: Key, commitmentPrev: Key,
                     threshold: u16, minDistance: u16, validUntil: u64): Action {
    Action(env.identityPda(wallet), id.mint, counter, id.version, commitmentNew, commitmentPrev, threshold,
           minDistance, validUntil)
  }

  /** The consumer's recomputation of a stored result's digest. */
  function Recomputed(env: Env, r: BoundResult, id: Identity): Option<Key> {
    RequestDigest(env.hash, RequestContext(env, r.wallet, r.nonce),
                  ActionFor(env, r.wallet, id, r.counter, r.commitmentNew, r.commitmentPrev, r.threshold,
                            r.minDistance, r.validUntil))
  }

  function Limbs(digest: Key): (l: seq<Key>)
    ensures |l| == 2
  {
    [Zeros(16) + digest[..16], Zeros(16) + digest[16..]]
  }

  /** The public inputs the bound circuit is checked on. */
  function BoundInputs(commitmentNew: Key, commitmentPrev: Key, threshold: u16, minDistance: u16, digest: Key)
    : seq<Key>
  {
    [commitmentNew, commitmentPrev, U16Field(threshold), U16Field(minDistance)] + Limbs(digest)
  }

  lemma BoundInputsAre(commitmentNew: Key, commitmentPrev: Key, threshold: u16, minDistance: u16, digest: Key)
    ensures SixInputs(BoundInputs(commitmentNew, commitmentPrev, threshold, minDistance, digest),
                      commitmentNew, commitmentPrev, threshold, minDistance, digest)
  {
    U16FieldRoundTrip(threshold);
    U16FieldRoundTrip(minDistance);
    LimbsRecompose(digest);
    Pow256Sixteen();
  }

  function Bound(env: Env, w: World, i: Instr): Result<World, Error>
    requires i.VerifyBound?
  {
    var slot := (i.wallet, i.nonce);
    :- Need(slot !in w.bound, AccountInUse);
    :- Need(i.wallet in w.ids && i.wallet in w.counters, AccountMissing);
    :- Need(env.bound, UnsupportedProofGeneration);
    :- Need(i.nonce != ZERO_KEY, InvalidNonce);
    :- Need(w.clock >= 0 && i.validUntil >= w.clock && i.validUntil > 0
            && i.validUntil <= w.clock + MAX_REQUEST_LIFETIME, ChallengeExpired);
    :- CheckBounds(i.threshold, i.minDistance);
    :- Need(i.commitmentNew != ZERO_KEY && i.commitmentPrev != ZERO_KEY, InvalidPublicInputs);
    var id := w.ids[i.wallet];
    :- Need(id.owner == i.wallet && id.commitment == i.commitmentPrev && id.bump == env.bumpOf(i.wallet),
            InvalidRequestContext);
    :- Need(id.mint == env.mintPda(i.wallet), InvalidRequestContext);
    var counter := w.counters[i.wallet];
    var digest := RequestDigest(env.hash, RequestContext(env, i.wallet, i.nonce),
      ActionFor(env, i.wallet, id, counter, i.commitmentNew, i.commitmentPrev, i.threshold, i.minDistance,
                i.validUntil));
    :- Need(digest.Some?, InvalidPublicInputs);
    :- Need(env.proves(i.proof, BoundInputs(i.commitmentNew, i.commitmentPrev, i.threshold, i.minDistance,
                                            digest.value)),
            ProofVerificationFailed);
    Ok(w.(bound := w.bound[slot := BoundResult(i.wallet, i.nonce, i.commitmentNew, i.commitmentPrev, i.threshold,
                                               i.minDistance, counter, i.validUntil, w.clock, digest.value)]))
  }

  function Plain(env: Env, w: World, i: Instr): Result<World, Error>
    requires i.VerifyPlain?
  {
    var slot := (i.wallet, i.nonce);
    :- Need(slot !in w.plain, AccountInUse);
    :- Need(|i.inputs| == 4, InvalidPublicInputs);
    :- Need(!env.bound, UnsupportedProofGeneration);
    :- Need(i.nonce != ZERO_KEY, InvalidNonce);
    :- Need(i.inputs[0] != ZERO_KEY && i.inputs[1] != ZERO_KEY, InvalidPublicInputs);
    var threshold, minDistance := DecodeU16(i.inputs[2]), DecodeU16(i.inputs[3]);
    :- Need(threshold.Some? && minDistance.Some?, InvalidPublicInputs);
    :- CheckBounds(threshold.value, minDistance.value);
    :- Need(|i.proof| == 256, InvalidProofFormat);
    :- Need(env.proves(i.proof, i.inputs), ProofVerificationFailed);
    Ok(w.(plain := w.plain[slot := PlainResult(i.wallet, i.nonce, w.clock, i.inputs[0], i.inputs[1],
                                               threshold.value, minDistance.value)]))
  }

  // --- Consuming a proof ---

  /** What the update takes from the proof result it consumes. */
  datatype Claim = Claim(commitmentNew: Key, commitmentPrev: Key, threshold: u16, minDistance: u16)

  function BoundClaim(env: Env, w: World, wallet: Key, slot: Slot, id: Identity): Result<Claim, Error> {
    var now := w.clock;
    :- Need(slot in w.bound && wallet in w.counters, InvalidRequestContext);
    var r := w.bound[slot];
    :- Need(r.wallet == wallet && r.counter == w.counters[wallet] && r.nonce != ZERO_KEY, InvalidRequestContext);
    :- Need(slot == (wallet, r.nonce), InvalidVerificationResultPda);
    :- Need(r.verifiedAt <= now && now >= 0 && r.validUntil >= now && r.validUntil > 0, ProofExpired);
    :- Need(Recomputed(env, r, id) == Some(r.digest), InvalidRequestContext);
    :- Need(r.counter < U64_MAX, ArithmeticOverflow);
    Ok(Claim(r.commitmentNew, r.commitmentPrev, r.threshold, r.minDistance))
  }

  function PlainClaim(w: World, wallet: Key, slot: Slot): Result<Claim, Error> {
    var now := w.clock;
    :- Need(slot in w.plain, VerificationResultWrongOwner);
    var r := w.plain[slot];
    :- Need(r.verifier == wallet, VerifierMismatch);
    :- Need(r.nonce != ZERO_KEY && slot == (wallet, r.nonce), InvalidVerificationResultPda);
    :- Need(r.verifiedAt <= now, ProofFromFuture);
    :- Need(SatSub(now, r.verifiedAt) <= MAX_PROOF_AGE_SECS, ProofExpired);
    Ok(Claim(r.commitmentNew, r.commitmentPrev, r.threshold, r.minDistance))
  }

  /** The claim continues the identity's commitment, and the receipt is for it and unused. */
  function CheckClaim(env: Env, cfg: Config.Config, now: i64, i: Instr, id: Identity, claim: Claim)
    : Result<Option<Session>, Error>
    requires i.UpdateAnchor?
  {
    var commitment := claim.commitmentNew;
    :- Need(commitment != ZERO_KEY, InvalidCommitment);
    :- Need(i.expected.None? || i.expected == Some(commitment), CommitmentMismatch);
    :- Need(claim.commitmentPrev == id.commitment, PrevCommitmentMismatch);
    :- Need(commitment != claim.commitmentPrev, CommitmentUnchanged);
    var session :- VerifyUpdateReceipt(env.hash, i.signed, cfg.Keys(), i.wallet, commitment, id.version, i.receipt,
                                       now);
    :- Need(i.receipt.validatedAt >= id.lastVerified, ReceiptAlreadyUsed);
    Ok(session)
  }

  /** The identity after an accepted update. */
  function Verified(id: Identity, commitmentNew: Key, cfg: Config.Config, now: i64): Result<Identity, Error> {
    var ring := Recorded(id.ring, now);
    :- Need(id.count < U32_MAX, ArithmeticOverflow);
    var score := TrustScore(ring, now, id.created, cfg.baseTrustIncrement, cfg.maxTrustScore);
    :- Need(score.Some?, ArithmeticOverflow);
    Ok(id.(commitment := commitmentNew, count := id.count + 1, lastVerified := now, ring := ring, score := score.value))
  }

  function Update(env: Env, w: World, i: Instr): Result<World, Error>
    requires i.UpdateAnchor?
  {
    var wallet := i.wallet;
    :- Need(i.fromBound == env.bound, UnsupportedProofGeneration);
    :- Need(wallet in w.ids, InvalidIdentityState);
    var id := w.ids[wallet];
    :- Need(id.owner == wallet, Unauthorized);
    :- Need(i.expected != Some(ZERO_KEY), InvalidCommitment);
    :- CheckWindow(id.version, w.cfg);
    var claim :- if env.bound then BoundClaim(env, w, wallet, i.slot, id) else PlainClaim(w, wallet, i.slot);
    var session :- CheckClaim(env, w.cfg, w.clock, i, id, claim);
    var verified :- Verified(id, claim.commitmentNew, w.cfg, w.clock);
    :- Need(i.paid, TransferFailed);
    var advanced :- Advanced(env, w, wallet);
    Ok(advanced.(ids := w.ids[wallet := verified],
                 bound := if env.bound then w.bound - {i.slot} else w.bound,
                 plain := if env.bound then w.plain else w.plain - {i.slot}))
  }

  // --- The other identity instructions ---

  /** In the bound build the wallet's counter account comes last among a reset's remaining accounts,
      after the instructions sysvar. */
  function CheckState(env: Env, wallet: Key, extra: seq<Key>): Outcome<Error> {
    if env.bound && (extra == [] || extra[|extra| - 1] != env.counterPda(wallet))
    then Fail(InvalidRequestContext) else Pass
  }

  function ReceiptAccounts(env: Env, extra: seq<Key>): seq<Key> {
    if env.bound && extra != [] then extra[..|extra| - 1] else extra
  }

  /** The bound build wants exactly these remaining accounts. */
  function CheckExtra(env: Env, extra: seq<Key>, wanted: seq<Key>): Outcome<Error> {
    Need(env.bound ==> extra == wanted, InvalidRequestContext)
  }

  /** The identity a mint creates. */
  function Newborn(env: Env, wallet: Key, commitment: Key, version: u16, now: i64): Identity {
    Identity(wallet, now, now, 0, 0, commitment, env.mintPda(wallet), env.bumpOf(wallet), EMPTY_RING, 0, ZERO_KEY,
             version, 0)
  }

  function Mint(env: Env, w: World, i: Instr): Result<World, Error>
    requires i.MintAnchor?
  {
    var wallet := i.wallet;
    :- Need(wallet !in w.ids, AccountInUse);
    :- CheckExtra(env, i.extra, [env.counterPda(wallet)]);
    var advanced :- Advanced(env, w, wallet);
    :- Need(i.commitment != ZERO_KEY, InvalidCommitment);
    :- Need(i.tokens, TransferFailed);
    :- Need(w.cfg.minimum <= w.cfg.current, InvalidProtocolConfig);
    var session :- VerifyReceipt(i.signed, w.cfg.Keys(), wallet, i.commitment, ForMint, w.cfg.current, w.clock);
    :- Need(i.paid, TransferFailed);
    Ok(advanced.(ids := w.ids[wallet := Newborn(env, wallet, i.commitment, w.cfg.current, w.clock)]))
  }

  /** The identity after a reset: a new commitment and no reputation. */
  function Cleared(id: Identity, commitment: Key, version: u16, now: i64): Identity {
    Identity(id.owner, id.created, now, 0, 0, commitment, id.mint, id.bump, EMPTY_RING, now, id.newWallet, version,
             id.lastRebaseline)
  }

  function Reset(env: Env, w: World, i: Instr): Result<World, Error>
    requires i.ResetAnchor?
  {
    var wallet, current := i.wallet, w.cfg.current;
    :- CheckState(env, wallet, i.extra);
    var advanced :- Advanced(env, w, wallet);
    :- Need(i.commitment != ZERO_KEY, InvalidCommitment);
    :- Need(wallet in w.ids, InvalidIdentityState);
    var id := w.ids[wallet];
    :- Need(id.owner == wallet, Unauthorized);
    :- Need(SatSub(w.clock, id.lastReset) >= RESET_COOLDOWN_SECS, ResetCooldownActive);
    :- Need(w.cfg.minimum <= current, InvalidProtocolConfig);
    :- Need(i.version == current, ProjectionVersionMismatch);
    :- Need(ReceiptAccounts(env, i.extra) == [env.sysvar], InvalidResetReceiptAccounts);
    var session :- VerifyReceipt(i.signed, w.cfg.Keys(), wallet, i.commitment, ForReset, current, w.clock);
    :- Need(i.paid, TransferFailed);
    Ok(advanced.(ids := w.ids[wallet := Cleared(id, i.commitment, current, w.clock)]))
  }

  /** The identity after a rebaseline: a new commitment in the current projection space. */
  function Rebased(id: Identity, commitment: Key, version: u16, now: i64): Identity {
    id.(commitment := commitment, version := version, lastRebaseline := now, lastVerified := now)
  }

  function Rebaseline(env: Env, w: World, i: Instr): Result<World, Error>
    requires i.RebaselineAnchor?
  {
    var counter := env.counterPda(i.wallet);
    :- CheckExtra(env, i.extra, [counter]);
    var advanced :- Advanced(env, w, i.wallet);
    :- Need(i.commitment != ZERO_KEY, InvalidCommitment);
    :- Need(i.wallet in w.ids, InvalidIdentityState);
    var id := w.ids[i.wallet];
    :- Need(id.owner == i.wallet, Unauthorized);
    :- Need(w.cfg.minimum <= w.cfg.current, InvalidProtocolConfig);
    :- Need(i.version == w.cfg.current, ProjectionVersionMismatch);
    :- Need(id.version < w.cfg.current, ProjectionVersionNotAdvanced);
    :- Need(SatSub(w.clock, id.lastRebaseline) >= REBASELINE_COOLDOWN_SECS, RebaselineCooldownActive);
    var session :- VerifyReceipt(i.signed, w.cfg.Keys(), i.wallet, i.commitment, ForRebaseline, w.cfg.current, w.clock);
    :- Need(i.paid, TransferFailed);
    Ok(advanced.(ids := w.ids[i.wallet := Rebased(id, i.commitment, w.cfg.current, w.clock)]))
  }

  /** The identity a migration creates for `user`: every reputation field carried over. */
  function Carried(env: Env, id: Identity, user: Key): Identity {
    id.(owner := user, mint := env.mintPda(user), bump := env.bumpOf(user), newWallet := ZERO_KEY)
  }

  function Migration(env: Env, w: World, i: Instr): Result<World, Error>
    requires i.Migrate?
  {
    var wallet, user := i.wallet, i.user;
    :- Need(user !in w.ids, AccountInUse);
    :- Need(wallet in w.ids, AccountMissing);
    var id := w.ids[wallet];
    :- Need(env.bound ==> |i.extra| == 2, InvalidRequestContext);
    :- Need(env.bound ==> id.owner == wallet && id.newWallet == user, UnauthorizedNewWallet);
    :- Need(env.bound ==> i.extra[0] == env.counterPda(wallet), InvalidRequestContext);
    var first :- Advanced(env, w, wallet);
    :- Need(env.bound ==> i.extra[1] == env.counterPda(user), InvalidRequestContext);
    var second :- Advanced(env, first, user);
    :- Need(i.tokens, TransferFailed);
    :- Need(id.newWallet == user, UnauthorizedNewWallet);
    :- Need(i.paid, TransferFailed);
    Ok(second.(ids := w.ids[user := Carried(env, id, user)] - {wallet}))
  }

  // --- The step ---

  function Exec(env: Env, w: World, i: Instr): Result<World, Error> {
    match i
    case Tick(time) =>
      :- Need(time >= w.clock, ArithmeticOverflow);
      Ok(w.(clock := time))
    case Deploy(programData) => Ok(w.(programData := programData))
    case Configure(op) =>
      :- Need(op.MigrateAdmin? ==> op.programData == w.programData, ProgramDataBytes);
      var cfg :- Config.Step(w.cfg, op, w.clock);
      Ok(w.(cfg := cfg))
    case Prepare(wallet) =>
      :- Need(env.bound, UnsupportedProofGeneration);
      Ok(w.(counters := w.counters[wallet := CounterOf(w, wallet)]))
    case VerifyBound(_, _, _, _, _, _, _, _) => Bound(env, w, i)
    case VerifyPlain(_, _, _, _) => Plain(env, w, i)
    case CloseResult(wallet, nonce, fromBound) =>
      :- Need((wallet, nonce) in (if fromBound then w.bound.Keys else w.plain.Keys), AccountMissing);
      Ok(if fromBound then w.(bound := w.bound - {(wallet, nonce)}) else w.(plain := w.plain - {(wallet, nonce)}))
    case MintAnchor(_, _, _, _, _, _) => Mint(env, w, i)
    case UpdateAnchor(_, _, _, _, _, _, _) => Update(env, w, i)
    case ResetAnchor(_, _, _, _, _, _) => Reset(env, w, i)
    case RebaselineAnchor(_, _, _, _, _, _) => Rebaseline(env, w, i)
    case Authorize(wallet, newWallet, paid) =>
      :- Need(wallet in w.ids, AccountMissing);
      :- Need(paid, TransferFailed);
      Ok(w.(ids := w.ids[wallet := w.ids[wallet].(newWallet := newWallet)]))
    case Migrate(_, _, _, _, _) => Migration(env, w, i)
  }

  /** An instruction that fails leaves no trace. */
  function Step(env: Env, w: World, i: Instr): World {
    var r := Exec(env, w, i);
    if r.Ok? then r.value else w
  }

  // --- What a successful instruction did ---

  /** The state with the counters of `wallet` moved on. */
  function Bumped(env: Env, w: World, wallet: Key): World {
    if env.bound && CounterOf(w, wallet) < U64_MAX
    then w.(counters := w.counters[wallet := CounterOf(w, wallet) + 1]) else w
  }

  function BumpedBoth(env: Env, w: World, a: Key, b: Key): World {
    if env.bound && CounterOf(w, a) < U64_MAX && CounterOf(w, b) < U64_MAX
    then w.(counters := w.counters[a := CounterOf(w, a) + 1][b := CounterOf(w, b) + 1]) else w
  }

  function ClaimAt(env: Env, w: World, slot: Slot): Claim
    requires slot in (if env.bound then w.bound.Keys else w.plain.Keys)
  {
    if env.bound then
      var r := w.bound[slot];
      Claim(r.commitmentNew, r.commitmentPrev, r.threshold, r.minDistance)
    else
      var r := w.plain[slot];
      Claim(r.commitmentNew, r.commitmentPrev, r.threshold, r.minDistance)
  }

  /** What an accepted update established about the proof it consumed and the receipt it carried. */
  ghost predicate UpdateAccepted(env: Env, w: World, i: Instr)
    requires i.UpdateAnchor?
  {
    && i.wallet in w.ids
    && i.slot in (if env.bound then w.bound.Keys else w.plain.Keys)
    && (env.bound ==> i.wallet in w.counters && w.bound[i.slot].wallet == i.wallet
                      && w.bound[i.slot].counter == w.counters[i.wallet] < U64_MAX
                      && w.clock <= w.bound[i.slot].validUntil
                      && Recomputed(env, w.bound[i.slot], w.ids[i.wallet]) == Some(w.bound[i.slot].digest))
    && (!env.bound ==> w.plain[i.slot].verifier == i.wallet
                       && w.clock - MAX_PROOF_AGE_SECS <= w.plain[i.slot].verifiedAt <= w.clock)
    && i.slot.0 == i.wallet
    && var id, claim := w.ids[i.wallet], ClaimAt(env, w, i.slot);
    && w.cfg.minimum <= id.version <= w.cfg.current
    && claim.commitmentPrev == id.commitment && claim.commitmentNew != id.commitment && claim.commitmentNew != ZERO_KEY
    && id.lastVerified <= i.receipt.validatedAt <= w.clock
  }

  ghost predicate Configured(w: World, op: Config.ConfigOp, after: World) {
    && (op.MigrateAdmin? ==> op.programData == w.programData)
    && Config.Step(w.cfg, op, w.clock) == Ok(after.cfg) && after == w.(cfg := after.cfg)
  }

  ghost predicate BoundStored(env: Env, w: World, i: Instr, after: World)
    requires i.VerifyBound?
  {
    var slot := (i.wallet, i.nonce);
    && env.bound && i.wallet in w.ids && i.wallet in w.counters && i.nonce != ZERO_KEY && i.commitmentNew != ZERO_KEY
    && w.ids[i.wallet].commitment == i.commitmentPrev
    && w.clock <= i.validUntil <= w.clock + MAX_REQUEST_LIFETIME && i.validUntil > 0
    && MIN_DISTANCE_FLOOR <= i.minDistance < i.threshold <= MAX_THRESHOLD
    && slot !in w.bound && slot in after.bound
    && var r := after.bound[slot];
    && r == BoundResult(i.wallet, i.nonce, i.commitmentNew, i.commitmentPrev, i.threshold, i.minDistance,
                        w.counters[i.wallet], i.validUntil, w.clock, r.digest)
    && Recomputed(env, r, w.ids[i.wallet]) == Some(r.digest)
    && env.proves(i.proof, BoundInputs(i.commitmentNew, i.commitmentPrev, i.threshold, i.minDistance, r.digest))
    && after == w.(bound := w.bound[slot := r])
  }

  ghost predicate PlainStored(env: Env, w: World, i: Instr, after: World)
    requires i.VerifyPlain?
  {
    var slot := (i.wallet, i.nonce);
    && !env.bound && i.nonce != ZERO_KEY && slot !in w.plain && slot in after.plain
    && var r := after.plain[slot];
    && r.verifier == i.wallet && r.nonce == i.nonce && r.verifiedAt == w.clock && r.commitmentNew != ZERO_KEY
    && MIN_DISTANCE_FLOOR <= r.minDistance < r.threshold <= MAX_THRESHOLD
    && env.proves(i.proof, i.inputs) && |i.inputs| == 4 && i.inputs[0] == r.commitmentNew
    && i.inputs[1] == r.commitmentPrev
    && DecodeU16(i.inputs[2]) == Some(r.threshold) && DecodeU16(i.inputs[3]) == Some(r.minDistance)
    && after == w.(plain := w.plain[slot := r])
  }

  ghost predicate MintDone(env: Env, w: World, i: Instr, after: World)
    requires i.MintAnchor?
  {
    && i.wallet !in w.ids && i.commitment != ZERO_KEY && (env.bound ==> CounterOf(w, i.wallet) < U64_MAX)
    && after == Bumped(env, w, i.wallet).(
         ids := w.ids[i.wallet := Newborn(env, i.wallet, i.commitment, w.cfg.current, w.clock)])
  }

  ghost predicate UpdateDone(env: Env, w: World, i: Instr, after: World)
    requires i.UpdateAnchor?
  {
    && UpdateAccepted(env, w, i)
    && var verified := Verified(w.ids[i.wallet], ClaimAt(env, w, i.slot).commitmentNew, w.cfg, w.clock);
    && verified.Ok?
    && after == Bumped(env, w, i.wallet).(
         ids := w.ids[i.wallet := verified.value],
         bound := if env.bound then w.bound - {i.slot} else w.bound,
         plain := if env.bound then w.plain else w.plain - {i.slot})
  }

  ghost predicate ResetDone(env: Env, w: World, i: Instr, after: World)
    requires i.ResetAnchor?
  {
    && i.wallet in w.ids && i.commitment != ZERO_KEY && (env.bound ==> CounterOf(w, i.wallet) < U64_MAX)
    && SatSub(w.clock, w.ids[i.wallet].lastReset) >= RESET_COOLDOWN_SECS
    && after == Bumped(env, w, i.wallet).(
         ids := w.ids[i.wallet := Cleared(w.ids[i.wallet], i.commitment, w.cfg.current, w.clock)])
  }

  ghost predicate RebaselineDone(env: Env, w: World, i: Instr, after: World)
    requires i.RebaselineAnchor?
  {
    && i.wallet in w.ids && i.commitment != ZERO_KEY && (env.bound ==> CounterOf(w, i.wallet) < U64_MAX)
    && SatSub(w.clock, w.ids[i.wallet].lastRebaseline) >= REBASELINE_COOLDOWN_SECS
    && w.ids[i.wallet].version < w.cfg.current
    && after == Bumped(env, w, i.wallet).(
         ids := w.ids[i.wallet := Rebased(w.ids[i.wallet], i.commitment, w.cfg.current, w.clock)])
  }

  ghost predicate AuthorizeDone(w: World, i: Instr, after: World)
    requires i.Authorize?
  {
    i.wallet in w.ids && after == w.(ids := w.ids[i.wallet := w.ids[i.wallet].(newWallet := i.newWallet)])
  }

  ghost predicate MigrateDone(env: Env, w: World, i: Instr, after: World)
    requires i.Migrate?
  {
    && i.wallet in w.ids && i.user !in w.ids && w.ids[i.wallet].newWallet == i.user
    && (env.bound ==> CounterOf(w, i.wallet) < U64_MAX && CounterOf(w, i.user) < U64_MAX)
    && after == BumpedBoth(env, w, i.wallet, i.user).(
         ids := w.ids[i.user := Carried(env, w.ids[i.wallet], i.user)] - {i.wallet})
  }

  /** The relation between the states around a successful instruction. */
  ghost predicate Effect(env: Env, w: World, i: Instr, after: World) {
    match i
    case Tick(time) => time >= w.clock && after == w.(clock := time)
    case Deploy(programData) => after == w.(programData := programData)
    case Configure(op) => Configured(w, op, after)
    case Prepare(wallet) => env.bound && after == w.(counters := w.counters[wallet := CounterOf(w, wallet)])
    case VerifyBound(_, _, _, _, _, _, _, _) => BoundStored(env, w, i, after)
    case VerifyPlain(_, _, _, _) => PlainStored(env, w, i, after)
    case CloseResult(wallet, nonce, fromBound) =>
      after == if fromBound then w.(bound := w.bound - {(wallet, nonce)}) else w.(plain := w.plain - {(wallet, nonce)})
    case MintAnchor(_, _, _, _, _, _) => MintDone(env, w, i, after)
    case UpdateAnchor(_, _, _, _, _, _, _) => UpdateDone(env, w, i, after)
    case ResetAnchor(_, _, _, _, _, _) => ResetDone(env, w, i, after)
    case RebaselineAnchor(_, _, _, _, _, _) => RebaselineDone(env, w, i, after)
    case Authorize(_, _, _) => AuthorizeDone(w, i, after)
    case Migrate(_, _, _, _, _) => MigrateDone(env, w, i, after)
  }

  lemma BoundEffect(env: Env, w: World, i: Instr)
    requires i.VerifyBound? && Bound(env, w, i).Ok?
    ensures BoundStored(env, w, i, Bound(env, w, i).value)
  {
  }

  lemma PlainEffect(env: Env, w: World, i: Instr)
    requires i.VerifyPlain? && Plain(env, w, i).Ok?
    ensures PlainStored(env, w, i, Plain(env, w, i).value)
  {
  }

  lemma UpdateWasAccepted(env: Env, w: World, i: Instr)
    requires i.UpdateAnchor? && Update(env, w, i).Ok?
    ensures UpdateAccepted(env, w, i)
  {
  }

  lemma UpdateEffect(env: Env, w: World, i: Instr)
    requires i.UpdateAnchor? && Update(env, w, i).Ok?
    ensures UpdateDone(env, w, i, Update(env, w, i).value)
  {
    UpdateWasAccepted(env, w, i);
  }

  lemma MintEffect(env: Env, w: World, i: Instr)
    requires i.MintAnchor? && Mint(env, w, i).Ok?
    ensures MintDone(env, w, i, Mint(env, w, i).value)
  {
  }

  lemma ResetEffect(env: Env, w: World, i: Instr)
    requires i.ResetAnchor? && Reset(env, w, i).Ok?
    ensures ResetDone(env, w, i, Reset(env, w, i).value)
  {
  }

  lemma RebaselineEffect(env: Env, w: World, i: Instr)
    requires i.RebaselineAnchor? && Rebaseline(env, w, i).Ok?
    ensures RebaselineDone(env, w, i, Rebaseline(env, w, i).value)
  {
  }

  lemma MigrateEffect(env: Env, w: World, i: Instr)
    requires i.Migrate? && Migration(env, w, i).Ok?
    ensures MigrateDone(env, w, i, Migration(env, w, i).value)
  {
  }

  lemma ExecEffect(env: Env, w: World, i: Instr)
    requires Exec(env, w, i).Ok?
    ensures Effect(env, w, i, Exec(env, w, i).value)
  {
    match i {
      case VerifyBound(_, _, _, _, _, _, _, _) => BoundEffect(env, w, i);
      case VerifyPlain(_, _, _, _) => PlainEffect(env, w, i);
      case MintAnchor(_, _, _, _, _, _) => MintEffect(env, w, i);
      case UpdateAnchor(_, _, _, _, _, _, _) => UpdateEffect(env, w, i);
      case ResetAnchor(_, _, _, _, _, _) => ResetEffect(env, w, i);
      case RebaselineAnchor(_, _, _, _, _, _) => RebaselineEffect(env, w, i);
      case Migrate(_, _, _, _, _) => MigrateEffect(env, w, i);
      case _ =>
    }
  }

  // --- Runs ---

  /** A fresh deployment: an initialised configuration and a running clock, nothing else. */
  ghost predicate Initial(w: World) {
    && w.clock > 0
    && w.ids == map[] && w.counters == map[] && w.bound == map[] && w.plain == map[]
    && exists admin, stake, expiry, max, inc, bump, fee, validator ::
         Config.Initialized(admin, stake, expiry, max, inc, bump, fee, validator) == Ok(w.cfg)
  }

  function Run(env: Env, w: World, run: seq<Instr>): World {
    if run == [] then w else Step(env, Run(env, w, run[..|run| - 1]), run[|run| - 1])
  }

  lemma {:induction false} RunAppend(env: Env, w: World, first: seq<Instr>, rest: seq<Instr>)
    ensures Run(env, w, first + rest) == Run(env, Run(env, w, first), rest)
    decreases |rest|
  {
    if rest == [] {
      assert first + rest == first;
    } else {
      var front := rest[..|rest| - 1];
      assert (first + rest)[..|first + rest| - 1] == first + front;
      RunAppend(env, w, first, front);
    }
  }
}
