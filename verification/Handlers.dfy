/** The instructions as the programs run them: guards and writes interleaved over live accounts,
    with the counter written before later checks can still fail, and the runtime undoing a failed
    instruction. The transition system describes exactly this. */
module Handlers {
  import opened Bytes
  import opened Errors
  import opened Score
  import opened Receipts
  import opened ProofRequest
  import opened Identities
  import opened Programs
  import Config

  /** What an instruction returns on success. */
  datatype Done = Done

  class Ledger {
    var clock: i64
    var programData: seq<byte>
    var cfg: Config.Config
    var ids: map<Key, Identity>
    var counters: map<Key, u64>
    var bound: map<Slot, BoundResult>
    var plain: map<Slot, PlainResult>

    function State(): World
      reads this
    {
      World(clock, programData, cfg, ids, counters, bound, plain)
    }

    constructor (w: World)
      ensures State() == w
    {
      clock, programData, cfg, ids := w.clock, w.programData, w.cfg, w.ids;
      counters, bound, plain := w.counters, w.bound, w.plain;
    }

    /** The handler's answer and the state it leaves behind are those of `expected`. A failed
        handler may leave anything behind. */
    ghost predicate Answers(expected: Result<World, Error>, r: Result<Done, Error>)
      reads this
    {
      match expected
      case Ok(w) => r == Ok(Done) && State() == w
      case Err(e) => r == Err(e)
    }

    // --- Counters ---

    method Advance(env: Env, wallet: Key) returns (r: Result<Done, Error>)
      modifies this`counters
      ensures Answers(Advanced(env, old(State()), wallet), r)
    {
      if !env.bound {
        return Ok(Done);
      }
      if wallet !in counters {
        counters := counters[wallet := 0];
      }
      var counter := counters[wallet];
      :- Need(counter < U64_MAX, ArithmeticOverflow);
      counters := counters[wallet := counter + 1];
      r := Ok(Done);
    }

    // --- Verifying ---

    method VerifyProofBound(env: Env, i: Instr) returns (r: Result<Done, Error>)
      requires i.VerifyBound?
      modifies this`bound
      ensures Answers(Bound(env, old(State()), i), r)
    {
      var slot := (i.wallet, i.nonce);
      :- Need(slot !in bound, AccountInUse);
      :- Need(i.wallet in ids && i.wallet in counters, AccountMissing);
      :- Need(env.bound, UnsupportedProofGeneration);
      :- Need(i.nonce != ZERO_KEY, InvalidNonce);
      :- Need(clock >= 0 && i.validUntil >= clock && i.validUntil > 0 && i.validUntil <= clock + MAX_REQUEST_LIFETIME,
              ChallengeExpired);
      :- CheckBounds(i.threshold, i.minDistance);
      :- Need(i.commitmentNew != ZERO_KEY && i.commitmentPrev != ZERO_KEY, InvalidPublicInputs);
      var id := ids[i.wallet];
      :- Need(id.owner == i.wallet && id.commitment == i.commitmentPrev && id.bump == env.bumpOf(i.wallet),
              InvalidRequestContext);
      :- Need(id.mint == env.mintPda(i.wallet), InvalidRequestContext);
      var counter := counters[i.wallet];
      var digest := ComputeRequestDigest(env.hash, RequestContext(env, i.wallet, i.nonce),
        ActionFor(env, i.wallet, id, counter, i.commitmentNew, i.commitmentPrev, i.threshold, i.minDistance,
                  i.validUntil));
      :- Need(digest.Some?, InvalidPublicInputs);
      var accepted := CheckBoundProof(env, i, digest.value);
      BoundInputsAre(i.commitmentNew, i.commitmentPrev, i.threshold, i.minDistance, digest.value);
      :- Need(accepted, ProofVerificationFailed);
      bound := bound[slot := BoundResult(i.wallet, i.nonce, i.commitmentNew, i.commitmentPrev, i.threshold,
                                         i.minDistance, counter, i.validUntil, clock, digest.value)];
      r := Ok(Done);
    }

    /** Hands the verifier the six public inputs, of which there is exactly one list. */
    method CheckBoundProof(env: Env, i: Instr, digest: Key) returns (accepted: bool)
      requires i.VerifyBound?
      ensures exists inputs ::
                SixInputs(inputs, i.commitmentNew, i.commitmentPrev, i.threshold, i.minDistance, digest)
                && accepted == env.proves(i.proof, inputs)
      ensures forall inputs ::
                SixInputs(inputs, i.commitmentNew, i.commitmentPrev, i.threshold, i.minDistance, digest) ==>
                  accepted == env.proves(i.proof, inputs)
    {
      var threshold := EncodeU16(i.threshold);
      var minDistance := EncodeU16(i.minDistance);
      var high, low := DigestLimbs(digest);
      var inputs := [i.commitmentNew, i.commitmentPrev, threshold, minDistance, high, low];
      accepted := env.proves(i.proof, inputs);
      Pow256Sixteen();
      assert SixInputs(inputs, i.commitmentNew, i.commitmentPrev, i.threshold, i.minDistance, digest);
      forall others | SixInputs(others, i.commitmentNew, i.commitmentPrev, i.threshold, i.minDistance, digest)
        ensures others == inputs
      {
        SixInputsUnique(others, inputs, i.commitmentNew, i.commitmentPrev, i.threshold, i.minDistance, digest);
      }
    }

    method VerifyProof(env: Env, i: Instr) returns (r: Result<Done, Error>)
      requires i.VerifyPlain?
      modifies this`plain
      ensures Answers(Plain(env, old(State()), i), r)
    {
      var slot := (i.wallet, i.nonce);
      :- Need(slot !in plain, AccountInUse);
      :- Need(|i.inputs| == 4, InvalidPublicInputs);
      :- Need(!env.bound, UnsupportedProofGeneration);
      :- Need(i.nonce != ZERO_KEY, InvalidNonce);
      :- Need(i.inputs[0] != ZERO_KEY, InvalidPublicInputs);
      :- Need(i.inputs[1] != ZERO_KEY, InvalidPublicInputs);
      var threshold, minDistance := DecodeU16(i.inputs[2]), DecodeU16(i.inputs[3]);
      :- Need(threshold.Some? && minDistance.Some?, InvalidPublicInputs);
      :- CheckBounds(threshold.value, minDistance.value);
      :- Need(|i.proof| == 256, InvalidProofFormat);
      :- Need(env.proves(i.proof, i.inputs), ProofVerificationFailed);
      plain := plain[slot := PlainResult(i.wallet, i.nonce, clock, i.inputs[0], i.inputs[1], threshold.value,
                                         minDistance.value)];
      r := Ok(Done);
    }

    // --- Updating ---

    /** Checks a bound result against the live counter and identity, and moves the counter on at
        once: before the receipt, the score and the fee are looked at. */
    method TakeBound(env: Env, wallet: Key, slot: Slot, id: Identity) returns (r: Result<Claim, Error>)
      modifies this`counters
      ensures r == BoundClaim(env, old(State()), wallet, slot, id)
      ensures r.Ok? ==> wallet in old(counters) && old(counters)[wallet] < U64_MAX
                        && counters == old(counters)[wallet := old(counters)[wallet] + 1]
    {
      var now := clock;
      :- Need(slot in bound && wallet in counters, InvalidRequestContext);
      var result, counter := bound[slot], counters[wallet];
      :- Need(result.wallet == wallet && result.counter == counter && result.nonce != ZERO_KEY, InvalidRequestContext);
      :- Need(slot == (wallet, result.nonce), InvalidVerificationResultPda);
      :- Need(result.verifiedAt <= now && now >= 0 && result.validUntil >= now && result.validUntil > 0, ProofExpired);
      var digest := ComputeRequestDigest(env.hash, RequestContext(env, wallet, result.nonce),
        ActionFor(env, wallet, id, counter, result.commitmentNew, result.commitmentPrev,
                  result.threshold, result.minDistance, result.validUntil));
      :- Need(digest == Some(result.digest), InvalidRequestContext);
      :- Need(counter < U64_MAX, ArithmeticOverflow);
      counters := counters[wallet := counter + 1];
      r := Ok(Claim(result.commitmentNew, result.commitmentPrev, result.threshold, result.minDistance));
    }

    method TakeClaim(env: Env, wallet: Key, slot: Slot, id: Identity) returns (r: Result<Claim, Error>)
      modifies this`counters
      ensures r == if env.bound then BoundClaim(env, old(State()), wallet, slot, id)
                   else PlainClaim(old(State()), wallet, slot)
      ensures r.Ok? ==> Advanced(env, old(State()), wallet) == Ok(State())
    {
      if env.bound {
        r := TakeBound(env, wallet, slot, id);
      } else {
        r := PlainClaim(State(), wallet, slot);
      }
    }

    /** The receipt is compared by digest with the preimage rebuilt from its arguments. */
    method CheckUpdateReceipt(env: Env, i: Instr, commitment: Key, version: u16)
      returns (r: Result<Option<Session>, Error>)
      requires i.UpdateAnchor?
      ensures r == VerifyUpdateReceipt(env.hash, i.signed, cfg.Keys(), i.wallet, commitment, version, i.receipt, clock)
    {
      var signed :- LoadReceipt(i.signed, cfg.Keys(), {V4_DIGEST_LEN}, clock);
      var built := BuildV4Preimage(i.wallet, commitment, version, i.receipt);
      var preimage :- built;
      :- Need(signed == env.hash(preimage), ReceiptCommitmentMismatch);
      :- CheckAge(i.receipt.validatedAt, clock);
      r := Ok(if i.receipt.sessionDigest.Some? then Some(Session(i.receipt.sessionDigest.value, i.receipt.tier))
              else None);
    }

    method AcceptClaim(env: Env, i: Instr, id: Identity, claim: Claim) returns (r: Result<Option<Session>, Error>)
      requires i.UpdateAnchor?
      ensures r == CheckClaim(env, cfg, clock, i, id, claim)
    {
      var commitment := claim.commitmentNew;
      :- Need(commitment != ZERO_KEY, InvalidCommitment);
      :- Need(i.expected.None? || i.expected == Some(commitment), CommitmentMismatch);
      :- Need(claim.commitmentPrev == id.commitment, PrevCommitmentMismatch);
      :- Need(commitment != claim.commitmentPrev, CommitmentUnchanged);
      var checked := CheckUpdateReceipt(env, i, commitment, id.version);
      var session :- checked;
      :- Need(i.receipt.validatedAt >= id.lastVerified, ReceiptAlreadyUsed);
      r := Ok(session);
    }

    /** The identity's own writes: the commitment, the count, the ring in place, and the score read
        off the ring. */
    method Rewrite(id: Identity, commitmentNew: Key) returns (r: Result<Identity, Error>)
      ensures r == Verified(id, commitmentNew, cfg, clock)
    {
      var now := clock;
      :- Need(id.count < U32_MAX, ArithmeticOverflow);
      var times := new i64[SLOTS](k requires 0 <= k < SLOTS => id.ring[k]);
      assert times[..] == id.ring;
      RecordVerification(times, now);
      var ring: Ring := times[..];
      var score := ComputeTrustScore(ring, now, id.created, cfg.baseTrustIncrement, cfg.maxTrustScore);
      :- Need(score.Some?, ArithmeticOverflow);
      r := Ok(id.(commitment := commitmentNew, count := id.count + 1, lastVerified := now, ring := ring,
                  score := score.value));
    }

    /** `process_anchor_update` */
    method UpdateIdentity(env: Env, i: Instr) returns (r: Result<Done, Error>)
      requires i.UpdateAnchor?
      modifies this`ids, this`counters, this`bound, this`plain
      ensures Answers(Update(env, old(State()), i), r)
    {
      var wallet := i.wallet;
      :- Need(i.fromBound == env.bound, UnsupportedProofGeneration);
      :- Need(wallet in ids, InvalidIdentityState);
      var id := ids[wallet];
      :- Need(id.owner == wallet, Unauthorized);
      :- Need(i.expected != Some(ZERO_KEY), InvalidCommitment);
      :- CheckWindow(id.version, cfg);
      var taken := TakeClaim(env, wallet, i.slot, id);
      var claim :- taken;
      var checked := AcceptClaim(env, i, id, claim);
      var _ :- checked;
      Close(i.slot, env.bound);
      var rewritten := Rewrite(id, claim.commitmentNew);
      var verified :- rewritten;
      ids := ids[wallet := verified];
      :- Need(i.paid, TransferFailed);
      r := Ok(Done);
    }

    /** Closing a result account, by its owner or on consumption. */
    method Close(slot: Slot, fromBound: bool)
      modifies this`bound, this`plain
      ensures bound == (if fromBound then old(bound) - {slot} else old(bound))
      ensures plain == (if fromBound then old(plain) else old(plain) - {slot})
    {
      if fromBound {
        bound := bound - {slot};
      } else {
        plain := plain - {slot};
      }
    }

    // --- Minting, resetting, rebaselining, moving ---

    method MintIdentity(env: Env, i: Instr) returns (r: Result<Done, Error>)
      requires i.MintAnchor?
      modifies this`ids, this`counters
      ensures Answers(Mint(env, old(State()), i), r)
    {
      var wallet := i.wallet;
      :- Need(wallet !in ids, AccountInUse);
      :- CheckExtra(env, i.extra, [env.counterPda(wallet)]);
      var advanced := Advance(env, wallet);
      var _ :- advanced;
      :- Need(i.commitment != ZERO_KEY, InvalidCommitment);
      :- Need(i.tokens, TransferFailed);
      // The account exists, with version zero, before the projection policy and the receipt are read.
      ids := ids[wallet := Newborn(env, wallet, i.commitment, 0, clock)];
      :- Need(cfg.minimum <= cfg.current, InvalidProtocolConfig);
      var session :- VerifyReceipt(i.signed, cfg.Keys(), wallet, i.commitment, ForMint, cfg.current, clock);
      ids := ids[wallet := ids[wallet].(version := cfg.current)];
      :- Need(i.paid, TransferFailed);
      r := Ok(Done);
    }

    method ResetIdentity(env: Env, i: Instr) returns (r: Result<Done, Error>)
      requires i.ResetAnchor?
      modifies this`ids, this`counters
      ensures Answers(Reset(env, old(State()), i), r)
    {
      var wallet, receipts := i.wallet, i.extra;
      if env.bound {
        :- Need(receipts != [] && receipts[|receipts| - 1] == env.counterPda(wallet), InvalidRequestContext);
        receipts := receipts[..|receipts| - 1];
      }
      var advanced := Advance(env, wallet);
      var _ :- advanced;
      :- Need(i.commitment != ZERO_KEY, InvalidCommitment);
      :- Need(wallet in ids, InvalidIdentityState);
      var id := ids[wallet];
      :- Need(id.owner == wallet, Unauthorized);
      :- Need(SatSub(clock, id.lastReset) >= RESET_COOLDOWN_SECS, ResetCooldownActive);
      :- Need(cfg.minimum <= cfg.current, InvalidProtocolConfig);
      :- Need(i.version == cfg.current, ProjectionVersionMismatch);
      :- Need(|receipts| == 1 && receipts[0] == env.sysvar, InvalidResetReceiptAccounts);
      var session :- VerifyReceipt(i.signed, cfg.Keys(), wallet, i.commitment, ForReset, cfg.current, clock);
      ids := ids[wallet := id.(commitment := i.commitment, count := 0, score := 0, ring := EMPTY_RING,
                               lastVerified := clock, lastReset := clock, version := cfg.current)];
      :- Need(i.paid, TransferFailed);
      r := Ok(Done);
    }

    method RebaselineIdentity(env: Env, i: Instr) returns (r: Result<Done, Error>)
      requires i.RebaselineAnchor?
      modifies this`ids, this`counters
      ensures Answers(Rebaseline(env, old(State()), i), r)
    {
      var counter := env.counterPda(i.wallet);
      :- CheckExtra(env, i.extra, [counter]);
      var advanced := Advance(env, i.wallet);
      var _ :- advanced;
      :- Need(i.commitment != ZERO_KEY, InvalidCommitment);
      :- Need(i.wallet in ids, InvalidIdentityState);
      var id := ids[i.wallet];
      :- Need(id.owner == i.wallet, Unauthorized);
      :- Need(cfg.minimum <= cfg.current, InvalidProtocolConfig);
      :- Need(i.version == cfg.current, ProjectionVersionMismatch);
      :- Need(id.version < cfg.current, ProjectionVersionNotAdvanced);
      :- Need(SatSub(clock, id.lastRebaseline) >= REBASELINE_COOLDOWN_SECS, RebaselineCooldownActive);
      var session :- VerifyReceipt(i.signed, cfg.Keys(), i.wallet, i.commitment, ForRebaseline, cfg.current, clock);
      ids := ids[i.wallet := id.(commitment := i.commitment, version := cfg.current, lastRebaseline := clock,
                                 lastVerified := clock)];
      :- Need(i.paid, TransferFailed);
      r := Ok(Done);
    }

    method MigrateIdentity(env: Env, i: Instr) returns (r: Result<Done, Error>)
      requires i.Migrate?
      modifies this`ids, this`counters
      ensures Answers(Migration(env, old(State()), i), r)
    {
      var wallet, user := i.wallet, i.user;
      :- Need(user !in ids, AccountInUse);
      :- Need(wallet in ids, AccountMissing);
      var past := ids[wallet];
      :- Need(env.bound ==> |i.extra| == 2, InvalidRequestContext);
      :- Need(env.bound ==> past.owner == wallet && past.newWallet == user, UnauthorizedNewWallet);
      :- Need(env.bound ==> i.extra[0] == env.counterPda(wallet), InvalidRequestContext);
      var first := Advance(env, wallet);
      var _ :- first;
      :- Need(env.bound ==> i.extra[1] == env.counterPda(user), InvalidRequestContext);
      var second := Advance(env, user);
      var _ :- second;
      :- Need(i.tokens, TransferFailed);
      :- Need(past.newWallet == user, UnauthorizedNewWallet);
      ids := ids[user := Identity(user, past.created, past.lastVerified, past.count, past.score, past.commitment,
                                    env.mintPda(user), env.bumpOf(user), past.ring, past.lastReset, ZERO_KEY,
                                    past.version, past.lastRebaseline)];
      :- Need(i.paid, TransferFailed);
      ids := ids - {wallet};
      r := Ok(Done);
    }

    // --- The runtime ---

    /** The registry's instructions, and the steps the clock and the loader take on their own. */
    method Administer(env: Env, i: Instr) returns (r: Result<Done, Error>)
      requires i.Tick? || i.Deploy? || i.Configure?
      modifies this`clock, this`programData, this`cfg
      ensures Answers(Exec(env, old(State()), i), r)
    {
      match i {
        case Tick(time) =>
          :- Need(time >= clock, ArithmeticOverflow);
          clock := time;
        case Deploy(data) =>
          programData := data;
        case Configure(op) =>
          :- Need(op.MigrateAdmin? ==> op.programData == programData, ProgramDataBytes);
          var next :- Config.Step(cfg, op, clock);
          cfg := next;
      }
      r := Ok(Done);
    }

    /** Preparing a counter, closing a result, and naming the next wallet. */
    method Maintain(env: Env, i: Instr) returns (r: Result<Done, Error>)
      requires i.Prepare? || i.CloseResult? || i.Authorize?
      modifies this`ids, this`counters, this`bound, this`plain
      ensures Answers(Exec(env, old(State()), i), r)
    {
      match i {
        case Prepare(wallet) =>
          :- Need(env.bound, UnsupportedProofGeneration);
          if wallet !in counters {
            counters := counters[wallet := 0];
          }
          assert counters == old(counters)[wallet := CounterOf(old(State()), wallet)];
        case CloseResult(wallet, nonce, fromBound) =>
          :- Need((wallet, nonce) in (if fromBound then bound.Keys else plain.Keys), AccountMissing);
          Close((wallet, nonce), fromBound);
        case Authorize(wallet, newWallet, paid) =>
          :- Need(wallet in ids, AccountMissing);
          ids := ids[wallet := ids[wallet].(newWallet := newWallet)];
          :- Need(paid, TransferFailed);
      }
      r := Ok(Done);
    }

    method Dispatch(env: Env, i: Instr) returns (r: Result<Done, Error>)
      modifies this
      ensures Answers(Exec(env, old(State()), i), r)
    {
      match i {
        case Tick(_) => r := Administer(env, i);
        case Deploy(_) => r := Administer(env, i);
        case Configure(_) => r := Administer(env, i);
        case Prepare(_) => r := Maintain(env, i);
        case CloseResult(_, _, _) => r := Maintain(env, i);
        case Authorize(_, _, _) => r := Maintain(env, i);
        case VerifyBound(_, _, _, _, _, _, _, _) => r := VerifyProofBound(env, i);
        case VerifyPlain(_, _, _, _) => r := VerifyProof(env, i);
        case MintAnchor(_, _, _, _, _, _) => r := MintIdentity(env, i);
        case UpdateAnchor(_, _, _, _, _, _, _) => r := UpdateIdentity(env, i);
        case ResetAnchor(_, _, _, _, _, _) => r := ResetIdentity(env, i);
        case RebaselineAnchor(_, _, _, _, _, _) => r := RebaselineIdentity(env, i);
        case Migrate(_, _, _, _, _) => r := MigrateIdentity(env, i);
      }
    }

    /** One instruction under the runtime, which restores every account when it fails: whatever a
        handler wrote before failing, the ledger takes exactly the step of the transition system. */
    method Execute(env: Env, i: Instr) returns (r: Result<Done, Error>)
      modifies this
      ensures State() == Step(env, old(State()), i)
      ensures r.Ok? <==> Exec(env, old(State()), i).Ok?
      ensures r.Err? ==> r.error == Exec(env, old(State()), i).error
    {
      var before := State();
      r := Dispatch(env, i);
      if r.Err? {
        clock, programData, cfg, ids := before.clock, before.programData, before.cfg, before.ids;
        counters, bound, plain := before.counters, before.bound, before.plain;
      }
    }

    /** A whole run. */
    method ExecuteAll(env: Env, run: seq<Instr>)
      modifies this
      ensures State() == Run(env, old(State()), run)
    {
      for n := 0 to |run|
        invariant State() == Run(env, old(State()), run[..n])
      {
        assert run[..n + 1][..n] == run[..n];
        var r := Execute(env, run[n]);
      }
      assert run[..|run|] == run;
    }
  }
}
