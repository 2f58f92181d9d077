/** What stands behind an accepted update, end to end: a recent proof for the identity as it now is
    and a recent signature of a key that was primary within the last day. */
module Provenance {
  import opened Bytes
  import opened Receipts
  import opened ProofRequest
  import opened Programs
  import opened Requests
  import opened Policy
  import Config

  // --- Stored results were proved ---

  /** What the earlier circuit is asked; sixteen-bit inputs are the numbers it saw. */
  ghost predicate Inputs(inputs: seq<Key>, claim: Claim) {
    && |inputs| == 4 && inputs[0] == claim.commitmentNew && inputs[1] == claim.commitmentPrev
    && BeValue(inputs[2]) == claim.threshold && BeValue(inputs[3]) == claim.minDistance
  }

  /** The instruction carries a proof for `slot` that the verifier accepts on the claim's own inputs;
      the earlier build has no digest. */
  ghost predicate ProofAccepted(env: Env, i: Instr, slot: Slot, claim: Claim, digest: Key) {
    if env.bound then
      && i.VerifyBound? && (i.wallet, i.nonce) == slot
      && exists inputs ::
           env.proves(i.proof, inputs)
           && SixInputs(inputs, claim.commitmentNew, claim.commitmentPrev, claim.threshold, claim.minDistance, digest)
    else
      && i.VerifyPlain? && (i.wallet, i.nonce) == slot
      && env.proves(i.proof, i.inputs) && Inputs(i.inputs, claim)
  }

  ghost predicate ProvedAtStep(env: Env, w: World, run: seq<Instr>, k: nat, slot: Slot, claim: Claim, digest: Key,
                               at: i64)
    requires k < |run|
  {
    Run(env, w, run[..k]).clock == at && ProofAccepted(env, run[k], slot, claim, digest)
  }

  /** A step of the run, taken at time `at`, proved the claim for this slot. */
  ghost predicate WasProved(env: Env, w: World, run: seq<Instr>, slot: Slot, claim: Claim, digest: Key, at: i64) {
    exists k :: 0 <= k < |run| && ProvedAtStep(env, w, run, k, slot, claim, digest, at)
  }

  function StoredDigest(env: Env, w: World, slot: Slot): Key
    requires Stored(env, w, slot)
  {
    if env.bound then w.bound[slot].digest else ZERO_KEY
  }

  function StoredTime(env: Env, w: World, slot: Slot): i64
    requires Stored(env, w, slot)
  {
    if env.bound then w.bound[slot].verifiedAt else w.plain[slot].verifiedAt
  }

  /** Every stored result was proved by the run, at the time it says. */
  ghost predicate AllProved(env: Env, w: World, run: seq<Instr>, now: World) {
    forall s :: Stored(env, now, s) ==>
      WasProved(env, w, run, s, ClaimAt(env, now, s), StoredDigest(env, now, s), StoredTime(env, now, s))
  }

  lemma NewPlainProved(env: Env, w: World, i: Instr, after: World)
    requires i.VerifyPlain? && PlainStored(env, w, i, after)
    ensures var slot := (i.wallet, i.nonce);
            ProofAccepted(env, i, slot, ClaimAt(env, after, slot), ZERO_KEY) && StoredTime(env, after, slot) == w.clock
  {
    DecodeU16Exact(i.inputs[2]);
    DecodeU16Exact(i.inputs[3]);
  }

  lemma NewBoundProved(env: Env, w: World, i: Instr, after: World)
    requires i.VerifyBound? && BoundStored(env, w, i, after)
    ensures var slot := (i.wallet, i.nonce);
            && ProofAccepted(env, i, slot, ClaimAt(env, after, slot), StoredDigest(env, after, slot))
            && StoredTime(env, after, slot) == w.clock
  {
    BoundInputsAre(i.commitmentNew, i.commitmentPrev, i.threshold, i.minDistance,
                   after.bound[(i.wallet, i.nonce)].digest);
  }

  /** A step stores nothing but what it verified. */
  lemma OtherResultsStay(env: Env, w: World, i: Instr, after: World, slot: Slot)
    requires Effect(env, w, i, after) && Stored(env, after, slot) && !Fills(i, slot)
    ensures Stored(env, w, slot) && ClaimAt(env, w, slot) == ClaimAt(env, after, slot)
    ensures StoredDigest(env, w, slot) == StoredDigest(env, after, slot)
    ensures StoredTime(env, w, slot) == StoredTime(env, after, slot)
  {
  }

  lemma NewResultProved(env: Env, w: World, i: Instr, after: World, slot: Slot)
    requires Effect(env, w, i, after) && Fills(i, slot)
    ensures Stored(env, after, slot) && StoredTime(env, after, slot) == w.clock
    ensures ProofAccepted(env, i, slot, ClaimAt(env, after, slot), StoredDigest(env, after, slot))
  {
    if i.VerifyPlain? {
      NewPlainProved(env, w, i, after);
    } else {
      NewBoundProved(env, w, i, after);
    }
  }

  lemma ProvedLater(env: Env, w: World, run: seq<Instr>, slot: Slot, claim: Claim, digest: Key, at: i64)
    requires run != [] && WasProved(env, w, run[..|run| - 1], slot, claim, digest, at)
    ensures WasProved(env, w, run, slot, claim, digest, at)
  {
    var front := run[..|run| - 1];
    var k :| 0 <= k < |front| && ProvedAtStep(env, w, front, k, slot, claim, digest, at);
    assert front[..k] == run[..k];
    assert ProvedAtStep(env, w, run, k, slot, claim, digest, at);
  }

  lemma {:induction false} SlotProved(env: Env, w: World, run: seq<Instr>, before: World, now: World, slot: Slot)
    requires run != [] && Run(env, w, run[..|run| - 1]) == before && Effect(env, before, run[|run| - 1], now)
    requires AllProved(env, w, run[..|run| - 1], before) && Stored(env, now, slot)
    ensures WasProved(env, w, run, slot, ClaimAt(env, now, slot), StoredDigest(env, now, slot),
                      StoredTime(env, now, slot))
  {
    var k := |run| - 1;
    if Fills(run[k], slot) {
      NewResultProved(env, before, run[k], now, slot);
      assert ProvedAtStep(env, w, run, k, slot, ClaimAt(env, now, slot), StoredDigest(env, now, slot), before.clock);
    } else {
      OtherResultsStay(env, before, run[k], now, slot);
      ProvedLater(env, w, run, slot, ClaimAt(env, now, slot), StoredDigest(env, now, slot), StoredTime(env, now, slot));
    }
  }

  lemma {:induction false} RunProved(env: Env, w: World, run: seq<Instr>)
    requires Initial(w)
    ensures AllProved(env, w, run, Run(env, w, run))
  {
    if run != [] {
      var front, last := run[..|run| - 1], run[|run| - 1];
      var before, now := Run(env, w, front), Run(env, w, run);
      RunProved(env, w, front);
      if Exec(env, before, last).Ok? {
        ExecEffect(env, before, last);
      }
      forall s | Stored(env, now, s)
        ensures WasProved(env, w, run, s, ClaimAt(env, now, s), StoredDigest(env, now, s), StoredTime(env, now, s))
      {
        if Exec(env, before, last).Ok? {
          SlotProved(env, w, run, before, now, s);
        } else {
          ProvedLater(env, w, run, s, ClaimAt(env, now, s), StoredDigest(env, now, s), StoredTime(env, now, s));
        }
      }
    }
  }

  // --- Every update was proved ---

  /** The request an update's proof was made for, naming every part of the identity it binds. */
  function DigestFor(env: Env, wallet: Key, nonce: Key, mint: Key, counter: u64, version: u16, claim: Claim,
                     validUntil: u64)
    : Option<Key>
  {
    RequestDigest(env.hash, Context(env.deployment, env.verifierId, env.anchorId, wallet, nonce),
                  Action(env.identityPda(wallet), mint, counter, version, claim.commitmentNew, claim.commitmentPrev,
                         claim.threshold, claim.minDistance, validUntil))
  }

  /** The proof behind an update was accepted by a step of the run, recently; in the bound build its
      digest names the wallet, its counter and its identity exactly as they now stand. */
  ghost predicate ProvedTo(env: Env, w: World, run: seq<Instr>, now: World, i: Instr, stored: Key)
    requires i.UpdateAnchor?
  {
    && i.wallet in now.ids && Stored(env, now, i.slot) && i.slot.0 == i.wallet
    && var id, claim, at := now.ids[i.wallet], ClaimAt(env, now, i.slot), StoredTime(env, now, i.slot);
    && claim.commitmentPrev == id.commitment && claim.commitmentNew == stored
    && 3 <= claim.minDistance < claim.threshold <= 96
    && WasProved(env, w, run, i.slot, claim, StoredDigest(env, now, i.slot), at)
    && (!env.bound ==> now.clock - 600 <= at <= now.clock)
    && (env.bound ==>
          && i.wallet in now.counters && now.clock - 300 <= at <= now.clock <= now.bound[i.slot].validUntil <= at + 300
          && DigestFor(env, i.wallet, i.slot.1, id.mint, now.counters[i.wallet], id.version, claim,
                       now.bound[i.slot].validUntil) == Some(StoredDigest(env, now, i.slot)))
  }

  lemma AcceptedProved(env: Env, w: World, run: seq<Instr>, now: World, i: Instr)
    requires WorldOk(env, now) && AllProved(env, w, run, now) && i.UpdateAnchor? && UpdateAccepted(env, now, i)
    ensures ProvedTo(env, w, run, now, i, ClaimAt(env, now, i.slot).commitmentNew)
  {
    if env.bound {
      assert BoundOk(env, now, i.slot, now.bound[i.slot]);
    } else {
      assert PlainOk(i.slot, now.plain[i.slot]);
    }
  }

  lemma DoneProvedTo(env: Env, w: World, run: seq<Instr>, now: World, i: Instr, after: World)
    requires WorldOk(env, now) && AllProved(env, w, run, now) && i.UpdateAnchor? && UpdateDone(env, now, i, after)
    ensures i.wallet in after.ids && ProvedTo(env, w, run, now, i, after.ids[i.wallet].commitment)
  {
    AcceptedProved(env, w, run, now, i);
  }

  /** Every accepted update of any run consumed a recent proof, accepted by a step of that run on the
      inputs themselves, from the identity's current commitment to its next one; in the bound build,
      a proof for this wallet's current counter, mint and projection. */
  lemma {:induction false} UpdateWasProved(env: Env, w: World, run: seq<Instr>, now: World, i: Instr, after: World)
    requires Initial(w) && Run(env, w, run) == now && i.UpdateAnchor? && Exec(env, now, i) == Ok(after)
    ensures i.wallet in after.ids && ProvedTo(env, w, run, now, i, after.ids[i.wallet].commitment)
  {
    InitialOk(env, w);
    RunOk(env, w, run);
    RunProved(env, w, run);
    ExecEffect(env, now, i);
    DoneProvedTo(env, w, run, now, i, after);
  }

  // --- Every update was signed for ---

  /** Some key that was primary within a day before `at` signed the digest of the update's receipt,
      which was then at most five minutes old. */
  ghost predicate UpdateSigned(env: Env, w: World, run: seq<Instr>, valid: Signatures,
                               wallet: Key, commitment: Key, version: u16, receipt: UpdateReceipt, at: i64)
  {
    && receipt.WellFormed() && at - MAX_RECEIPT_AGE_SECS <= receipt.validatedAt <= at
    && exists key: Key, sig ::
         && WasPrimary(env, w, run, key, at - Config.MAX_GRACE_PERIOD_SECS, at)
         && valid(key, env.hash(V4Bytes(wallet, commitment, version, receipt)), sig)
  }

  lemma UpdateChecked(env: Env, w: World, i: Instr)
    requires i.UpdateAnchor? && Update(env, w, i).Ok? && UpdateAccepted(env, w, i)
    ensures VerifyUpdateReceipt(env.hash, i.signed, w.cfg.Keys(), i.wallet, ClaimAt(env, w, i.slot).commitmentNew,
                                w.ids[i.wallet].version, i.receipt, w.clock).Ok?
  {
  }

  lemma UpdateReceiptWasSigned(env: Env, w: World, run: seq<Instr>, now: World, i: Instr, valid: Signatures,
                               commitment: Key, version: u16)
    requires Initial(w) && Run(env, w, run) == now && i.UpdateAnchor? && Screened(i.signed, valid)
    requires VerifyUpdateReceipt(env.hash, i.signed, now.cfg.Keys(), i.wallet, commitment, version, i.receipt,
                                 now.clock).Ok?
    ensures UpdateSigned(env, w, run, valid, i.wallet, commitment, version, i.receipt, now.clock)
  {
    var key, sig := LoadedWasSigned(env, w, run, now, i.signed, valid, {V4_DIGEST_LEN});
    assert valid(key, env.hash(V4Bytes(i.wallet, commitment, version, i.receipt)), sig);
  }

  /** Every accepted update of any run was signed for, wallet, commitment, projection and session. */
  lemma {:induction false} UpdateWasSigned(env: Env, w: World, run: seq<Instr>, now: World, i: Instr, valid: Signatures)
    requires Initial(w) && Run(env, w, run) == now && i.UpdateAnchor? && Exec(env, now, i).Ok?
             && Screened(i.signed, valid)
    ensures i.wallet in now.ids && Stored(env, now, i.slot)
    ensures UpdateSigned(env, w, run, valid, i.wallet, ClaimAt(env, now, i.slot).commitmentNew,
                         now.ids[i.wallet].version, i.receipt, now.clock)
  {
    UpdateWasAccepted(env, now, i);
    UpdateChecked(env, now, i);
    UpdateReceiptWasSigned(env, w, run, now, i, valid, ClaimAt(env, now, i.slot).commitmentNew,
                           now.ids[i.wallet].version);
  }
}
