/** When each instruction succeeds, and what it then leaves, said of the state and the arguments alone:
    stored fields, times in seconds, message bytes. The transition system is none of the vocabulary
    here; each lemma is an if-and-only-if between it and these conditions. */
module Outcomes {
  import opened Bytes
  import opened Errors
  import opened Score
  import opened Receipts
  import opened ProofRequest
  import opened Identities
  import opened Programs
  import opened Requests
  import opened Provenance
  import opened Lineage
  import Config

  // --- Shared parts ---

  /** The bound build can still count one more use of the wallet's counter. */
  ghost predicate CanCount(env: Env, w: World, wallet: Key) {
    env.bound && wallet in w.counters ==> w.counters[wallet] < 0xFFFF_FFFF_FFFF_FFFF
  }

  /** The counters with one more use of the wallet's, where one can be counted; the earlier build has none. */
  function OneMore(env: Env, counters: map<Key, u64>, wallet: Key): map<Key, u64> {
    var n := if wallet in counters then counters[wallet] else 0;
    if env.bound && n < 0xFFFF_FFFF_FFFF_FFFF then counters[wallet := n + 1] else counters
  }

  lemma BumpedOneMore(env: Env, w: World, wallet: Key)
    ensures Bumped(env, w, wallet) == w.(counters := OneMore(env, w.counters, wallet))
  {
  }

  lemma AdvancedExactly(env: Env, w: World, wallet: Key)
    ensures Advanced(env, w, wallet).Ok? <==> CanCount(env, w, wallet)
    ensures Advanced(env, w, wallet).Ok? ==>
              Advanced(env, w, wallet).value == w.(counters := OneMore(env, w.counters, wallet))
  {
  }

  /** The message in front is this wallet's fresh receipt for a new baseline. */
  ghost predicate BaselineReceipt(w: World, signed: Option<seq<byte>>, wallet: Key, commitment: Key, purpose: Purpose) {
    && w.cfg.validator != ZERO_KEY && signed.Some?
    && exists message ::
         && WellSigned(signed.value, w.cfg.Keys(), {72, 103, 136}, w.clock, message)
         && PayloadBytes(message, wallet, commitment, purpose, w.cfg.current, w.clock)
  }

  lemma ReceiptExactly(w: World, signed: Option<seq<byte>>, wallet: Key, commitment: Key, purpose: Purpose)
    ensures VerifyReceipt(signed, w.cfg.Keys(), wallet, commitment, purpose, w.cfg.current, w.clock).Ok?
            <==> BaselineReceipt(w, signed, wallet, commitment, purpose)
  {
    var loaded := LoadReceipt(signed, w.cfg.Keys(), {72, 103, 136}, w.clock);
    if loaded.Ok? {
      LoadExactly(signed, w.cfg.Keys(), {72, 103, 136}, w.clock, loaded.value);
      PayloadExactly(loaded.value, wallet, commitment, purpose, w.cfg.current, w.clock);
    }
    if BaselineReceipt(w, signed, wallet, commitment, purpose) {
      var message :| WellSigned(signed.value, w.cfg.Keys(), {72, 103, 136}, w.clock, message)
                     && PayloadBytes(message, wallet, commitment, purpose, w.cfg.current, w.clock);
      LoadExactly(signed, w.cfg.Keys(), {72, 103, 136}, w.clock, message);
    }
  }

  // --- Updating ---

  /** The stored bound result is this wallet's at its present counter, unexpired, and its digest is that
      of the request for the identity as it stands. */
  ghost predicate BoundUsable(env: Env, w: World, wallet: Key, slot: Slot, id: Identity) {
    && slot in w.bound && wallet in w.counters
    && var r := w.bound[slot];
    && r.wallet == wallet && slot == (wallet, r.nonce) && r.nonce != ZERO_KEY
    && r.counter == w.counters[wallet] < 0xFFFF_FFFF_FFFF_FFFF
    && r.verifiedAt <= w.clock && 0 <= w.clock <= r.validUntil && 0 < r.validUntil
    && DigestFor(env, wallet, r.nonce, id.mint, r.counter, id.version,
                 Claim(r.commitmentNew, r.commitmentPrev, r.threshold, r.minDistance), r.validUntil) == Some(r.digest)
  }

  /** The stored result is this wallet's and at most ten minutes old. */
  ghost predicate PlainUsable(w: World, wallet: Key, slot: Slot) {
    && slot in w.plain
    && var r := w.plain[slot];
    && r.verifier == wallet && slot == (wallet, r.nonce) && r.nonce != ZERO_KEY
    && r.verifiedAt <= w.clock <= r.verifiedAt + 600
  }

  /** The signed digest is that of the receipt for this commitment; the receipt is at most five
      minutes old and not older than the identity's last verification. */
  ghost predicate UpdateReceiptUsable(env: Env, w: World, i: Instr, id: Identity, commitment: Key)
    requires i.UpdateAnchor?
  {
    && w.cfg.validator != ZERO_KEY && i.signed.Some?
    && WellSigned(i.signed.value, w.cfg.Keys(), {32}, w.clock,
                  env.hash(V4Bytes(i.wallet, commitment, id.version, i.receipt)))
    && i.receipt.tier <= 2 && i.receipt.sessionDigest != Some(ZERO_KEY)
    && w.clock - 300 <= i.receipt.validatedAt <= w.clock && id.lastVerified <= i.receipt.validatedAt
  }

  ghost predicate UpdateAllowed(env: Env, w: World, i: Instr)
    requires i.UpdateAnchor?
  {
    && i.fromBound == env.bound && i.wallet in w.ids
    && var id := w.ids[i.wallet];
    && id.owner == i.wallet && w.cfg.minimum <= id.version <= w.cfg.current
    && (if env.bound then BoundUsable(env, w, i.wallet, i.slot, id) else PlainUsable(w, i.wallet, i.slot))
    && var claim := ClaimAt(env, w, i.slot);
    && claim.commitmentPrev == id.commitment && claim.commitmentNew != id.commitment && claim.commitmentNew != ZERO_KEY
    && (i.expected == None || i.expected == Some(claim.commitmentNew))
    && UpdateReceiptUsable(env, w, i, id, claim.commitmentNew)
    && id.count < 0xFFFF_FFFF && I64_MIN <= w.clock - id.created <= I64_MAX
    && i.paid
  }

  /** The ring with this verification in it: a new newest entry if the last is a week old. */
  function RingAfter(ring: Ring, now: i64): Ring {
    if ring[0] == 0 || now - ring[0] >= 604_800 then [now] + ring[..51] else ring
  }

  ghost predicate UpdateLeaves(env: Env, w: World, i: Instr, after: World)
    requires i.UpdateAnchor? && i.wallet in w.ids && Stored(env, w, i.slot)
  {
    var id, ring := w.ids[i.wallet], RingAfter(w.ids[i.wallet].ring, w.clock);
    && i.wallet in after.ids && id.count < 0xFFFF_FFFF
    && IsScore(ring, w.clock, id.created, w.cfg.baseTrustIncrement, w.cfg.maxTrustScore, after.ids[i.wallet].score)
    && after.ids == w.ids[i.wallet := Identity(
         id.owner, id.created, w.clock, id.count + 1, after.ids[i.wallet].score, ClaimAt(env, w, i.slot).commitmentNew,
         id.mint, id.bump, ring, id.lastReset, id.newWallet, id.version, id.lastRebaseline)]
    && after.counters == OneMore(env, w.counters, i.wallet)
    && after.bound == (if env.bound then w.bound - {i.slot} else w.bound)
    && after.plain == (if env.bound then w.plain else w.plain - {i.slot})
    && after.clock == w.clock && after.cfg == w.cfg && after.programData == w.programData
  }

  lemma BoundUsableExactly(env: Env, w: World, wallet: Key, slot: Slot, id: Identity)
    ensures BoundClaim(env, w, wallet, slot, id).Ok? <==> BoundUsable(env, w, wallet, slot, id)
    ensures BoundClaim(env, w, wallet, slot, id).Ok? && env.bound ==>
              BoundClaim(env, w, wallet, slot, id).value == ClaimAt(env, w, slot)
  {
  }

  lemma PlainUsableExactly(env: Env, w: World, wallet: Key, slot: Slot)
    ensures PlainClaim(w, wallet, slot).Ok? <==> PlainUsable(w, wallet, slot)
    ensures PlainClaim(w, wallet, slot).Ok? && !env.bound ==> PlainClaim(w, wallet, slot).value == ClaimAt(env, w, slot)
  {
  }

  lemma UpdateReceiptExactly(env: Env, w: World, i: Instr, id: Identity, commitment: Key)
    requires i.UpdateAnchor?
    ensures VerifyUpdateReceipt(env.hash, i.signed, w.cfg.Keys(), i.wallet, commitment, id.version, i.receipt,
                                w.clock).Ok?
            && i.receipt.validatedAt >= id.lastVerified
            <==> UpdateReceiptUsable(env, w, i, id, commitment)
  {
    LoadExactly(i.signed, w.cfg.Keys(), {32}, w.clock, env.hash(V4Bytes(i.wallet, commitment, id.version, i.receipt)));
  }

  lemma ClaimExactly(env: Env, w: World, i: Instr, id: Identity, claim: Claim)
    requires i.UpdateAnchor?
    ensures i.expected != Some(ZERO_KEY) && CheckClaim(env, w.cfg, w.clock, i, id, claim).Ok?
            <==> && claim.commitmentPrev == id.commitment && claim.commitmentNew != id.commitment
                 && claim.commitmentNew != ZERO_KEY
                 && (i.expected == None || i.expected == Some(claim.commitmentNew))
                 && UpdateReceiptUsable(env, w, i, id, claim.commitmentNew)
  {
    UpdateReceiptExactly(env, w, i, id, claim.commitmentNew);
  }

  lemma RewriteExactly(id: Identity, commitmentNew: Key, cfg: Config.Config, now: i64)
    ensures var r, ring := Verified(id, commitmentNew, cfg, now), RingAfter(id.ring, now);
            && (r.Ok? <==> id.count < 0xFFFF_FFFF && I64_MIN <= now - id.created <= I64_MAX)
            && (r.Ok? ==>
                  && IsScore(ring, now, id.created, cfg.baseTrustIncrement, cfg.maxTrustScore, r.value.score)
                  && r.value == Identity(
                       id.owner, id.created, now, id.count + 1, r.value.score, commitmentNew, id.mint, id.bump, ring,
                       id.lastReset, id.newWallet, id.version, id.lastRebaseline))
  {
    assert Recorded(id.ring, now) == RingAfter(id.ring, now);
    ScoreMeans(RingAfter(id.ring, now), now, id.created, cfg.baseTrustIncrement, cfg.maxTrustScore);
  }

  function Taken(env: Env, w: World, i: Instr, id: Identity): Result<Claim, Error>
    requires i.UpdateAnchor?
  {
    if env.bound then BoundClaim(env, w, i.wallet, i.slot, id) else PlainClaim(w, i.wallet, i.slot)
  }

  lemma TakenExactly(env: Env, w: World, i: Instr, id: Identity)
    requires i.UpdateAnchor?
    ensures Taken(env, w, i, id).Ok?
            <==> if env.bound then BoundUsable(env, w, i.wallet, i.slot, id) else PlainUsable(w, i.wallet, i.slot)
    ensures Taken(env, w, i, id).Ok? ==>
              && Stored(env, w, i.slot) && Taken(env, w, i, id).value == ClaimAt(env, w, i.slot)
              && CanCount(env, w, i.wallet)
  {
    BoundUsableExactly(env, w, i.wallet, i.slot, id);
    PlainUsableExactly(env, w, i.wallet, i.slot);
  }

  /** The guards one after the other. */
  lemma UpdateGuards(env: Env, w: World, i: Instr, id: Identity, taken: Result<Claim, Error>)
    requires i.UpdateAnchor? && i.wallet in w.ids && w.ids[i.wallet] == id && taken == Taken(env, w, i, id)
    ensures Update(env, w, i).Ok?
            <==> && i.fromBound == env.bound && id.owner == i.wallet && i.expected != Some(ZERO_KEY)
                 && CheckWindow(id.version, w.cfg).Pass? && taken.Ok?
                 && CheckClaim(env, w.cfg, w.clock, i, id, taken.value).Ok?
                 && Verified(id, taken.value.commitmentNew, w.cfg, w.clock).Ok?
                 && i.paid && Advanced(env, w, i.wallet).Ok?
  {
  }

  lemma {:induction false} UpdateAllowedExactly(env: Env, w: World, i: Instr)
    requires i.UpdateAnchor?
    ensures Update(env, w, i).Ok? <==> UpdateAllowed(env, w, i)
  {
    if i.wallet in w.ids {
      var id := w.ids[i.wallet];
      var taken := Taken(env, w, i, id);
      UpdateGuards(env, w, i, id, taken);
      TakenExactly(env, w, i, id);
      AdvancedExactly(env, w, i.wallet);
      if taken.Ok? {
        ClaimExactly(env, w, i, id, taken.value);
        RewriteExactly(id, taken.value.commitmentNew, w.cfg, w.clock);
      }
    }
  }

  lemma UpdateDoneLeaves(env: Env, w: World, i: Instr, after: World)
    requires i.UpdateAnchor? && UpdateDone(env, w, i, after)
    ensures UpdateLeaves(env, w, i, after)
  {
    RewriteExactly(w.ids[i.wallet], ClaimAt(env, w, i.slot).commitmentNew, w.cfg, w.clock);
    BumpedOneMore(env, w, i.wallet);
  }

  /** An update succeeds exactly when it is allowed, and then stores the proved commitment, which is the
      expected one where one is named. */
  lemma {:induction false} UpdateExactly(env: Env, w: World, i: Instr)
    requires i.UpdateAnchor?
    ensures Exec(env, w, i).Ok? <==> UpdateAllowed(env, w, i)
    ensures Exec(env, w, i).Ok? ==>
              var after := Exec(env, w, i).value;
              && UpdateLeaves(env, w, i, after)
              && (i.expected.Some? ==> after.ids[i.wallet].commitment == i.expected.value)
  {
    UpdateAllowedExactly(env, w, i);
    if Update(env, w, i).Ok? {
      UpdateEffect(env, w, i);
      UpdateDoneLeaves(env, w, i, Update(env, w, i).value);
    }
  }

  // --- Verifying ---

  ghost predicate BoundAllowed(env: Env, w: World, i: Instr, digest: Key)
    requires i.VerifyBound?
  {
    && env.bound && (i.wallet, i.nonce) !in w.bound && i.wallet in w.ids && i.wallet in w.counters
    && i.nonce != ZERO_KEY
    && 0 <= w.clock <= i.validUntil <= w.clock + 300 && 0 < i.validUntil
    && 3 <= i.minDistance < i.threshold <= 96 && i.commitmentNew != ZERO_KEY && i.commitmentPrev != ZERO_KEY
    && var id := w.ids[i.wallet];
    && id.owner == i.wallet && id.commitment == i.commitmentPrev
    && id.bump == env.bumpOf(i.wallet) && id.mint == env.mintPda(i.wallet)
    && DigestFor(env, i.wallet, i.nonce, id.mint, w.counters[i.wallet], id.version,
                 Claim(i.commitmentNew, i.commitmentPrev, i.threshold, i.minDistance), i.validUntil) == Some(digest)
    && exists inputs ::
         && SixInputs(inputs, i.commitmentNew, i.commitmentPrev, i.threshold, i.minDistance, digest)
         && env.proves(i.proof, inputs)
  }

  lemma {:induction false} BoundWasAllowed(env: Env, w: World, i: Instr)
    requires i.VerifyBound? && Bound(env, w, i).Ok?
    ensures var digest := Bound(env, w, i).value.bound[(i.wallet, i.nonce)].digest;
            && BoundAllowed(env, w, i, digest)
            && Bound(env, w, i).value == w.(bound := w.bound[(i.wallet, i.nonce) := BoundResult(
                 i.wallet, i.nonce, i.commitmentNew, i.commitmentPrev, i.threshold, i.minDistance,
                 w.counters[i.wallet], i.validUntil, w.clock, digest)])
  {
    var digest := Bound(env, w, i).value.bound[(i.wallet, i.nonce)].digest;
    BoundInputsAre(i.commitmentNew, i.commitmentPrev, i.threshold, i.minDistance, digest);
  }

  lemma {:induction false} AllowedBound(env: Env, w: World, i: Instr, digest: Key)
    requires i.VerifyBound? && BoundAllowed(env, w, i, digest)
    ensures Bound(env, w, i).Ok?
  {
    BoundInputsAre(i.commitmentNew, i.commitmentPrev, i.threshold, i.minDistance, digest);
    var inputs :| SixInputs(inputs, i.commitmentNew, i.commitmentPrev, i.threshold, i.minDistance, digest)
                  && env.proves(i.proof, inputs);
    SixInputsUnique(inputs, BoundInputs(i.commitmentNew, i.commitmentPrev, i.threshold, i.minDistance, digest),
                    i.commitmentNew, i.commitmentPrev, i.threshold, i.minDistance, digest);
  }

  /** A bound verification succeeds exactly when the circuit accepts the proof on the six inputs of a
      request for the identity and counter as they stand, and stores that snapshot. */
  lemma {:induction false} BoundExactly(env: Env, w: World, i: Instr)
    requires i.VerifyBound?
    ensures Exec(env, w, i).Ok? <==> exists digest :: BoundAllowed(env, w, i, digest)
    ensures Exec(env, w, i).Ok? ==> exists digest ::
              && BoundAllowed(env, w, i, digest)
              && Exec(env, w, i).value == w.(bound := w.bound[(i.wallet, i.nonce) := BoundResult(
                   i.wallet, i.nonce, i.commitmentNew, i.commitmentPrev, i.threshold, i.minDistance,
                   w.counters[i.wallet], i.validUntil, w.clock, digest)])
  {
    if Bound(env, w, i).Ok? {
      BoundWasAllowed(env, w, i);
    }
    if digest :| BoundAllowed(env, w, i, digest) {
      AllowedBound(env, w, i, digest);
    }
  }

  ghost predicate PlainAllowed(env: Env, w: World, i: Instr)
    requires i.VerifyPlain?
  {
    && !env.bound && (i.wallet, i.nonce) !in w.plain && i.nonce != ZERO_KEY && |i.proof| == 256
    && |i.inputs| == 4 && i.inputs[0] != ZERO_KEY && i.inputs[1] != ZERO_KEY
    && 3 <= BeValue(i.inputs[3]) < BeValue(i.inputs[2]) <= 96
    && env.proves(i.proof, i.inputs)
  }

  /** The earlier verification succeeds exactly when the circuit accepts the proof on its four inputs,
      the last two being distances in bounds as whole field elements, and stores what they say. */
  lemma {:induction false} PlainExactly(env: Env, w: World, i: Instr)
    requires i.VerifyPlain?
    ensures Exec(env, w, i).Ok? <==> PlainAllowed(env, w, i)
    ensures Exec(env, w, i).Ok? ==>
              Exec(env, w, i).value == w.(plain := w.plain[(i.wallet, i.nonce) := PlainResult(
                i.wallet, i.nonce, w.clock, i.inputs[0], i.inputs[1], BeValue(i.inputs[2]), BeValue(i.inputs[3]))])
  {
    if |i.inputs| == 4 {
      DecodeU16Exact(i.inputs[2]);
      DecodeU16Exact(i.inputs[3]);
    }
  }

  // --- Minting, resetting, rebaselining, moving ---

  ghost predicate MintAllowed(env: Env, w: World, i: Instr)
    requires i.MintAnchor?
  {
    && i.wallet !in w.ids && (env.bound ==> i.extra == [env.counterPda(i.wallet)]) && CanCount(env, w, i.wallet)
    && i.commitment != ZERO_KEY && i.tokens && i.paid && w.cfg.minimum <= w.cfg.current
    && BaselineReceipt(w, i.signed, i.wallet, i.commitment, ForMint)
  }

  lemma MintAllowedExactly(env: Env, w: World, i: Instr)
    requires i.MintAnchor?
    ensures Mint(env, w, i).Ok? <==> MintAllowed(env, w, i)
  {
    ReceiptExactly(w, i.signed, i.wallet, i.commitment, ForMint);
    AdvancedExactly(env, w, i.wallet);
  }

  /** A mint succeeds exactly when it is allowed, and leaves a new identity at the current version. */
  lemma {:induction false} MintExactly(env: Env, w: World, i: Instr)
    requires i.MintAnchor?
    ensures Exec(env, w, i).Ok? <==> MintAllowed(env, w, i)
    ensures Exec(env, w, i).Ok? ==>
              Exec(env, w, i).value == w.(
                ids := w.ids[i.wallet := Identity(
                  i.wallet, w.clock, w.clock, 0, 0, i.commitment, env.mintPda(i.wallet), env.bumpOf(i.wallet),
                  EMPTY_RING, 0, ZERO_KEY, w.cfg.current, 0)],
                counters := OneMore(env, w.counters, i.wallet))
  {
    MintAllowedExactly(env, w, i);
    if Mint(env, w, i).Ok? {
      MintEffect(env, w, i);
      BumpedOneMore(env, w, i.wallet);
    }
  }

  ghost predicate ResetAllowed(env: Env, w: World, i: Instr)
    requires i.ResetAnchor?
  {
    && i.extra == (if env.bound then [env.sysvar, env.counterPda(i.wallet)] else [env.sysvar])
    && CanCount(env, w, i.wallet) && i.commitment != ZERO_KEY && i.wallet in w.ids
    && w.ids[i.wallet].owner == i.wallet && w.clock - w.ids[i.wallet].lastReset >= 604_800
    && w.cfg.minimum <= w.cfg.current == i.version
    && BaselineReceipt(w, i.signed, i.wallet, i.commitment, ForReset) && i.paid
  }

  lemma ResetExtra(env: Env, wallet: Key, extra: seq<Key>)
    ensures CheckState(env, wallet, extra).Pass? && ReceiptAccounts(env, extra) == [env.sysvar]
            <==> extra == (if env.bound then [env.sysvar, env.counterPda(wallet)] else [env.sysvar])
  {
    if env.bound && extra != [] {
      assert extra == extra[..|extra| - 1] + [extra[|extra| - 1]];
    }
  }

  lemma ResetAllowedExactly(env: Env, w: World, i: Instr)
    requires i.ResetAnchor?
    ensures Reset(env, w, i).Ok? <==> ResetAllowed(env, w, i)
  {
    ReceiptExactly(w, i.signed, i.wallet, i.commitment, ForReset);
    ResetExtra(env, i.wallet, i.extra);
    AdvancedExactly(env, w, i.wallet);
  }

  /** A reset succeeds exactly when it is allowed, and leaves the commitment and no reputation. */
  lemma {:induction false} ResetExactly(env: Env, w: World, i: Instr)
    requires i.ResetAnchor?
    ensures Exec(env, w, i).Ok? <==> ResetAllowed(env, w, i)
    ensures Exec(env, w, i).Ok? ==>
              var id := w.ids[i.wallet];
              Exec(env, w, i).value == w.(
                ids := w.ids[i.wallet := Identity(
                  id.owner, id.created, w.clock, 0, 0, i.commitment, id.mint, id.bump, EMPTY_RING, w.clock,
                  id.newWallet, w.cfg.current, id.lastRebaseline)],
                counters := OneMore(env, w.counters, i.wallet))
  {
    ResetAllowedExactly(env, w, i);
    if Reset(env, w, i).Ok? {
      ResetEffect(env, w, i);
      BumpedOneMore(env, w, i.wallet);
    }
  }

  ghost predicate RebaselineAllowed(env: Env, w: World, i: Instr)
    requires i.RebaselineAnchor?
  {
    && (env.bound ==> i.extra == [env.counterPda(i.wallet)])
    && CanCount(env, w, i.wallet) && i.commitment != ZERO_KEY && i.wallet in w.ids
    && w.ids[i.wallet].owner == i.wallet && w.clock - w.ids[i.wallet].lastRebaseline >= 604_800
    && w.cfg.minimum <= w.cfg.current == i.version && w.ids[i.wallet].version < w.cfg.current
    && BaselineReceipt(w, i.signed, i.wallet, i.commitment, ForRebaseline) && i.paid
  }

  lemma RebaselineAllowedExactly(env: Env, w: World, i: Instr)
    requires i.RebaselineAnchor?
    ensures Rebaseline(env, w, i).Ok? <==> RebaselineAllowed(env, w, i)
  {
    ReceiptExactly(w, i.signed, i.wallet, i.commitment, ForRebaseline);
    AdvancedExactly(env, w, i.wallet);
  }

  /** A rebaseline succeeds exactly when it is allowed, and leaves the reputation as it was. */
  lemma {:induction false} RebaselineExactly(env: Env, w: World, i: Instr)
    requires i.RebaselineAnchor?
    ensures Exec(env, w, i).Ok? <==> RebaselineAllowed(env, w, i)
    ensures Exec(env, w, i).Ok? ==>
              var id := w.ids[i.wallet];
              Exec(env, w, i).value == w.(
                ids := w.ids[i.wallet := Identity(
                  id.owner, id.created, w.clock, id.count, id.score, i.commitment, id.mint, id.bump, id.ring,
                  id.lastReset, id.newWallet, w.cfg.current, w.clock)],
                counters := OneMore(env, w.counters, i.wallet))
  {
    RebaselineAllowedExactly(env, w, i);
    if Rebaseline(env, w, i).Ok? {
      RebaselineEffect(env, w, i);
      BumpedOneMore(env, w, i.wallet);
    }
  }

  ghost predicate MigrateAllowed(env: Env, w: World, i: Instr)
    requires i.Migrate?
  {
    && i.user !in w.ids && i.wallet in w.ids && w.ids[i.wallet].newWallet == i.user
    && (env.bound ==> && i.extra == [env.counterPda(i.wallet), env.counterPda(i.user)]
                      && w.ids[i.wallet].owner == i.wallet)
    && CanCount(env, w, i.wallet) && CanCount(env, w, i.user) && i.tokens && i.paid
  }

  /** A migration succeeds exactly when it is allowed, and moves every reputation field. */
  lemma {:induction false} MigrateExactly(env: Env, w: World, i: Instr)
    requires i.Migrate?
    ensures Exec(env, w, i).Ok? <==> MigrateAllowed(env, w, i)
    ensures Exec(env, w, i).Ok? ==>
              var id := w.ids[i.wallet];
              Exec(env, w, i).value == w.(
                ids := w.ids[i.user := Identity(
                  i.user, id.created, id.lastVerified, id.count, id.score, id.commitment, env.mintPda(i.user),
                  env.bumpOf(i.user), id.ring, id.lastReset, ZERO_KEY, id.version, id.lastRebaseline)] - {i.wallet},
                counters := OneMore(env, OneMore(env, w.counters, i.wallet), i.user))
  {
  }

  // --- The smaller instructions ---

  /** Closing removes exactly what stands at the wallet's own slot; preparing gives an absent counter
      zero and changes none; authorising writes the one field. */
  lemma {:induction false} SmallExactly(env: Env, w: World, i: Instr)
    requires i.CloseResult? || i.Prepare? || i.Authorize?
    ensures i.CloseResult? ==>
              var slot := (i.wallet, i.nonce);
              && (Exec(env, w, i).Ok? <==> slot in (if i.fromBound then w.bound.Keys else w.plain.Keys))
              && (Exec(env, w, i).Ok? ==>
                    Exec(env, w, i).value
                    == if i.fromBound then w.(bound := map s | s in w.bound && s != slot :: w.bound[s])
                       else w.(plain := map s | s in w.plain && s != slot :: w.plain[s]))
    ensures i.Prepare? ==>
              && (Exec(env, w, i).Ok? <==> env.bound)
              && (env.bound ==>
                    Exec(env, w, i).value
                    == if i.wallet in w.counters then w else w.(counters := w.counters[i.wallet := 0]))
    ensures i.Authorize? ==>
              && (Exec(env, w, i).Ok? <==> i.wallet in w.ids && i.paid)
              && (Exec(env, w, i).Ok? ==>
                    Exec(env, w, i).value
                    == w.(ids := w.ids[i.wallet := w.ids[i.wallet].(newWallet := i.newWallet)]))
  {
    if i.CloseResult? {
      assert w.bound - {(i.wallet, i.nonce)} == map s | s in w.bound && s != (i.wallet, i.nonce) :: w.bound[s];
      assert w.plain - {(i.wallet, i.nonce)} == map s | s in w.plain && s != (i.wallet, i.nonce) :: w.plain[s];
    }
    if i.Prepare? && i.wallet in w.counters {
      assert w.counters[i.wallet := w.counters[i.wallet]] == w.counters;
    }
  }

  /** The version window moves up to exactly the two numbers asked for, and an identity may update
      exactly while its version lies between them. */
  lemma {:induction false} VersionsExactly(env: Env, w: World, i: Instr, version: u16)
    requires i.Configure? && i.op.SetVersions?
    ensures Exec(env, w, i).Ok?
            <==> && i.op.admin == w.cfg.admin && w.cfg.minimum <= w.cfg.current
                 && w.cfg.current <= i.op.newCurrent && w.cfg.minimum <= i.op.newMinimum <= i.op.newCurrent
    ensures Exec(env, w, i).Ok? ==>
              && Exec(env, w, i).value == w.(cfg := w.cfg.(current := i.op.newCurrent, minimum := i.op.newMinimum))
              && (CheckWindow(version, Exec(env, w, i).value.cfg).Pass?
                  <==> i.op.newMinimum <= version <= i.op.newCurrent)
  {
  }

  // --- In reachable states ---

  lemma {:induction false} Reachable(env: Env, w: World, run: seq<Instr>, now: World, wallet: Key)
    requires Initial(w) && Run(env, w, run) == now && wallet in now.ids
    ensures WorldOk(env, now) && IdentityOk(env, now.cfg, wallet, now.ids[wallet])
    ensures 0 < now.ids[wallet].created <= now.clock
  {
    RunRecorded(env, w, run);
    var life := Lives(env, w, run)[wallet];
    assert LifeOk(now.ids[wallet], life, now.clock);
    LifeTimes(life);
  }

  /** A proof is never wasted by anything but time and its wallet's own doings: while the counter stands
      where it stood, an unexpired stored result with a usable receipt is accepted, whatever ran since. */
  lemma {:induction false} CurrentProofUpdates(env: Env, w: World, run: seq<Instr>, now: World, i: Instr)
    requires env.bound && Initial(w) && Run(env, w, run) == now && i.UpdateAnchor? && i.fromBound && i.paid
    requires i.slot in now.bound && i.wallet in now.ids
    requires var r, id := now.bound[i.slot], now.ids[i.wallet];
             && r.wallet == i.wallet && r.counter == CounterOf(now, i.wallet) < 0xFFFF_FFFF_FFFF_FFFF
             && now.clock <= r.validUntil && r.commitmentNew != r.commitmentPrev && now.cfg.minimum <= id.version
             && (i.expected == None || i.expected == Some(r.commitmentNew)) && id.count < 0xFFFF_FFFF
             && UpdateReceiptUsable(env, now, i, id, r.commitmentNew)
    ensures Exec(env, now, i).Ok? && i.wallet in Exec(env, now, i).value.ids
    ensures Exec(env, now, i).value.ids[i.wallet].commitment == now.bound[i.slot].commitmentNew
  {
    Reachable(env, w, run, now, i.wallet);
    assert BoundOk(env, now, i.slot, now.bound[i.slot]);
    CurrentIsUsable(env, now, i.slot);
    UpdateExactly(env, now, i);
  }

  lemma CurrentIsUsable(env: Env, now: World, slot: Slot)
    requires slot in now.bound && BoundOk(env, now, slot, now.bound[slot]) && now.clock > 0
    requires var r := now.bound[slot];
             r.counter == CounterOf(now, r.wallet) < 0xFFFF_FFFF_FFFF_FFFF && now.clock <= r.validUntil
    ensures var r := now.bound[slot];
            r.wallet in now.ids && BoundUsable(env, now, r.wallet, slot, now.ids[r.wallet])
  {
  }

  /** Any identity of any reachable state can be reset, once a week, with a receipt for the present version. */
  lemma {:induction false} ReachableReset(env: Env, w: World, run: seq<Instr>, now: World, i: Instr)
    requires Initial(w) && Run(env, w, run) == now && i.ResetAnchor? && i.wallet in now.ids
    ensures Exec(env, now, i).Ok?
            <==> && i.extra == (if env.bound then [env.sysvar, env.counterPda(i.wallet)] else [env.sysvar])
                 && CanCount(env, now, i.wallet) && i.commitment != ZERO_KEY && i.version == now.cfg.current
                 && now.clock - now.ids[i.wallet].lastReset >= 604_800
                 && BaselineReceipt(now, i.signed, i.wallet, i.commitment, ForReset) && i.paid
  {
    Reachable(env, w, run, now, i.wallet);
    ResetExactly(env, now, i);
  }

  /** And rebaselined, once a week, if its version is behind. */
  lemma {:induction false} ReachableRebaseline(env: Env, w: World, run: seq<Instr>, now: World, i: Instr)
    requires Initial(w) && Run(env, w, run) == now && i.RebaselineAnchor? && i.wallet in now.ids
    ensures Exec(env, now, i).Ok?
            <==> && (env.bound ==> i.extra == [env.counterPda(i.wallet)])
                 && CanCount(env, now, i.wallet) && i.commitment != ZERO_KEY
                 && now.ids[i.wallet].version < now.cfg.current == i.version
                 && now.clock - now.ids[i.wallet].lastRebaseline >= 604_800
                 && BaselineReceipt(now, i.signed, i.wallet, i.commitment, ForRebaseline) && i.paid
  {
    Reachable(env, w, run, now, i.wallet);
    RebaselineExactly(env, now, i);
  }

  /** And moved, to the free wallet it names. */
  lemma {:induction false} ReachableMigrate(env: Env, w: World, run: seq<Instr>, now: World, i: Instr)
    requires Initial(w) && Run(env, w, run) == now && i.Migrate? && i.wallet in now.ids
    ensures Exec(env, now, i).Ok?
            <==> && i.user !in now.ids && now.ids[i.wallet].newWallet == i.user
                 && (env.bound ==> i.extra == [env.counterPda(i.wallet), env.counterPda(i.user)])
                 && CanCount(env, now, i.wallet) && CanCount(env, now, i.user) && i.tokens && i.paid
  {
    Reachable(env, w, run, now, i.wallet);
    MigrateExactly(env, now, i);
  }
}
