/** Using an update receipt twice: exactly when it works, and a run in which it does. */
module Reuse {
  import opened Bytes
  import opened Receipts
  import opened ProofRequest
  import opened Identities
  import opened Programs
  import opened Policy
  import Config

  // --- The exact condition ---

  /** The state in which the identity of `wallet` has no record of when it was last verified. */
  function Forgetting(w: World, wallet: Key): World
    requires wallet in w.ids
  {
    w.(ids := w.ids[wallet := w.ids[wallet].(lastVerified := I64_MIN)])
  }

  lemma ForgettingClaim(env: Env, w: World, i: Instr)
    requires i.UpdateAnchor? && i.wallet in w.ids
    ensures var id, blank := w.ids[i.wallet], Forgetting(w, i.wallet);
            && BoundClaim(env, blank, i.wallet, i.slot, blank.ids[i.wallet]) == BoundClaim(env, w, i.wallet, i.slot, id)
            && PlainClaim(blank, i.wallet, i.slot) == PlainClaim(w, i.wallet, i.slot)
  {
  }

  lemma ForgettingRewrite(id: Identity, commitment: Key, cfg: Config.Config, now: i64)
    ensures Verified(id, commitment, cfg, now).Ok? <==> Verified(id.(lastVerified := I64_MIN), commitment, cfg, now).Ok?
  {
  }

  lemma ForgettingCheck(env: Env, cfg: Config.Config, now: i64, i: Instr, id: Identity, claim: Claim)
    requires i.UpdateAnchor? && id.lastVerified <= i.receipt.validatedAt
    ensures CheckClaim(env, cfg, now, i, id.(lastVerified := I64_MIN), claim) == CheckClaim(env, cfg, now, i, id, claim)
  {
  }

  /** The time of the last verification decides nothing but the reuse check. */
  lemma ForgettingUpdate(env: Env, w: World, i: Instr)
    requires i.UpdateAnchor? && i.wallet in w.ids && w.ids[i.wallet].lastVerified <= i.receipt.validatedAt
    ensures Update(env, w, i).Ok? <==> Update(env, Forgetting(w, i.wallet), i).Ok?
  {
    var id := w.ids[i.wallet];
    var taken := if env.bound then BoundClaim(env, w, i.wallet, i.slot, id) else PlainClaim(w, i.wallet, i.slot);
    ForgettingClaim(env, w, i);
    if taken.Ok? {
      ForgettingCheck(env, w.cfg, w.clock, i, id, taken.value);
      ForgettingRewrite(id, taken.value.commitmentNew, w.cfg, w.clock);
    }
  }

  lemma LastVerifiedSince(env: Env, w: World, first: Instr, run: seq<Instr>)
    requires first.UpdateAnchor? && Exec(env, w, first).Ok? && NoneMovesIn(run, first.wallet)
    ensures first.receipt.validatedAt <= w.clock
    ensures VerifiedSince(Run(env, Step(env, w, first), run), first.wallet, w.clock)
  {
    ExecEffect(env, w, first);
    assert VerifiedSince(Step(env, w, first), first.wallet, w.clock);
    RunVerifiedSince(env, Step(env, w, first), run, first.wallet, w.clock);
  }

  /** A receipt once accepted is accepted again, while nobody migrates in, exactly when it was
      validated in the very second it was first used, nothing has verified, reset or rebaselined the
      identity in a later second, and every other check passes. */
  lemma {:induction false} ReceiptReusedExactly(env: Env, w: World, first: Instr, run: seq<Instr>, again: Instr)
    requires first.UpdateAnchor? && Exec(env, w, first).Ok? && NoneMovesIn(run, first.wallet)
    requires again.UpdateAnchor? && again.wallet == first.wallet && again.receipt == first.receipt
    ensures var now := Run(env, Step(env, w, first), run);
            Exec(env, now, again).Ok?
            <==> again.wallet in now.ids
                 && first.receipt.validatedAt == w.clock == now.ids[again.wallet].lastVerified
                 && Exec(env, Forgetting(now, again.wallet), again).Ok?
  {
    var now := Run(env, Step(env, w, first), run);
    LastVerifiedSince(env, w, first, run);
    if again.wallet in now.ids && now.ids[again.wallet].lastVerified <= again.receipt.validatedAt {
      ForgettingUpdate(env, now, again);
    }
    if Update(env, now, again).Ok? {
      UpdateWasAccepted(env, now, again);
    }
  }

  // --- A run that uses one twice ---

  const NOW: i64 := 1000

  function Filler(b: byte): Key {
    seq(32, _ => b)
  }

  const WALLET: Key := Filler(8)
  const VALIDATOR: Key := Filler(7)
  const CFG := Config.Config(ZERO_KEY, 0, 0, 100, 1, 0, 0, 0, VALIDATOR, 0, 0, ZERO_KEY, ZERO_KEY, 0)

  /** The earlier build, with a hash under which a receipt's digest is its commitment. */
  function Deployment(): Env {
    Env(false, ZERO_KEY, ZERO_KEY, ZERO_KEY, (s: seq<byte>) => if |s| == 136 then s[63..95] else ZERO_KEY,
        k => k, k => k, k => 0, k => k, ZERO_KEY, (proof, inputs) => true)
  }

  function SignedBy(key: Key, message: seq<byte>): seq<byte>
    requires |message| < 256
  {
    [1, 0, 0, 0, 255, 255, 16, 0, 255, 255, 48, 0, |message|, 0, 255, 255] + key + message
  }

  lemma SignedLoads(message: seq<byte>, sizes: set<nat>)
    requires |message| in sizes && |message| < 256
    ensures LoadReceipt(Some(SignedBy(VALIDATOR, message)), CFG.Keys(), sizes, NOW) == Ok(message)
  {
    var data := SignedBy(VALIDATOR, message);
    assert VALIDATOR[0] != ZERO_KEY[0];
    assert data[16..48] == VALIDATOR && data[48..48 + |message|] == message;
  }

  const RECEIPT := UpdateReceipt(NOW, 0, None)

  function SlotOf(nonce: byte): Slot {
    (WALLET, Filler(nonce))
  }

  /** The update that consumes the proof at `nonce` under the receipt for commitment `to`. */
  function UpdateTo(nonce: byte, to: byte): (i: Instr)
    ensures i.UpdateAnchor?
  {
    UpdateAnchor(WALLET, SlotOf(nonce), false, None, RECEIPT, Some(SignedBy(VALIDATOR, Filler(to))), true)
  }

  function Proved(nonce: byte, from: byte, to: byte): PlainResult {
    PlainResult(WALLET, Filler(nonce), NOW, Filler(to), Filler(from), 96, 3)
  }

  function VerifyStep(nonce: byte, from: byte, to: byte): Instr {
    VerifyPlain(WALLET, Filler(nonce), Zeros(256), [Filler(to), Filler(from), U16Field(96), U16Field(3)])
  }

  /** The wallet's identity stands at `commitment`, last verified now. */
  ghost predicate At(w: World, commitment: byte, updates: nat) {
    && w.clock == NOW && w.cfg == CFG && WALLET in w.ids
    && var id := w.ids[WALLET];
    && id.owner == WALLET && id.version == 0 && id.created == NOW && id.lastVerified == NOW
    && id.commitment == Filler(commitment) && id.count == updates
  }

  /** The instruction succeeds, and leaves the identity at `commitment` and these results stored. */
  ghost predicate Succeeds(w: World, i: Instr, commitment: byte, updates: nat, plain: map<Slot, PlainResult>) {
    var r := Exec(Deployment(), w, i);
    r.Ok? && At(r.value, commitment, updates) && r.value.plain == plain
  }

  function MintFirst(): Instr {
    MintAnchor(WALLET, Filler(1), [], Some(SignedBy(VALIDATOR, V1Message(WALLET, Filler(1), NOW))), true, true)
  }

  lemma MintReceiptAccepted()
    ensures VerifyReceipt(Some(SignedBy(VALIDATOR, V1Message(WALLET, Filler(1), NOW))), CFG.Keys(), WALLET, Filler(1),
                          ForMint, 0, NOW) == Ok(None)
  {
    SignedLoads(V1Message(WALLET, Filler(1), NOW), {V1_LEN, V2_LEN, V3_LEN});
    V1Accepted(WALLET, Filler(1), NOW, NOW);
  }

  /** In the earlier build these checks are all a mint makes. */
  lemma PlainMintOk(env: Env, w: World, i: Instr)
    requires !env.bound && i.MintAnchor? && i.wallet !in w.ids && i.commitment != ZERO_KEY && i.tokens && i.paid
    requires w.cfg.minimum <= w.cfg.current
    requires VerifyReceipt(i.signed, w.cfg.Keys(), i.wallet, i.commitment, ForMint, w.cfg.current, w.clock).Ok?
    ensures Exec(env, w, i)
            == Ok(w.(ids := w.ids[i.wallet := Newborn(env, i.wallet, i.commitment, w.cfg.current, w.clock)]))
  {
  }

  lemma MintSucceeds(w: World)
    requires w.clock == NOW && w.cfg == CFG && WALLET !in w.ids
    ensures Succeeds(w, MintFirst(), 1, 0, w.plain)
  {
    MintReceiptAccepted();
    assert Filler(1)[0] != ZERO_KEY[0];
    PlainMintOk(Deployment(), w, MintFirst());
  }

  lemma VerifySucceeds(w: World, commitment: byte, updates: nat, nonce: byte, from: byte, to: byte)
    requires At(w, commitment, updates) && nonce != 0 && from != 0 && to != 0 && SlotOf(nonce) !in w.plain
    ensures Succeeds(w, VerifyStep(nonce, from, to), commitment, updates,
                     w.plain[SlotOf(nonce) := Proved(nonce, from, to)])
  {
    assert Filler(nonce)[0] != ZERO_KEY[0] && Filler(from)[0] != ZERO_KEY[0] && Filler(to)[0] != ZERO_KEY[0];
    U16FieldRoundTrip(96);
    DecodeU16Exact(U16Field(96));
    U16FieldRoundTrip(3);
    DecodeU16Exact(U16Field(3));
    assert Exec(Deployment(), w, VerifyStep(nonce, from, to))
           == Ok(w.(plain := w.plain[SlotOf(nonce) := Proved(nonce, from, to)]));
  }

  lemma ReceiptAccepted(to: byte)
    ensures VerifyUpdateReceipt(Deployment().hash, Some(SignedBy(VALIDATOR, Filler(to))), CFG.Keys(), WALLET,
                                Filler(to), 0, RECEIPT, NOW) == Ok(None)
  {
    SignedLoads(Filler(to), {V4_DIGEST_LEN});
    var preimage := V4Bytes(WALLET, Filler(to), 0, RECEIPT);
    assert preimage[63..95] == Filler(to);
  }

  lemma ClaimAccepted(id: Identity, nonce: byte, from: byte, to: byte)
    requires id.commitment == Filler(from) && id.version == 0 && id.lastVerified == NOW && to != 0 && from != to
    ensures CheckClaim(Deployment(), CFG, NOW, UpdateTo(nonce, to), id, Claim(Filler(to), Filler(from), 96, 3))
            == Ok(None)
  {
    ReceiptAccepted(to);
    assert Filler(to)[0] != ZERO_KEY[0] && Filler(from)[0] != Filler(to)[0];
  }

  /** In the earlier build these checks are all an update makes. */
  lemma PlainUpdateOk(env: Env, w: World, i: Instr, claim: Claim, verified: Identity)
    requires !env.bound && i.UpdateAnchor? && !i.fromBound && i.expected.None? && i.paid
    requires i.wallet in w.ids && w.ids[i.wallet].owner == i.wallet
    requires CheckWindow(w.ids[i.wallet].version, w.cfg).Pass?
    requires PlainClaim(w, i.wallet, i.slot) == Ok(claim)
    requires CheckClaim(env, w.cfg, w.clock, i, w.ids[i.wallet], claim).Ok?
    requires Verified(w.ids[i.wallet], claim.commitmentNew, w.cfg, w.clock) == Ok(verified)
    ensures Exec(env, w, i) == Ok(w.(ids := w.ids[i.wallet := verified], plain := w.plain - {i.slot}))
  {
  }

  lemma ClaimTaken(w: World, nonce: byte, from: byte, to: byte)
    requires w.clock == NOW && nonce != 0
    requires SlotOf(nonce) in w.plain && w.plain[SlotOf(nonce)] == Proved(nonce, from, to)
    ensures PlainClaim(w, WALLET, SlotOf(nonce)) == Ok(Claim(Filler(to), Filler(from), 96, 3))
  {
    assert Filler(nonce)[0] != ZERO_KEY[0];
  }

  lemma Rewritten(id: Identity, to: byte)
    requires id.count < 3 && id.created == NOW
    ensures var r := Verified(id, Filler(to), CFG, NOW);
            r.Ok? && r.value == id.(commitment := Filler(to), count := id.count + 1, lastVerified := NOW,
                                    ring := r.value.ring, score := r.value.score)
  {
  }

  lemma UpdateSucceeds(w: World, nonce: byte, from: byte, to: byte, updates: nat)
    requires At(w, from, updates) && updates < 3 && nonce != 0 && to != 0 && from != to
    requires SlotOf(nonce) in w.plain && w.plain[SlotOf(nonce)] == Proved(nonce, from, to)
    ensures Succeeds(w, UpdateTo(nonce, to), to, updates + 1, w.plain - {SlotOf(nonce)})
  {
    var i, id, claim := UpdateTo(nonce, to), w.ids[WALLET], Claim(Filler(to), Filler(from), 96, 3);
    ClaimTaken(w, nonce, from, to);
    ClaimAccepted(id, nonce, from, to);
    Rewritten(id, to);
    PlainUpdateOk(Deployment(), w, i, claim, Verified(id, Filler(to), CFG, NOW).value);
  }

  lemma RunStep(env: Env, w: World, run: seq<Instr>, i: Instr)
    ensures Run(env, w, run + [i]) == Step(env, Run(env, w, run), i)
  {
    assert (run + [i])[..|run|] == run;
  }

  /** In one second an identity goes from 1 to 2 and on to 3, and back to 2 with the first receipt:
      the third update repeats the first one's receipt and signature, and all three succeed. */
  lemma ReceiptServesTwice() returns (w: World, run: seq<Instr>)
    ensures Initial(w) && UpdateTo(6, 2).receipt == UpdateTo(4, 2).receipt
            && UpdateTo(6, 2).signed == UpdateTo(4, 2).signed
    ensures var env := Deployment();
            var start := Run(env, w, run);
            var second := Step(env, start, UpdateTo(4, 2));
            var third := Step(env, second, UpdateTo(5, 3));
            && At(start, 1, 0) && Exec(env, start, UpdateTo(4, 2)).Ok?
            && At(second, 2, 1) && Exec(env, second, UpdateTo(5, 3)).Ok?
            && At(third, 3, 2) && Exec(env, third, UpdateTo(6, 2)).Ok?
  {
    var env := Deployment();
    w := World(NOW, [], CFG, map[], map[], map[], map[]);
    assert VALIDATOR[0] != ZERO_KEY[0];
    assert Config.Initialized(ZERO_KEY, 0, 0, 100, 1, 0, 0, VALIDATOR) == Ok(w.cfg);
    var mint := MintFirst();
    MintSucceeds(w);
    var w1 := Step(env, w, mint);
    Distinct();
    VerifySucceeds(w1, 1, 0, 4, 1, 2);
    var w2 := Step(env, w1, VerifyStep(4, 1, 2));
    VerifySucceeds(w2, 1, 0, 5, 2, 3);
    var w3 := Step(env, w2, VerifyStep(5, 2, 3));
    VerifySucceeds(w3, 1, 0, 6, 3, 2);
    var start := Step(env, w3, VerifyStep(6, 3, 2));
    run := [] + [mint] + [VerifyStep(4, 1, 2)] + [VerifyStep(5, 2, 3)] + [VerifyStep(6, 3, 2)];
    RunStep(env, w, [], mint);
    RunStep(env, w, [] + [mint], VerifyStep(4, 1, 2));
    RunStep(env, w, [] + [mint] + [VerifyStep(4, 1, 2)], VerifyStep(5, 2, 3));
    RunStep(env, w, [] + [mint] + [VerifyStep(4, 1, 2)] + [VerifyStep(5, 2, 3)], VerifyStep(6, 3, 2));
    ThreeUpdates(start);
  }

  lemma Distinct()
    ensures SlotOf(4) != SlotOf(5) && SlotOf(4) != SlotOf(6) && SlotOf(5) != SlotOf(6)
  {
    assert SlotOf(4).1[0] == 4 && SlotOf(5).1[0] == 5 && SlotOf(6).1[0] == 6;
  }

  lemma ThreeUpdates(start: World)
    requires At(start, 1, 0)
    requires SlotOf(4) in start.plain && start.plain[SlotOf(4)] == Proved(4, 1, 2)
    requires SlotOf(5) in start.plain && start.plain[SlotOf(5)] == Proved(5, 2, 3)
    requires SlotOf(6) in start.plain && start.plain[SlotOf(6)] == Proved(6, 3, 2)
    ensures var env := Deployment();
            var second := Step(env, start, UpdateTo(4, 2));
            var third := Step(env, second, UpdateTo(5, 3));
            && Exec(env, start, UpdateTo(4, 2)).Ok?
            && At(second, 2, 1) && Exec(env, second, UpdateTo(5, 3)).Ok?
            && At(third, 3, 2) && Exec(env, third, UpdateTo(6, 2)).Ok?
  {
    var env := Deployment();
    Distinct();
    UpdateSucceeds(start, 4, 1, 2, 0);
    var second := Step(env, start, UpdateTo(4, 2));
    UpdateSucceeds(second, 5, 2, 3, 1);
    var third := Step(env, second, UpdateTo(5, 3));
    UpdateSucceeds(third, 6, 3, 2, 2);
  }
}
