/** What stands behind an identity's whole past. Every update of its life, in whichever wallet it
    then was, consumed an accepted proof; every update and every baseline was signed for. So the
    chain that ends in the stored commitment is a chain of accepted proofs from a commitment a
    validator vouched for. */
module Attestation {
  import opened Bytes
  import opened Receipts
  import opened ProofRequest
  import opened Programs
  import opened Requests
  import opened Policy
  import opened Provenance
  import opened Lineage
  import Config

  // --- One event ---

  /** A step of the run proved the update's claim in the last five minutes, for a request naming this
      wallet, its mint and this version, unexpired at the event. */
  ghost predicate BoundProof(env: Env, w: World, run: seq<Instr>, e: LifeEvent, nonce: Key, counter: u64,
                             validUntil: u64, digest: Key, at: i64)
    requires e.Updated?
  {
    && DigestFor(env, e.wallet, nonce, env.mintPda(e.wallet), counter, e.version, e.claim, validUntil) == Some(digest)
    && e.at - 300 <= at <= e.at <= validUntil
    && WasProved(env, w, run, (e.wallet, nonce), e.claim, digest, at)
  }

  ghost predicate PlainProof(env: Env, w: World, run: seq<Instr>, e: LifeEvent, nonce: Key, at: i64)
    requires e.Updated?
  {
    e.at - 600 <= at <= e.at && WasProved(env, w, run, (e.wallet, nonce), e.claim, ZERO_KEY, at)
  }

  ghost predicate EventProved(env: Env, w: World, run: seq<Instr>, e: LifeEvent)
    requires e.Updated?
  {
    if env.bound then exists nonce, counter, validUntil, digest, at ::
      BoundProof(env, w, run, e, nonce, counter, validUntil, digest, at)
    else exists nonce, at :: PlainProof(env, w, run, e, nonce, at)
  }

  /** A key that was primary within the day before the event signed a message for it. */
  ghost predicate EventSigned(env: Env, w: World, run: seq<Instr>, valid: Signatures, e: LifeEvent) {
    match e
    case Minted(at, wallet, commitment, version) =>
      SignedFor(env, w, run, valid, wallet, commitment, ForMint, version, at)
    case Updated(at, wallet, version, claim, _, _) =>
      exists receipt :: UpdateSigned(env, w, run, valid, wallet, claim.commitmentNew, version, receipt, at)
    case WasReset(at, wallet, commitment, version) =>
      SignedFor(env, w, run, valid, wallet, commitment, ForReset, version, at)
    case Rebaselined(at, wallet, commitment, version) =>
      SignedFor(env, w, run, valid, wallet, commitment, ForRebaseline, version, at)
    case _ => true
  }

  ghost predicate Attested(env: Env, w: World, run: seq<Instr>, valid: Signatures, e: LifeEvent) {
    EventSigned(env, w, run, valid, e) && (e.Updated? ==> EventProved(env, w, run, e))
  }

  // --- A longer run attests what a shorter one did ---

  lemma SignedLater(env: Env, w: World, run: seq<Instr>, valid: Signatures, wallet: Key, commitment: Key,
                    purpose: Purpose, version: u16, at: i64)
    requires run != [] && SignedFor(env, w, run[..|run| - 1], valid, wallet, commitment, purpose, version, at)
    ensures SignedFor(env, w, run, valid, wallet, commitment, purpose, version, at)
  {
    var front := run[..|run| - 1];
    var key: Key, message, sig :|
      && valid(key, message, sig)
      && WasPrimary(env, w, front, key, at - Config.MAX_GRACE_PERIOD_SECS, at)
      && VerifyPayload(message, wallet, commitment, purpose, version, at).Ok?;
    LongerRun(env, w, run, key, at - Config.MAX_GRACE_PERIOD_SECS, at, at);
  }

  lemma UpdateSignedLater(env: Env, w: World, run: seq<Instr>, valid: Signatures, wallet: Key, commitment: Key,
                          version: u16, receipt: UpdateReceipt, at: i64)
    requires run != [] && UpdateSigned(env, w, run[..|run| - 1], valid, wallet, commitment, version, receipt, at)
    ensures UpdateSigned(env, w, run, valid, wallet, commitment, version, receipt, at)
  {
    var front := run[..|run| - 1];
    var key: Key, sig :|
      && WasPrimary(env, w, front, key, at - Config.MAX_GRACE_PERIOD_SECS, at)
      && valid(key, env.hash(V4Bytes(wallet, commitment, version, receipt)), sig);
    LongerRun(env, w, run, key, at - Config.MAX_GRACE_PERIOD_SECS, at, at);
  }

  lemma EventProvedLater(env: Env, w: World, run: seq<Instr>, e: LifeEvent)
    requires run != [] && e.Updated? && EventProved(env, w, run[..|run| - 1], e)
    ensures EventProved(env, w, run, e)
  {
    var front := run[..|run| - 1];
    if env.bound {
      var nonce, counter, validUntil, digest, at :| BoundProof(env, w, front, e, nonce, counter, validUntil, digest,
                                                               at);
      ProvedLater(env, w, run, (e.wallet, nonce), e.claim, digest, at);
      assert BoundProof(env, w, run, e, nonce, counter, validUntil, digest, at);
    } else {
      var nonce, at :| PlainProof(env, w, front, e, nonce, at);
      ProvedLater(env, w, run, (e.wallet, nonce), e.claim, ZERO_KEY, at);
      assert PlainProof(env, w, run, e, nonce, at);
    }
  }

  lemma AttestedLater(env: Env, w: World, run: seq<Instr>, valid: Signatures, e: LifeEvent)
    requires run != [] && Attested(env, w, run[..|run| - 1], valid, e)
    ensures Attested(env, w, run, valid, e)
  {
    match e {
      case Minted(at, wallet, commitment, version) =>
        SignedLater(env, w, run, valid, wallet, commitment, ForMint, version, at);
      case Updated(at, wallet, version, claim, _, _) =>
        var receipt :| UpdateSigned(env, w, run[..|run| - 1], valid, wallet, claim.commitmentNew, version, receipt, at);
        UpdateSignedLater(env, w, run, valid, wallet, claim.commitmentNew, version, receipt, at);
        EventProvedLater(env, w, run, e);
      case WasReset(at, wallet, commitment, version) =>
        SignedLater(env, w, run, valid, wallet, commitment, ForReset, version, at);
      case Rebaselined(at, wallet, commitment, version) =>
        SignedLater(env, w, run, valid, wallet, commitment, ForRebaseline, version, at);
      case _ =>
    }
  }

  // --- The event a step appends ---

  ghost predicate BaselineEvent(now: World, i: Instr, e: LifeEvent) {
    match e
    case Minted(at, wallet, commitment, version) =>
      i.MintAnchor? && at == now.clock && wallet == i.wallet && commitment == i.commitment && version == now.cfg.current
    case WasReset(at, wallet, commitment, version) =>
      && i.ResetAnchor? && at == now.clock && wallet == i.wallet
      && commitment == i.commitment && version == now.cfg.current
    case Rebaselined(at, wallet, commitment, version) =>
      && i.RebaselineAnchor? && at == now.clock && wallet == i.wallet
      && commitment == i.commitment && version == now.cfg.current
    case _ => false
  }

  /** What a successful instruction may append to a life. */
  ghost predicate Happened(env: Env, w: World, i: Instr, e: LifeEvent) {
    if e.Updated? then i.UpdateAnchor? && Stored(env, w, i.slot) && i.wallet in w.ids && e == UpdateEvent(env, w, i)
    else e.Authorized? || e.Moved? || BaselineEvent(w, i, e)
  }

  /** Every event of a life is an old one of some life, or what the instruction appended. */
  lemma LivedEvents(env: Env, w: World, lives: map<Key, Life>, i: Instr, k: Key, j: nat)
    requires k in Lived(env, w, lives, i) && j < |Lived(env, w, lives, i)[k]|
    ensures var e := Lived(env, w, lives, i)[k][j];
            Happened(env, w, i, e) || exists from :: from in lives && j < |lives[from]| && lives[from][j] == e
  {
  }

  lemma UpdateEventProved(env: Env, w: World, run: seq<Instr>, now: World, i: Instr)
    requires WorldOk(env, now) && AllProved(env, w, run, now) && i.UpdateAnchor? && UpdateAccepted(env, now, i)
    ensures EventProved(env, w, run, UpdateEvent(env, now, i))
  {
    var e, at := UpdateEvent(env, now, i), StoredTime(env, now, i.slot);
    AcceptedProved(env, w, run, now, i);
    assert IdentityOk(env, now.cfg, i.wallet, now.ids[i.wallet]);
    assert i.slot == (e.wallet, i.slot.1);
    if env.bound {
      var r := now.bound[i.slot];
      assert BoundProof(env, w, run, e, i.slot.1, now.counters[i.wallet], r.validUntil, r.digest, at);
    } else {
      assert PlainProof(env, w, run, e, i.slot.1, at);
    }
  }

  function SignedOf(i: Instr): Option<seq<byte>> {
    if i.MintAnchor? || i.UpdateAnchor? || i.ResetAnchor? || i.RebaselineAnchor? then i.signed else None
  }

  lemma {:induction false} UpdateEventSigned(env: Env, w: World, run: seq<Instr>, now: World, i: Instr,
                                             valid: Signatures)
    requires Initial(w) && Run(env, w, run) == now && i.UpdateAnchor? && Exec(env, now, i).Ok?
             && Screened(i.signed, valid)
    ensures i.wallet in now.ids && Stored(env, now, i.slot)
    ensures EventSigned(env, w, run, valid, UpdateEvent(env, now, i))
  {
    UpdateWasSigned(env, w, run, now, i, valid);
  }

  lemma {:induction false} UpdateAttested(env: Env, w: World, run: seq<Instr>, now: World, i: Instr, valid: Signatures)
    requires Initial(w) && Run(env, w, run) == now && WorldOk(env, now) && AllProved(env, w, run, now)
    requires i.UpdateAnchor? && Exec(env, now, i).Ok? && Screened(i.signed, valid)
    ensures i.wallet in now.ids && Stored(env, now, i.slot)
    ensures Attested(env, w, run, valid, UpdateEvent(env, now, i))
  {
    UpdateEventSigned(env, w, run, now, i, valid);
    UpdateWasAccepted(env, now, i);
    UpdateEventProved(env, w, run, now, i);
  }

  lemma {:induction false} BaselineAttested(env: Env, w: World, run: seq<Instr>, now: World, i: Instr,
                                            valid: Signatures, e: LifeEvent)
    requires Initial(w) && Run(env, w, run) == now && Exec(env, now, i).Ok? && Screened(SignedOf(i), valid)
    requires BaselineEvent(now, i, e)
    ensures Attested(env, w, run, valid, e)
  {
    BaselineWasSigned(env, w, run, now, i, valid);
  }

  lemma {:induction false} EventAttested(env: Env, w: World, run: seq<Instr>, now: World, i: Instr, valid: Signatures,
                                         e: LifeEvent)
    requires Initial(w) && Run(env, w, run) == now && WorldOk(env, now) && AllProved(env, w, run, now)
    requires Exec(env, now, i).Ok? && Screened(SignedOf(i), valid) && Happened(env, now, i, e)
    ensures Attested(env, w, run, valid, e)
  {
    if e.Updated? {
      UpdateAttested(env, w, run, now, i, valid);
    } else if !e.Authorized? && !e.Moved? {
      BaselineAttested(env, w, run, now, i, valid, e);
    }
  }

  // --- Over runs ---

  /** The precompile accepted every signed instruction of the run. */
  ghost predicate AllScreened(run: seq<Instr>, valid: Signatures) {
    forall k :: 0 <= k < |run| ==> Screened(SignedOf(run[k]), valid)
  }

  ghost predicate AllAttested(env: Env, w: World, run: seq<Instr>, valid: Signatures, lives: map<Key, Life>) {
    forall k, j :: k in lives && 0 <= j < |lives[k]| ==> Attested(env, w, run, valid, lives[k][j])
  }

  lemma {:induction false} StepAttested(env: Env, w: World, run: seq<Instr>, now: World, i: Instr, valid: Signatures,
                                        lives: map<Key, Life>)
    requires Initial(w) && Run(env, w, run) == now && WorldOk(env, now) && AllProved(env, w, run, now)
    requires Exec(env, now, i).Ok? && Screened(SignedOf(i), valid) && AllAttested(env, w, run, valid, lives)
    ensures AllAttested(env, w, run, valid, Lived(env, now, lives, i))
  {
    var next := Lived(env, now, lives, i);
    forall k, j | k in next && 0 <= j < |next[k]| ensures Attested(env, w, run, valid, next[k][j]) {
      LivedEvents(env, now, lives, i, k, j);
      if Happened(env, now, i, next[k][j]) {
        EventAttested(env, w, run, now, i, valid, next[k][j]);
      }
    }
  }

  /** Over any run, whatever the other instructions of its transactions were, every event of every
      identity's life is attested. */
  lemma {:induction false} RunAttested(env: Env, w: World, run: seq<Instr>, valid: Signatures)
    requires Initial(w) && AllScreened(run, valid)
    ensures AllAttested(env, w, run, valid, Lives(env, w, run))
  {
    if run != [] {
      var front, last := run[..|run| - 1], run[|run| - 1];
      var before, lives := Run(env, w, front), Lives(env, w, run);
      assert AllScreened(front, valid);
      RunAttested(env, w, front, valid);
      if Exec(env, before, last).Ok? {
        RunRecorded(env, w, front);
        RunProved(env, w, front);
        StepAttested(env, w, front, before, last, valid, Lives(env, w, front));
      }
      forall k, j | k in lives && 0 <= j < |lives[k]| ensures Attested(env, w, run, valid, lives[k][j]) {
        AttestedLater(env, w, run, valid, lives[k][j]);
      }
    }
  }

  // --- Reachable identities ---

  /** The proof of link `j` is the claim of an attested update of the life. */
  ghost predicate LinkAttested(env: Env, w: World, run: seq<Instr>, valid: Signatures, life: Life, j: nat, b: nat)
    requires j < |Proofs(life)|
  {
    exists m :: b < m < |life| && life[m].Updated? && life[m].claim == Proofs(life)[j]
                && Attested(env, w, run, valid, life[m])
  }

  /** An unbroken chain of accepted proofs from the attested baseline `b` to `commitment`. */
  ghost predicate AttestedChain(env: Env, w: World, run: seq<Instr>, valid: Signatures, life: Life, b: nat,
                                commitment: Key)
  {
    && StartsAt(life, b) && Attested(env, w, run, valid, life[b])
    && |Chain(life)| == |Proofs(life)| + 1 && Chain(life)[|Proofs(life)|] == commitment
    && (forall j :: 0 <= j < |Proofs(life)| ==> Links(Proofs(life)[j], Chain(life)[j], Chain(life)[j + 1]))
    && (forall j :: 0 <= j < |Proofs(life)| ==> LinkAttested(env, w, run, valid, life, j, b))
  }

  lemma {:induction false} ChainIsAttested(env: Env, w: World, run: seq<Instr>, valid: Signatures, life: Life)
    returns (b: nat)
    requires Genuine(life) && forall j :: 0 <= j < |life| ==> Attested(env, w, run, valid, life[j])
    ensures AttestedChain(env, w, run, valid, life, b, Replay(life).commitment)
  {
    ChainUnbroken(life);
    b := ChainStart(life);
    forall j | 0 <= j < |Proofs(life)| ensures LinkAttested(env, w, run, valid, life, j, b) {
      var m := ProofIsUpdate(life, j, b);
      assert Attested(env, w, run, valid, life[m]);
    }
  }

  /** Every identity of every reachable state, wherever it has moved: its commitment is the end of an
      unbroken chain of accepted, signed updates from an attested baseline, its whole past is
      attested, and its count and version are what that past amounts to. */
  lemma {:induction false} ReachableIdentity(env: Env, w: World, run: seq<Instr>, now: World, wallet: Key,
                                             valid: Signatures)
    returns (b: nat)
    requires Initial(w) && Run(env, w, run) == now && wallet in now.ids && AllScreened(run, valid)
    ensures wallet in Lives(env, w, run)
    ensures var id, life := now.ids[wallet], Lives(env, w, run)[wallet];
            && Genuine(life) && id.count == UpdateCount(life)
            && AttestedChain(env, w, run, valid, life, b, id.commitment)
            && (forall j :: 0 <= j < |life| ==> Attested(env, w, run, valid, life[j]))
            && Rebaselines(life) <= id.version <= now.cfg.current
  {
    RunRecorded(env, w, run);
    RunAttested(env, w, run, valid);
    var life := Lives(env, w, run)[wallet];
    assert LifeOk(now.ids[wallet], life, now.clock);
    assert IdentityOk(env, now.cfg, wallet, now.ids[wallet]);
    b := ChainIsAttested(env, w, run, valid, life);
    CountIsUpdates(life);
    RebaselinesBounded(life);
  }
}
