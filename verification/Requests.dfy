/** The request-bound protocol over whole runs: what every reachable state keeps, why a stored
    proof result is either consumable as it stands or dead for good, and how counters count. */
module Requests {
  import opened Bytes
  import opened ProofRequest
  import opened Identities
  import opened Programs
  import Config

  // --- The invariant ---

  ghost predicate ConfigOk(cfg: Config.Config) {
    cfg.validator != ZERO_KEY && cfg.minimum <= cfg.current
  }

  ghost predicate IdentityOk(env: Env, cfg: Config.Config, wallet: Key, id: Identity) {
    && id.owner == wallet && id.mint == env.mintPda(wallet) && id.bump == env.bumpOf(wallet)
    && id.version <= cfg.current && id.commitment != ZERO_KEY
  }

  /** The consumer, recomputing the digest from the identity as it stands, gets the stored one. */
  ghost predicate Consumable(env: Env, w: World, r: BoundResult) {
    && r.wallet in w.ids
    && w.ids[r.wallet].commitment == r.commitmentPrev
    && Recomputed(env, r, w.ids[r.wallet]) == Some(r.digest)
  }

  ghost predicate BoundOk(env: Env, w: World, slot: Slot, r: BoundResult) {
    && slot == (r.wallet, r.nonce) && r.nonce != ZERO_KEY && r.commitmentNew != ZERO_KEY
    && MIN_DISTANCE_FLOOR <= r.minDistance < r.threshold <= MAX_THRESHOLD
    && r.verifiedAt <= w.clock && 0 < r.validUntil <= r.verifiedAt + MAX_REQUEST_LIFETIME
    && r.counter <= CounterOf(w, r.wallet) && r.wallet in w.counters
    && (r.counter == CounterOf(w, r.wallet) ==> Consumable(env, w, r))
  }

  ghost predicate PlainOk(slot: Slot, r: PlainResult) {
    && slot == (r.verifier, r.nonce) && r.nonce != ZERO_KEY && r.commitmentNew != ZERO_KEY
    && MIN_DISTANCE_FLOOR <= r.minDistance < r.threshold <= MAX_THRESHOLD
  }

  ghost predicate WorldOk(env: Env, w: World) {
    && w.clock > 0
    && ConfigOk(w.cfg)
    && (forall k :: k in w.ids ==> IdentityOk(env, w.cfg, k, w.ids[k]))
    && (forall s :: s in w.bound ==> BoundOk(env, w, s, w.bound[s]))
    && (forall s :: s in w.plain ==> PlainOk(s, w.plain[s]))
    && (!env.bound ==> w.bound == map[])
  }

  lemma InitialOk(env: Env, w: World)
    requires Initial(w)
    ensures WorldOk(env, w)
  {
  }

  // --- What a proof can see of an identity ---

  datatype ProofView = Absent | Present(commitment: Key, mint: Key, version: u16)

  function ViewOf(w: World, wallet: Key): ProofView {
    if wallet in w.ids then Present(w.ids[wallet].commitment, w.ids[wallet].mint, w.ids[wallet].version) else Absent
  }

  /** The instructions that write the identity of the wallet they name. */
  predicate Rewrites(i: Instr) {
    i.MintAnchor? || i.UpdateAnchor? || i.ResetAnchor? || i.RebaselineAnchor?
  }

  /** The instructions that may change what a proof sees of `wallet`. */
  predicate Touches(i: Instr, wallet: Key) {
    if i.Migrate? then i.wallet == wallet || i.user == wallet else Rewrites(i) && i.wallet == wallet
  }

  /** An instruction that may change the view of a wallet adds one to its counter; no other
      instruction moves the counter. */
  ghost predicate Counted(w: World, i: Instr, after: World, wallet: Key) {
    && CounterOf(after, wallet) == CounterOf(w, wallet) + (if Touches(i, wallet) then 1 else 0)
    && (!Touches(i, wallet) ==> ViewOf(after, wallet) == ViewOf(w, wallet))
    && w.counters.Keys <= after.counters.Keys
  }

  lemma MintCounts(env: Env, w: World, i: Instr, after: World, wallet: Key)
    requires env.bound && i.MintAnchor? && MintDone(env, w, i, after)
    ensures Counted(w, i, after, wallet)
  {
  }

  lemma UpdateCounts(env: Env, w: World, i: Instr, after: World, wallet: Key)
    requires env.bound && i.UpdateAnchor? && UpdateDone(env, w, i, after)
    ensures Counted(w, i, after, wallet)
  {
  }

  lemma BaselineCounts(env: Env, w: World, i: Instr, after: World, wallet: Key)
    requires env.bound
    requires (i.ResetAnchor? && ResetDone(env, w, i, after))
             || (i.RebaselineAnchor? && RebaselineDone(env, w, i, after))
    ensures Counted(w, i, after, wallet)
  {
  }

  lemma MigrateCounts(env: Env, w: World, i: Instr, after: World, wallet: Key)
    requires env.bound && i.Migrate? && MigrateDone(env, w, i, after)
    ensures Counted(w, i, after, wallet)
  {
  }

  lemma StepCounts(env: Env, w: World, i: Instr, after: World, wallet: Key)
    requires env.bound && Effect(env, w, i, after)
    ensures Counted(w, i, after, wallet)
  {
    if i.MintAnchor? {
      MintCounts(env, w, i, after, wallet);
    } else if i.UpdateAnchor? {
      UpdateCounts(env, w, i, after, wallet);
    } else if i.ResetAnchor? || i.RebaselineAnchor? {
      BaselineCounts(env, w, i, after, wallet);
    } else if i.Migrate? {
      MigrateCounts(env, w, i, after, wallet);
    }
  }

  // --- Preservation ---

  lemma ConfigStepOk(cfg: Config.Config, op: Config.ConfigOp, now: i64)
    requires ConfigOk(cfg) && Config.Step(cfg, op, now).Ok?
    ensures var next := Config.Step(cfg, op, now).value;
            ConfigOk(next) && next.current >= cfg.current && next.minimum >= cfg.minimum
  {
  }

  /** A result that loses its counter, or keeps both counter and view, stays good. */
  lemma ResultKept(env: Env, w: World, i: Instr, after: World, slot: Slot)
    requires env.bound && Effect(env, w, i, after)
    requires slot in w.bound && BoundOk(env, w, slot, w.bound[slot])
    ensures BoundOk(env, after, slot, w.bound[slot])
  {
    StepCounts(env, w, i, after, w.bound[slot].wallet);
    ClockMoves(env, w, i, after);
  }

  lemma ClockMoves(env: Env, w: World, i: Instr, after: World)
    requires Effect(env, w, i, after)
    ensures w.clock <= after.clock
  {
  }

  lemma NewResultOk(env: Env, w: World, i: Instr, after: World)
    requires Effect(env, w, i, after) && i.VerifyBound?
    ensures BoundOk(env, after, (i.wallet, i.nonce), after.bound[(i.wallet, i.nonce)])
  {
    assert Consumable(env, after, after.bound[(i.wallet, i.nonce)]);
  }

  lemma NoOtherResults(env: Env, w: World, i: Instr, after: World, slot: Slot)
    requires Effect(env, w, i, after) && slot in after.bound
    ensures (i.VerifyBound? && slot == (i.wallet, i.nonce)) || (slot in w.bound && w.bound[slot] == after.bound[slot])
  {
  }

  lemma BoundResultsOk(env: Env, w: World, i: Instr, after: World, slot: Slot)
    requires env.bound && WorldOk(env, w) && Effect(env, w, i, after) && slot in after.bound
    ensures BoundOk(env, after, slot, after.bound[slot])
  {
    NoOtherResults(env, w, i, after, slot);
    if i.VerifyBound? && slot == (i.wallet, i.nonce) {
      NewResultOk(env, w, i, after);
    } else {
      ResultKept(env, w, i, after, slot);
    }
  }

  /** The version window only ever moves up. */
  lemma PolicyMoves(env: Env, w: World, i: Instr, after: World)
    requires ConfigOk(w.cfg) && Effect(env, w, i, after)
    ensures ConfigOk(after.cfg) && w.cfg.current <= after.cfg.current && w.cfg.minimum <= after.cfg.minimum
    ensures w.clock <= after.clock
  {
    if i.Configure? {
      ConfigStepOk(w.cfg, i.op, w.clock);
    }
  }

  /** An identity no instruction touches changes in nothing but the wallet it may move to. */
  lemma Untouched(env: Env, w: World, i: Instr, after: World, k: Key)
    requires Effect(env, w, i, after) && k in after.ids && !Touches(i, k)
    ensures k in w.ids && after.ids[k] == w.ids[k].(newWallet := after.ids[k].newWallet)
    ensures !(i.Authorize? && i.wallet == k) ==> after.ids[k] == w.ids[k]
  {
  }

  lemma MigratedOk(env: Env, w: World, i: Instr, after: World, k: Key)
    requires i.Migrate? && MigrateDone(env, w, i, after) && IdentityOk(env, w.cfg, i.wallet, w.ids[i.wallet])
    requires k in after.ids && Touches(i, k)
    ensures IdentityOk(env, after.cfg, k, after.ids[k])
  {
  }

  lemma RewrittenOk(env: Env, w: World, i: Instr, after: World)
    requires Rewrites(i) && Effect(env, w, i, after) && w.cfg.minimum <= w.cfg.current
    requires i.wallet in w.ids ==> IdentityOk(env, w.cfg, i.wallet, w.ids[i.wallet])
    ensures i.wallet in after.ids && IdentityOk(env, after.cfg, i.wallet, after.ids[i.wallet])
  {
  }

  lemma IdentityKept(env: Env, w: World, i: Instr, after: World, k: Key)
    requires WorldOk(env, w) && Effect(env, w, i, after) && k in after.ids
    ensures IdentityOk(env, after.cfg, k, after.ids[k])
  {
    if !Touches(i, k) {
      PolicyMoves(env, w, i, after);
      Untouched(env, w, i, after, k);
      assert IdentityOk(env, w.cfg, k, w.ids[k]);
    } else if i.Migrate? {
      MigratedOk(env, w, i, after, k);
    } else {
      RewrittenOk(env, w, i, after);
    }
  }

  lemma PlainResultsOk(env: Env, w: World, i: Instr, after: World, slot: Slot)
    requires WorldOk(env, w) && Effect(env, w, i, after) && slot in after.plain
    ensures PlainOk(slot, after.plain[slot])
  {
    if slot in w.plain {
      assert PlainOk(slot, w.plain[slot]);
    }
  }

  lemma EffectOk(env: Env, w: World, i: Instr, after: World)
    requires WorldOk(env, w) && Effect(env, w, i, after)
    ensures WorldOk(env, after)
  {
    PolicyMoves(env, w, i, after);
    forall k | k in after.ids ensures IdentityOk(env, after.cfg, k, after.ids[k]) {
      IdentityKept(env, w, i, after, k);
    }
    forall s | s in after.plain ensures PlainOk(s, after.plain[s]) {
      PlainResultsOk(env, w, i, after, s);
    }
    forall s | s in after.bound ensures env.bound && BoundOk(env, after, s, after.bound[s]) {
      NoOtherResults(env, w, i, after, s);
      BoundResultsOk(env, w, i, after, s);
    }
  }

  lemma StepOk(env: Env, w: World, i: Instr)
    requires WorldOk(env, w)
    ensures WorldOk(env, Step(env, w, i))
  {
    if Exec(env, w, i).Ok? {
      ExecEffect(env, w, i);
      EffectOk(env, w, i, Exec(env, w, i).value);
    }
  }

  lemma {:induction false} RunOk(env: Env, w: World, run: seq<Instr>)
    requires WorldOk(env, w)
    ensures WorldOk(env, Run(env, w, run))
  {
    if run != [] {
      RunOk(env, w, run[..|run| - 1]);
      StepOk(env, Run(env, w, run[..|run| - 1]), run[|run| - 1]);
    }
  }

  // --- Consumable or dead ---

  /** In every reachable state a stored result whose counter is still its wallet's counter meets a
      live identity: the commitment is the proof's starting point and the consumer's digest is the
      stored one. */
  lemma {:induction false} CurrentResultIsConsumable(env: Env, w: World, run: seq<Instr>, slot: Slot)
    requires Initial(w) && slot in Run(env, w, run).bound
    ensures var now := Run(env, w, run);
            var r := now.bound[slot];
            r.counter <= CounterOf(now, r.wallet) && (r.counter == CounterOf(now, r.wallet) ==> Consumable(env, now, r))
  {
    InitialOk(env, w);
    RunOk(env, w, run);
    assert BoundOk(env, Run(env, w, run), slot, Run(env, w, run).bound[slot]);
  }

  /** Until it expires, at most five minutes after it was verified, a current result passes every
      check the consumer makes on it; nothing else can spoil it. */
  lemma {:induction false} CurrentResultClaimable(env: Env, w: World, run: seq<Instr>, slot: Slot)
    requires Initial(w) && slot in Run(env, w, run).bound
    requires var now := Run(env, w, run); now.bound[slot].counter == CounterOf(now, now.bound[slot].wallet) < U64_MAX
    ensures var now := Run(env, w, run);
            var r := now.bound[slot];
            && r.wallet in now.ids
            && (BoundClaim(env, now, r.wallet, slot, now.ids[r.wallet]).Ok? <==> now.clock <= r.validUntil)
            && r.validUntil <= r.verifiedAt + MAX_REQUEST_LIFETIME
  {
    InitialOk(env, w);
    RunOk(env, w, run);
    var now := Run(env, w, run);
    assert BoundOk(env, now, slot, now.bound[slot]);
  }

  /** Any other stored result is refused by every update. */
  lemma StaleResultIsRefused(env: Env, w: World, i: Instr)
    requires env.bound && i.UpdateAnchor? && i.slot in w.bound
    requires w.bound[i.slot].counter != CounterOf(w, w.bound[i.slot].wallet)
    ensures Exec(env, w, i).Err?
  {
    if Update(env, w, i).Ok? {
      UpdateWasAccepted(env, w, i);
    }
  }

  lemma StepCounter(env: Env, w: World, i: Instr, wallet: Key)
    requires env.bound
    ensures CounterOf(w, wallet) <= CounterOf(Step(env, w, i), wallet)
    ensures CounterOf(w, wallet) == CounterOf(Step(env, w, i), wallet) ==>
              ViewOf(w, wallet) == ViewOf(Step(env, w, i), wallet)
  {
    if Exec(env, w, i).Ok? {
      ExecEffect(env, w, i);
      StepCounts(env, w, i, Exec(env, w, i).value, wallet);
    }
  }

  /** Counters never fall, and while a counter stands still nothing a proof can see of the wallet
      changes. */
  lemma {:induction false} CounterFixesView(env: Env, w: World, run: seq<Instr>, wallet: Key)
    requires env.bound
    ensures CounterOf(w, wallet) <= CounterOf(Run(env, w, run), wallet)
    ensures CounterOf(w, wallet) == CounterOf(Run(env, w, run), wallet) ==>
              ViewOf(w, wallet) == ViewOf(Run(env, w, run), wallet)
  {
    if run != [] {
      CounterFixesView(env, w, run[..|run| - 1], wallet);
      StepCounter(env, Run(env, w, run[..|run| - 1]), run[|run| - 1], wallet);
    }
  }

  /** No stored result outlives a change of the identity it was proved against, even one that is
      later undone: once the view has differed at some moment of the run, the result is refused,
      whatever the identity looks like at the end. */
  lemma {:induction false} NoResultSurvivesRestoration(env: Env, w: World, before: seq<Instr>, changed: seq<Instr>,
                                                       restored: seq<Instr>, i: Instr)
    requires Initial(w) && env.bound && i.UpdateAnchor?
    requires i.slot in Run(env, w, before).bound
    requires var wallet := Run(env, w, before).bound[i.slot].wallet;
             ViewOf(Run(env, w, before + changed), wallet) != ViewOf(Run(env, w, before), wallet)
    requires i.slot in Run(env, w, before + changed + restored).bound
    requires Run(env, w, before + changed + restored).bound[i.slot] == Run(env, w, before).bound[i.slot]
    ensures Exec(env, Run(env, w, before + changed + restored), i).Err?
  {
    var start := Run(env, w, before);
    var r := start.bound[i.slot];
    CurrentResultIsConsumable(env, w, before, i.slot);
    RunAppend(env, w, before, changed);
    CounterFixesView(env, start, changed, r.wallet);
    RunAppend(env, w, before + changed, restored);
    CounterFixesView(env, Run(env, w, before + changed), restored, r.wallet);
    StaleResultIsRefused(env, Run(env, w, before + changed + restored), i);
  }

  // --- Counting ---

  /** How many successful instructions of the run touched `wallet`. */
  function Touched(env: Env, w: World, run: seq<Instr>, wallet: Key): nat {
    if run == [] then 0
    else
      var front, last := run[..|run| - 1], run[|run| - 1];
      Touched(env, w, front, wallet)
      + (if Exec(env, Run(env, w, front), last).Ok? && Touches(last, wallet) then 1 else 0)
  }

  /** A counter is its starting value plus the mints, updates, resets, rebaselines and migrations
      that succeeded on its wallet: preparing it, and everything else, adds nothing. */
  lemma {:induction false} CounterCounts(env: Env, w: World, run: seq<Instr>, wallet: Key)
    requires env.bound
    ensures CounterOf(Run(env, w, run), wallet) == CounterOf(w, wallet) + Touched(env, w, run, wallet)
  {
    if run != [] {
      var front, last := run[..|run| - 1], run[|run| - 1];
      var before := Run(env, w, front);
      CounterCounts(env, w, front, wallet);
      if Exec(env, before, last).Ok? {
        ExecEffect(env, before, last);
        StepCounts(env, before, last, Exec(env, before, last).value, wallet);
      }
    }
  }

  /** The results the run consumed, oldest first. */
  function Spent(env: Env, w: World, run: seq<Instr>): seq<BoundResult> {
    if run == [] then []
    else
      var front, last := run[..|run| - 1], run[|run| - 1];
      var before := Run(env, w, front);
      Spent(env, w, front)
      + (if last.UpdateAnchor? && last.slot in before.bound && Exec(env, before, last).Ok?
         then [before.bound[last.slot]] else [])
  }

  lemma {:induction false} SpentBelowCounter(env: Env, w: World, run: seq<Instr>, k: nat)
    requires env.bound && k < |Spent(env, w, run)|
    ensures Spent(env, w, run)[k].counter < CounterOf(Run(env, w, run), Spent(env, w, run)[k].wallet)
  {
    var front, last := run[..|run| - 1], run[|run| - 1];
    var before := Run(env, w, front);
    var r := Spent(env, w, run)[k];
    StepCounter(env, before, last, r.wallet);
    if k < |Spent(env, w, front)| {
      SpentBelowCounter(env, w, front, k);
    } else {
      ExecEffect(env, before, last);
      StepCounts(env, before, last, Exec(env, before, last).value, r.wallet);
    }
  }

  /** Of all the results verified at one counter of one wallet, at most one is ever consumed. */
  lemma {:induction false} AtMostOneSpentPerCounter(env: Env, w: World, run: seq<Instr>, j: nat, k: nat)
    requires env.bound && j < k < |Spent(env, w, run)|
    ensures var spent := Spent(env, w, run);
            (spent[j].wallet, spent[j].counter) != (spent[k].wallet, spent[k].counter)
  {
    var front, last := run[..|run| - 1], run[|run| - 1];
    var before := Run(env, w, front);
    if k < |Spent(env, w, front)| {
      AtMostOneSpentPerCounter(env, w, front, j, k);
    } else {
      SpentBelowCounter(env, w, front, j);
      ExecEffect(env, before, last);
    }
  }

  // --- Each stored result serves once, in both builds ---

  /** Whether the result store of this build holds something at `slot`. */
  predicate Stored(env: Env, w: World, slot: Slot) {
    slot in (if env.bound then w.bound.Keys else w.plain.Keys)
  }

  predicate Fills(i: Instr, slot: Slot) {
    (i.VerifyBound? || i.VerifyPlain?) && (i.wallet, i.nonce) == slot
  }

  predicate Consumes(i: Instr, slot: Slot) {
    i.UpdateAnchor? && i.slot == slot
  }

  /** The successful verifications of the run that filled `slot`. */
  function Filled(env: Env, w: World, run: seq<Instr>, slot: Slot): nat {
    if run == [] then 0
    else
      var front, last := run[..|run| - 1], run[|run| - 1];
      Filled(env, w, front, slot) + (if Exec(env, Run(env, w, front), last).Ok? && Fills(last, slot) then 1 else 0)
  }

  /** The successful updates of the run that consumed what `slot` held. */
  function Consumed(env: Env, w: World, run: seq<Instr>, slot: Slot): nat {
    if run == [] then 0
    else
      var front, last := run[..|run| - 1], run[|run| - 1];
      Consumed(env, w, front, slot) + (if Exec(env, Run(env, w, front), last).Ok? && Consumes(last, slot) then 1 else 0)
  }

  /** A slot is filled only when empty, consumed only when full, and empty afterwards. */
  lemma SlotStep(env: Env, w: World, i: Instr, after: World, slot: Slot)
    requires Effect(env, w, i, after)
    ensures Fills(i, slot) ==> !Stored(env, w, slot) && Stored(env, after, slot)
    ensures Consumes(i, slot) ==> Stored(env, w, slot) && !Stored(env, after, slot)
    ensures !Fills(i, slot) ==> (Stored(env, after, slot) ==> Stored(env, w, slot))
  {
  }

  /** Over any run of either build no verification is consumed twice: updates on a slot never
      outnumber the verifications that filled it, and what the slot still holds is one of the rest. */
  lemma {:induction false} ResultsServeOnce(env: Env, w: World, run: seq<Instr>, slot: Slot)
    requires Initial(w)
    ensures Consumed(env, w, run, slot) + (if Stored(env, Run(env, w, run), slot) then 1 else 0)
            <= Filled(env, w, run, slot)
  {
    if run != [] {
      var front, last := run[..|run| - 1], run[|run| - 1];
      var before := Run(env, w, front);
      ResultsServeOnce(env, w, front, slot);
      if Exec(env, before, last).Ok? {
        ExecEffect(env, before, last);
        SlotStep(env, before, last, Exec(env, before, last).value, slot);
      }
    }
  }
}
