/** The configuration over whole runs: the version window, the validator keys, and the receipts
    they let through. */
module Policy {
  import opened Bytes
  import opened Receipts
  import opened Programs
  import opened Requests
  import Config

  /** The window's ends never fall, and the clock never runs back. */
  lemma {:induction false} WindowNeverFalls(env: Env, w: World, run: seq<Instr>)
    requires ConfigOk(w.cfg)
    ensures var now := Run(env, w, run);
            && now.cfg.minimum <= now.cfg.current && now.cfg.validator != ZERO_KEY
            && w.cfg.current <= now.cfg.current && w.cfg.minimum <= now.cfg.minimum && w.clock <= now.clock
  {
    if run != [] {
      var before, last := Run(env, w, run[..|run| - 1]), run[|run| - 1];
      WindowNeverFalls(env, w, run[..|run| - 1]);
      if Exec(env, before, last).Ok? {
        ExecEffect(env, before, last);
        PolicyMoves(env, before, last, Exec(env, before, last).value);
      }
    }
  }

  // --- Validator keys ---

  /** `key` was the primary validator key at some moment of the run between `lo` and `hi`. */
  ghost predicate WasPrimary(env: Env, w: World, run: seq<Instr>, key: Key, lo: int, hi: int) {
    exists k :: 0 <= k <= |run| && PrimaryAt(env, w, run, k, key, lo, hi)
  }

  ghost predicate PrimaryAt(env: Env, w: World, run: seq<Instr>, k: nat, key: Key, lo: int, hi: int)
    requires k <= |run|
  {
    var moment := Run(env, w, run[..k]);
    moment.cfg.validator == key && lo <= moment.clock <= hi
  }

  lemma LongerRun(env: Env, w: World, run: seq<Instr>, key: Key, lo: int, hi: int, later: int)
    requires run != [] && WasPrimary(env, w, run[..|run| - 1], key, lo, hi) && hi <= later
    ensures WasPrimary(env, w, run, key, lo, later)
  {
    var front := run[..|run| - 1];
    var k :| 0 <= k <= |front| && PrimaryAt(env, w, front, k, key, lo, hi);
    assert front[..k] == run[..k];
    assert PrimaryAt(env, w, run, k, key, lo, later);
  }

  /** A key still in its grace window was primary no more than a day before the window's end. */
  lemma {:induction false} GraceKeyWasPrimary(env: Env, w: World, run: seq<Instr>)
    requires Initial(w)
    ensures var now := Run(env, w, run);
            now.cfg.secondary != ZERO_KEY ==>
              WasPrimary(env, w, run, now.cfg.secondary, now.cfg.secondaryUntil - Config.MAX_GRACE_PERIOD_SECS,
                         now.clock)
  {
    if run != [] {
      var front, last := run[..|run| - 1], run[|run| - 1];
      var before, now := Run(env, w, front), Run(env, w, run);
      GraceKeyWasPrimary(env, w, front);
      if Exec(env, before, last).Ok? {
        ExecEffect(env, before, last);
        if now.cfg.secondary != ZERO_KEY {
          KeyStep(env, before, last, now);
          if now.cfg.secondary == before.cfg.secondary && now.cfg.secondaryUntil == before.cfg.secondaryUntil {
            LongerRun(env, w, run, now.cfg.secondary, now.cfg.secondaryUntil - Config.MAX_GRACE_PERIOD_SECS,
                      before.clock, now.clock);
          } else {
            assert run[..|front|] == front;
            assert PrimaryAt(env, w, run, |front|, now.cfg.secondary,
                             now.cfg.secondaryUntil - Config.MAX_GRACE_PERIOD_SECS, now.clock);
          }
        }
      } else if now.cfg.secondary != ZERO_KEY {
        LongerRun(env, w, run, now.cfg.secondary, now.cfg.secondaryUntil - Config.MAX_GRACE_PERIOD_SECS, before.clock,
                  now.clock);
      }
    }
  }

  /** A step keeps the grace window, closes it, or opens one of at most a day for the old primary. */
  lemma KeyStep(env: Env, w: World, i: Instr, after: World)
    requires Effect(env, w, i, after) && after.cfg.secondary != ZERO_KEY
    ensures w.clock <= after.clock
    ensures || (after.cfg.secondary == w.cfg.secondary && after.cfg.secondaryUntil == w.cfg.secondaryUntil)
            || (after.cfg.secondary == w.cfg.validator
                && after.cfg.secondaryUntil <= w.clock + Config.MAX_GRACE_PERIOD_SECS)
  {
  }

  lemma PrimaryNeverZero(env: Env, w: World, run: seq<Instr>)
    requires Initial(w)
    ensures Run(env, w, run).cfg.validator != ZERO_KEY && w.clock <= Run(env, w, run).clock
  {
    InitialOk(env, w);
    WindowNeverFalls(env, w, run);
  }

  lemma CurrentPrimary(env: Env, w: World, run: seq<Instr>, lo: int)
    requires lo <= Run(env, w, run).clock
    ensures WasPrimary(env, w, run, Run(env, w, run).cfg.validator, lo, Run(env, w, run).clock)
  {
    assert run[..|run|] == run;
    assert PrimaryAt(env, w, run, |run|, Run(env, w, run).cfg.validator, lo, Run(env, w, run).clock);
  }

  lemma Widened(env: Env, w: World, run: seq<Instr>, key: Key, lo: int, hi: int, lower: int)
    requires WasPrimary(env, w, run, key, lo, hi) && lower <= lo
    ensures WasPrimary(env, w, run, key, lower, hi)
  {
    var k :| 0 <= k <= |run| && PrimaryAt(env, w, run, k, key, lo, hi);
    assert PrimaryAt(env, w, run, k, key, lower, hi);
  }

  lemma GraceAccepted(env: Env, w: World, run: seq<Instr>, now: World)
    requires Initial(w) && Run(env, w, run) == now
    requires now.cfg.secondary != ZERO_KEY && now.clock <= now.cfg.secondaryUntil
    ensures WasPrimary(env, w, run, now.cfg.secondary, now.clock - Config.MAX_GRACE_PERIOD_SECS, now.clock)
  {
    GraceKeyWasPrimary(env, w, run);
    Widened(env, w, run, now.cfg.secondary, now.cfg.secondaryUntil - Config.MAX_GRACE_PERIOD_SECS, now.clock,
            now.clock - Config.MAX_GRACE_PERIOD_SECS);
  }

  /** In every reachable state each key the receipt check accepts was the primary key within the
      last day; it is one of two keys, and never the zero key. */
  lemma AcceptedKeyWasPrimary(env: Env, w: World, run: seq<Instr>, now: World, key: Key)
    requires Initial(w) && Run(env, w, run) == now
    requires now.cfg.Keys().Accepts(key, now.clock)
    ensures key != ZERO_KEY && (key == now.cfg.validator || key == now.cfg.secondary)
    ensures WasPrimary(env, w, run, key, now.clock - Config.MAX_GRACE_PERIOD_SECS, now.clock)
  {
    PrimaryNeverZero(env, w, run);
    if key == now.cfg.validator {
      CurrentPrimary(env, w, run, now.clock - Config.MAX_GRACE_PERIOD_SECS);
    } else {
      GraceAccepted(env, w, run, now);
    }
  }

  /** After an immediate cut-over exactly the new key is accepted, at any time. */
  lemma SetValidatorCutsOver(env: Env, w: World, i: Instr, after: World, key: Key, at: i64)
    requires i.Configure? && i.op.SetValidator? && Exec(env, w, i) == Ok(after)
    ensures i.op.key != ZERO_KEY && (after.cfg.Keys().Accepts(key, at) <==> key == i.op.key)
  {
  }

  /** After a rotation the new key is accepted, and the one before it exactly until its grace ends. */
  lemma RotationGrace(env: Env, w: World, i: Instr, after: World, key: Key, at: i64)
    requires i.Configure? && i.op.RotateValidator? && Exec(env, w, i) == Ok(after)
    ensures i.op.key != ZERO_KEY && 0 <= i.op.grace <= 86_400
    ensures after.cfg.Keys().Accepts(key, at)
            <==> key == i.op.key
                 || (key == w.cfg.validator != ZERO_KEY && i.op.grace > 0 && at <= w.clock + i.op.grace)
  {
  }

  /** No step of the run succeeds in setting or rotating the validator key. */
  ghost predicate KeysLeftAlone(env: Env, w: World, run: seq<Instr>) {
    forall k :: 0 <= k < |run| ==> !KeyStepAt(env, w, run, k)
  }

  ghost predicate KeyStepAt(env: Env, w: World, run: seq<Instr>, k: nat)
    requires k < |run|
  {
    && run[k].Configure? && (run[k].op.SetValidator? || run[k].op.RotateValidator?)
    && Exec(env, Run(env, w, run[..k]), run[k]).Ok?
  }

  lemma OtherStepsKeepKeys(env: Env, w: World, i: Instr, after: World)
    requires Effect(env, w, i, after) && !(i.Configure? && (i.op.SetValidator? || i.op.RotateValidator?))
    ensures after.cfg.Keys() == w.cfg.Keys()
  {
  }

  /** Nothing else moves the keys. */
  lemma {:induction false} KeysStay(env: Env, w: World, run: seq<Instr>)
    requires KeysLeftAlone(env, w, run)
    ensures Run(env, w, run).cfg.Keys() == w.cfg.Keys()
  {
    if run != [] {
      var n := |run| - 1;
      var front := run[..n];
      forall k | 0 <= k < n ensures !KeyStepAt(env, w, front, k) {
        assert front[..k] == run[..k];
        assert !KeyStepAt(env, w, run, k);
      }
      KeysStay(env, w, front);
      assert !KeyStepAt(env, w, run, n);
      if Exec(env, Run(env, w, front), run[n]).Ok? {
        ExecEffect(env, Run(env, w, front), run[n]);
        OtherStepsKeepKeys(env, Run(env, w, front), run[n], Exec(env, Run(env, w, front), run[n]).value);
      }
    }
  }

  /** So a cut-over lasts: along any run without another key instruction, at every time, the receipt
      check accepts the new key and no other. */
  lemma {:induction false} CutOverLasts(env: Env, w: World, i: Instr, after: World, run: seq<Instr>, key: Key, at: i64)
    requires i.Configure? && i.op.SetValidator? && Exec(env, w, i) == Ok(after) && KeysLeftAlone(env, after, run)
    ensures Run(env, after, run).cfg.Keys().Accepts(key, at) <==> key == i.op.key
  {
    SetValidatorCutsOver(env, w, i, after, key, at);
    KeysStay(env, after, run);
  }

  /** And a rotation's grace ends on time. */
  lemma {:induction false} GraceEnds(env: Env, w: World, i: Instr, after: World, run: seq<Instr>, key: Key, at: i64)
    requires i.Configure? && i.op.RotateValidator? && Exec(env, w, i) == Ok(after) && KeysLeftAlone(env, after, run)
    ensures Run(env, after, run).cfg.Keys().Accepts(key, at)
            <==> key == i.op.key
                 || (key == w.cfg.validator != ZERO_KEY && i.op.grace > 0 && at <= w.clock + i.op.grace)
  {
    RotationGrace(env, w, i, after, key, at);
    KeysStay(env, after, run);
  }

  // --- Authority ---

  /** At step `k` the admin of the time proposed `key`. */
  ghost predicate ProposedAt(env: Env, w: World, run: seq<Instr>, k: nat, key: Key)
    requires k < |run|
  {
    && run[k].Configure? && run[k].op.ProposeAuthority? && run[k].op.authority == key
    && run[k].op.admin == Run(env, w, run[..k]).cfg.admin
  }

  ghost predicate WasProposed(env: Env, w: World, run: seq<Instr>, key: Key) {
    exists k :: 0 <= k < |run| && ProposedAt(env, w, run, k, key)
  }

  lemma StillProposed(env: Env, w: World, run: seq<Instr>, key: Key)
    requires run != [] && WasProposed(env, w, run[..|run| - 1], key)
    ensures WasProposed(env, w, run, key)
  {
    var front := run[..|run| - 1];
    var k :| 0 <= k < |front| && ProposedAt(env, w, front, k, key);
    assert front[..k] == run[..k];
    assert ProposedAt(env, w, run, k, key);
  }

  /** A step keeps the pending authority, clears it, or the admin proposes it. */
  lemma PendingStep(env: Env, w: World, i: Instr, after: World)
    requires Effect(env, w, i, after) && after.cfg.pending != ZERO_KEY && after.cfg.pending != w.cfg.pending
    ensures i.Configure? && i.op.ProposeAuthority? && i.op.authority == after.cfg.pending && i.op.admin == w.cfg.admin
  {
  }

  lemma {:induction false} PendingWasProposed(env: Env, w: World, run: seq<Instr>)
    requires Initial(w)
    ensures Run(env, w, run).cfg.pending != ZERO_KEY ==> WasProposed(env, w, run, Run(env, w, run).cfg.pending)
  {
    if run != [] {
      var front, last := run[..|run| - 1], run[|run| - 1];
      var before, now := Run(env, w, front), Run(env, w, run);
      PendingWasProposed(env, w, front);
      if now.cfg.pending != ZERO_KEY {
        if now.cfg.pending == before.cfg.pending {
          StillProposed(env, w, run, now.cfg.pending);
        } else {
          ExecEffect(env, before, last);
          PendingStep(env, before, last, now);
          assert ProposedAt(env, w, run, |front|, now.cfg.pending);
        }
      }
    }
  }

  /** How a new admin can come about: it accepted a standing proposal, or the loader's account
      names it as the program's upgrade authority. */
  ghost predicate TookOver(w: World, i: Instr, admin: Key) {
    && i.Configure?
    && match i.op
       case AcceptAuthority(signer) => signer == admin && w.cfg.pending == admin && admin != ZERO_KEY
       case MigrateAdmin(newAdmin, _) => newAdmin == admin && Config.UpgradeAuthority(w.programData) == Some(admin)
       case _ => false
  }

  lemma AdminStep(env: Env, w: World, i: Instr, after: World)
    requires Effect(env, w, i, after) && after.cfg.admin != w.cfg.admin
    ensures TookOver(w, i, after.cfg.admin)
  {
  }

  /** Whenever the admin changes, the new admin signed for it, and either an admin of the run had
      proposed it or it holds the upgrade authority. */
  lemma AdminWasHandedOver(env: Env, w: World, run: seq<Instr>, now: World, i: Instr, after: World)
    requires Initial(w) && Run(env, w, run) == now && Exec(env, now, i) == Ok(after) && after.cfg.admin != now.cfg.admin
    ensures TookOver(now, i, after.cfg.admin)
    ensures i.op.AcceptAuthority? ==> WasProposed(env, w, run, after.cfg.admin)
  {
    ExecEffect(env, now, i);
    AdminStep(env, now, i, after);
    PendingWasProposed(env, w, run);
  }

  // --- Receipts behind baselines ---

  type Signatures = (Key, seq<byte>, seq<byte>) -> bool

  function PurposeOf(i: Instr): Purpose
    requires i.MintAnchor? || i.ResetAnchor? || i.RebaselineAnchor?
  {
    if i.MintAnchor? then ForMint else if i.ResetAnchor? then ForReset else ForRebaseline
  }

  /** The receipt a mint, reset or rebaseline must carry. */
  ghost predicate ReceiptVerified(w: World, i: Instr)
    requires i.MintAnchor? || i.ResetAnchor? || i.RebaselineAnchor?
  {
    VerifyReceipt(i.signed, w.cfg.Keys(), i.wallet, i.commitment, PurposeOf(i), w.cfg.current, w.clock).Ok?
  }

  lemma MintChecked(env: Env, w: World, i: Instr)
    requires i.MintAnchor? && Mint(env, w, i).Ok?
    ensures ReceiptVerified(w, i)
  {
  }

  lemma ResetChecked(env: Env, w: World, i: Instr)
    requires i.ResetAnchor? && Reset(env, w, i).Ok?
    ensures ReceiptVerified(w, i)
  {
  }

  lemma RebaselineChecked(env: Env, w: World, i: Instr)
    requires i.RebaselineAnchor? && Rebaseline(env, w, i).Ok?
    ensures ReceiptVerified(w, i)
  {
  }

  lemma BaselineChecked(env: Env, w: World, i: Instr)
    requires i.MintAnchor? || i.ResetAnchor? || i.RebaselineAnchor?
    requires Exec(env, w, i).Ok?
    ensures ReceiptVerified(w, i)
  {
    if i.MintAnchor? {
      MintChecked(env, w, i);
    } else if i.ResetAnchor? {
      ResetChecked(env, w, i);
    } else {
      RebaselineChecked(env, w, i);
    }
  }

  /** Some key that was primary within a day before `at` signed a message that binds this
      transition and was then at most five minutes old. */
  ghost predicate SignedFor(env: Env, w: World, run: seq<Instr>, valid: Signatures,
                            wallet: Key, commitment: Key, purpose: Purpose, version: u16, at: i64)
  {
    exists key: Key, message, sig ::
      && valid(key, message, sig)
      && WasPrimary(env, w, run, key, at - Config.MAX_GRACE_PERIOD_SECS, at)
      && VerifyPayload(message, wallet, commitment, purpose, version, at).Ok?
  }

  /** The precompile accepted the Ed25519 instruction in front, whatever else the transaction holds. */
  ghost predicate Screened(signed: Option<seq<byte>>, valid: Signatures) {
    signed.Some? ==> exists others: nat -> seq<byte> :: PrecompileAccepts(signed.value, others, valid)
  }

  lemma LoadedWasSigned(env: Env, w: World, run: seq<Instr>, now: World, signed: Option<seq<byte>>, valid: Signatures,
                        sizes: set<nat>)
    returns (key: Key, sig: seq<byte>)
    requires Initial(w) && Run(env, w, run) == now && Screened(signed, valid)
    requires LoadReceipt(signed, now.cfg.Keys(), sizes, now.clock).Ok?
    ensures valid(key, LoadReceipt(signed, now.cfg.Keys(), sizes, now.clock).value, sig)
    ensures WasPrimary(env, w, run, key, now.clock - Config.MAX_GRACE_PERIOD_SECS, now.clock)
  {
    var others: nat -> seq<byte> :| PrecompileAccepts(signed.value, others, valid);
    LoadedMessageWasSigned(signed.value, others, valid, now.cfg.Keys(), sizes, now.clock);
    var message := LoadReceipt(signed, now.cfg.Keys(), sizes, now.clock).value;
    key, sig :| now.cfg.Keys().Accepts(key, now.clock) && key != ZERO_KEY && valid(key, message, sig);
    AcceptedKeyWasPrimary(env, w, run, now, key);
  }

  lemma ReceiptWasSigned(env: Env, w: World, run: seq<Instr>, now: World, i: Instr, valid: Signatures)
    requires Initial(w) && Run(env, w, run) == now
    requires i.MintAnchor? || i.ResetAnchor? || i.RebaselineAnchor?
    requires Screened(i.signed, valid) && ReceiptVerified(now, i)
    ensures SignedFor(env, w, run, valid, i.wallet, i.commitment, PurposeOf(i), now.cfg.current, now.clock)
  {
    var sizes := {V1_LEN, V2_LEN, V3_LEN};
    var key, sig := LoadedWasSigned(env, w, run, now, i.signed, valid, sizes);
    var message := LoadReceipt(i.signed, now.cfg.Keys(), sizes, now.clock).value;
    assert valid(key, message, sig);
    assert VerifyPayload(message, i.wallet, i.commitment, PurposeOf(i), now.cfg.current, now.clock).Ok?;
  }

  /** Every commitment an identity ever starts from was signed for. */
  lemma {:induction false} BaselineWasSigned(env: Env, w: World, run: seq<Instr>, now: World, i: Instr,
                                             valid: Signatures)
    requires Initial(w) && Run(env, w, run) == now
    requires (i.MintAnchor? || i.ResetAnchor? || i.RebaselineAnchor?) && Exec(env, now, i).Ok?
    requires Screened(i.signed, valid)
    ensures SignedFor(env, w, run, valid, i.wallet, i.commitment, PurposeOf(i), now.cfg.current, now.clock)
  {
    BaselineChecked(env, now, i);
    ReceiptWasSigned(env, w, run, now, i, valid);
  }

  // --- Update receipts are used once ---

  /** Nobody migrates into `wallet`. */
  predicate NoneMovesIn(run: seq<Instr>, wallet: Key) {
    forall j :: 0 <= j < |run| && run[j].Migrate? ==> run[j].user != wallet
  }

  ghost predicate VerifiedSince(w: World, wallet: Key, time: int) {
    time <= w.clock && (wallet in w.ids ==> w.ids[wallet].lastVerified >= time)
  }

  lemma StepVerifiedSince(env: Env, w: World, i: Instr, wallet: Key, time: int)
    requires VerifiedSince(w, wallet, time) && (i.Migrate? ==> i.user != wallet)
    ensures VerifiedSince(Step(env, w, i), wallet, time)
  {
    if Exec(env, w, i).Ok? {
      ExecEffect(env, w, i);
      EffectVerifiedSince(env, w, i, Exec(env, w, i).value, wallet, time);
    }
  }

  lemma EffectVerifiedSince(env: Env, w: World, i: Instr, after: World, wallet: Key, time: int)
    requires Effect(env, w, i, after) && VerifiedSince(w, wallet, time) && (i.Migrate? ==> i.user != wallet)
    ensures VerifiedSince(after, wallet, time)
  {
  }

  lemma {:induction false} RunVerifiedSince(env: Env, w: World, run: seq<Instr>, wallet: Key, time: int)
    requires VerifiedSince(w, wallet, time) && NoneMovesIn(run, wallet)
    ensures VerifiedSince(Run(env, w, run), wallet, time)
  {
    if run != [] {
      var front := run[..|run| - 1];
      assert NoneMovesIn(front, wallet);
      RunVerifiedSince(env, w, front, wallet, time);
      StepVerifiedSince(env, Run(env, w, front), run[|run| - 1], wallet, time);
    }
  }

  /** A receipt validated before the update that consumed it is refused by every later update of
      that wallet, through resets, rebaselines, migrations away and re-mints, until an identity
      migrates in. */
  lemma {:induction false} ReceiptUsedOnce(env: Env, w: World, first: Instr, run: seq<Instr>, again: Instr)
    requires first.UpdateAnchor? && Exec(env, w, first).Ok? && first.receipt.validatedAt < w.clock
    requires NoneMovesIn(run, first.wallet)
    requires again.UpdateAnchor? && again.wallet == first.wallet && again.receipt == first.receipt
    ensures Exec(env, Run(env, Step(env, w, first), run), again).Err?
  {
    var after := Step(env, w, first);
    var now := Run(env, after, run);
    ExecEffect(env, w, first);
    assert VerifiedSince(after, first.wallet, w.clock);
    RunVerifiedSince(env, after, run, first.wallet, w.clock);
    if Update(env, now, again).Ok? {
      UpdateWasAccepted(env, now, again);
    }
  }
}
