/** Identities followed through their whole life, across wallets. A life is the list of what
    happened to one identity; everything an account stores is a function of that list, computed on
    an unbounded history, and the bounded account always agrees with it. */
module Lineage {
  import opened Bytes
  import opened Score
  import opened Identities
  import opened Programs
  import opened Requests
  import Config

  datatype LifeEvent =
    | Minted(at: i64, wallet: Key, commitment: Key, version: u16)
    | Updated(at: i64, wallet: Key, version: u16, claim: Claim, inc: u16, max: u16)
    | WasReset(at: i64, wallet: Key, commitment: Key, version: u16)
    | Rebaselined(at: i64, wallet: Key, commitment: Key, version: u16)
    | Authorized(at: i64, to: Key)
    | Moved(at: i64, to: Key)

  type Life = seq<LifeEvent>

  /** What a life amounts to. `times` holds every verification since the last mint or reset, with
      no bound and no gate; `score` is computed from its complete gated log. */
  datatype Standing = Standing(
    owner: Key,
    created: i64,
    latest: i64,
    lastVerified: i64,
    commitment: Key,
    version: u16,
    lastReset: i64,
    lastRebaseline: i64,
    newWallet: Key,
    times: seq<i64>,
    score: u16)

  const UNBORN := Standing(ZERO_KEY, 0, 0, 0, ZERO_KEY, 0, 0, 0, ZERO_KEY, [], 0)

  function LogScore(times: seq<i64>, now: i64, created: i64, inc: u16, max: u16): u16 {
    var s := TrustScore(Gated(times), now, created, inc, max);
    if s.Some? then s.value else 0
  }

  function Apply(p: Standing, e: LifeEvent): Standing {
    match e
    case Minted(at, wallet, commitment, version) =>
      Standing(wallet, at, at, at, commitment, version, 0, 0, ZERO_KEY, [], 0)
    case Updated(at, _, _, claim, inc, max) =>
      p.(latest := at, lastVerified := at, commitment := claim.commitmentNew, times := p.times + [at],
         score := LogScore(p.times + [at], at, p.created, inc, max))
    case WasReset(at, _, commitment, version) =>
      p.(latest := at, lastVerified := at, commitment := commitment, version := version, lastReset := at,
         times := [], score := 0)
    case Rebaselined(at, _, commitment, version) =>
      p.(latest := at, lastVerified := at, commitment := commitment, version := version, lastRebaseline := at)
    case Authorized(at, to) => p.(latest := at, newWallet := to)
    case Moved(at, to) => p.(owner := to, latest := at, newWallet := ZERO_KEY)
  }

  function Replay(life: Life): Standing {
    if life == [] then UNBORN else Apply(Replay(life[..|life| - 1]), life[|life| - 1])
  }

  /** Whether an event could have been accepted in this standing. */
  ghost predicate Legit(p: Standing, e: LifeEvent) {
    && e.at >= p.latest
    && match e
       case Minted(_, _, _, _) => false
       case Updated(_, wallet, version, claim, _, _) =>
         && wallet == p.owner && version == p.version
         && claim.commitmentPrev == p.commitment && claim.commitmentNew != p.commitment
         && claim.commitmentNew != ZERO_KEY
         && MIN_DISTANCE_FLOOR <= claim.minDistance < claim.threshold <= MAX_THRESHOLD
       case WasReset(at, wallet, commitment, version) =>
         && wallet == p.owner && at - p.lastReset >= RESET_COOLDOWN_SECS
         && version >= p.version && commitment != ZERO_KEY
       case Rebaselined(at, wallet, commitment, version) =>
         && wallet == p.owner && at - p.lastRebaseline >= REBASELINE_COOLDOWN_SECS
         && version > p.version && commitment != ZERO_KEY
       case Authorized(_, _) => true
       case Moved(_, to) => to == p.newWallet
  }

  ghost predicate Genuine(life: Life) {
    && life != []
    && if |life| == 1 then life[0].Minted? && life[0].at > 0 && life[0].commitment != ZERO_KEY
       else Genuine(life[..|life| - 1]) && Legit(Replay(life[..|life| - 1]), life[|life| - 1])
  }

  /** The account stores the standing: the count of the full history, and its gated log cut down to
      52 slots. */
  ghost predicate Records(id: Identity, p: Standing) {
    && id.owner == p.owner && id.created == p.created && id.lastVerified == p.lastVerified
    && id.commitment == p.commitment
    && id.version == p.version && id.lastReset == p.lastReset && id.lastRebaseline == p.lastRebaseline
    && id.newWallet == p.newWallet && id.count == |p.times| && id.ring == RingOf(Gated(p.times))
    && id.score == p.score
  }

  // --- What a genuine life guarantees ---

  lemma ClockedExtends(times: seq<i64>, now: i64, at: i64)
    requires Clocked(times, now) && 0 < at && now <= at
    ensures Clocked(times, at) && Clocked(times + [at], at)
  {
  }

  lemma {:induction false} LifeTimes(life: Life)
    requires Genuine(life)
    ensures var p := Replay(life);
            && 0 < p.created <= p.lastVerified <= p.latest && 0 <= p.lastReset <= p.lastVerified
            && 0 <= p.lastRebaseline <= p.lastVerified && Clocked(p.times, p.lastVerified)
            && p.commitment != ZERO_KEY
  {
    if |life| > 1 {
      var front, last := life[..|life| - 1], life[|life| - 1];
      LifeTimes(front);
      if !last.Moved? && !last.Authorized? {
        ClockedExtends(Replay(front).times, Replay(front).lastVerified, last.at);
      }
    } else {
      assert Replay(life[..0]) == UNBORN;
    }
  }

  /** The commitments from the last baseline on. */
  function Chain(life: Life): seq<Key> {
    if life == [] then []
    else
      var front, last := life[..|life| - 1], life[|life| - 1];
      match last
      case Minted(_, _, commitment, _) => [commitment]
      case WasReset(_, _, commitment, _) => [commitment]
      case Rebaselined(_, _, commitment, _) => [commitment]
      case Updated(_, _, _, claim, _, _) => Chain(front) + [claim.commitmentNew]
      case Authorized(_, _) => Chain(front)
      case Moved(_, _) => Chain(front)
  }

  /** The claims of the updates since that baseline. */
  function Proofs(life: Life): seq<Claim> {
    if life == [] then []
    else
      var front, last := life[..|life| - 1], life[|life| - 1];
      match last
      case Minted(_, _, _, _) => []
      case WasReset(_, _, _, _) => []
      case Rebaselined(_, _, _, _) => []
      case Updated(_, _, _, claim, _, _) => Proofs(front) + [claim]
      case Authorized(_, _) => Proofs(front)
      case Moved(_, _) => Proofs(front)
  }

  ghost predicate Links(proof: Claim, from: Key, to: Key) {
    && proof.commitmentPrev == from && proof.commitmentNew == to && from != to
    && 3 <= proof.minDistance < proof.threshold <= 96
  }

  /** The chain of claims: each leads from one commitment to the next, from the last baseline to the
      commitment the life ends with. */
  ghost predicate Chained(life: Life) {
    && |Chain(life)| == |Proofs(life)| + 1 && Chain(life)[|Proofs(life)|] == Replay(life).commitment
    && forall j :: 0 <= j < |Proofs(life)| ==> Links(Proofs(life)[j], Chain(life)[j], Chain(life)[j + 1])
  }

  lemma ChainExtends(life: Life)
    requires Genuine(life) && |life| > 1 && Chained(life[..|life| - 1])
    requires life[|life| - 1].Updated?
    ensures Chained(life)
  {
    var front, e := life[..|life| - 1], life[|life| - 1];
    var chain, proofs := Chain(front), Proofs(front);
    assert Chain(life) == chain + [e.claim.commitmentNew] && Proofs(life) == proofs + [e.claim];
    forall j | 0 <= j < |proofs| + 1
      ensures var longer := chain + [e.claim.commitmentNew];
              Links((proofs + [e.claim])[j], longer[j], longer[j + 1])
    {
      if j < |proofs| {
        assert Links(proofs[j], chain[j], chain[j + 1]);
      }
    }
  }

  lemma {:induction false} ChainUnbroken(life: Life)
    requires Genuine(life)
    ensures Chained(life)
  {
    if |life| > 1 {
      var front, e := life[..|life| - 1], life[|life| - 1];
      ChainUnbroken(front);
      if e.Updated? {
        ChainExtends(life);
      } else if e.Authorized? || e.Moved? {
        assert Chain(life) == Chain(front) && Proofs(life) == Proofs(front);
      }
    }
  }

  predicate IsBaseline(e: LifeEvent) {
    e.Minted? || e.WasReset? || e.Rebaselined?
  }

  /** `b` is the last baseline, and the chain starts with its commitment. */
  ghost predicate StartsAt(life: Life, b: nat) {
    && b < |life| && IsBaseline(life[b]) && Chain(life) != [] && Chain(life)[0] == life[b].commitment
    && forall m :: b < m < |life| ==> !IsBaseline(life[m])
  }

  lemma {:induction false} ChainStart(life: Life) returns (b: nat)
    requires Genuine(life)
    ensures StartsAt(life, b)
  {
    var n := |life| - 1;
    if IsBaseline(life[n]) {
      b := n;
    } else {
      b := ChainStart(life[..n]);
      assert forall m :: 0 <= m < n ==> life[..n][m] == life[m];
    }
  }

  /** Each proof of the chain is the claim of an update after the last baseline. */
  lemma {:induction false} ProofIsUpdate(life: Life, j: nat, b: nat) returns (m: nat)
    requires Genuine(life) && StartsAt(life, b) && j < |Proofs(life)|
    ensures b < m < |life| && life[m].Updated? && life[m].claim == Proofs(life)[j]
  {
    var n := |life| - 1;
    var front := life[..n];
    assert b < n;
    if life[n].Updated? && j == |Proofs(front)| {
      m := n;
    } else {
      assert StartsAt(front, b) by {
        var c := ChainStart(front);
        assert c == b;
      }
      m := ProofIsUpdate(front, j, b);
    }
  }

  /** Updates since the last mint or reset. */
  function UpdateCount(life: Life): nat {
    if life == [] then 0
    else
      var last := life[|life| - 1];
      if last.Minted? || last.WasReset? then 0
      else UpdateCount(life[..|life| - 1]) + (if last.Updated? then 1 else 0)
  }

  lemma {:induction false} CountIsUpdates(life: Life)
    ensures |Replay(life).times| == UpdateCount(life)
  {
    if life != [] {
      CountIsUpdates(life[..|life| - 1]);
    }
  }

  lemma {:induction false} LastResetSeen(life: Life, j: nat)
    requires Genuine(life) && j < |life|
    ensures life[j].WasReset? ==> life[j].at <= Replay(life).lastReset
    ensures life[j].Rebaselined? ==> life[j].at <= Replay(life).lastRebaseline
  {
    var n := |life| - 1;
    if j < n {
      var front := life[..n];
      LastResetSeen(front, j);
      LifeTimes(front);
      assert front[j] == life[j] && Legit(Replay(front), life[n]) && Replay(life) == Apply(Replay(front), life[n]);
    }
  }

  /** Any two resets of one life are a week apart, and so are any two rebaselines. */
  lemma {:induction false} CooldownsHold(life: Life, j: nat, k: nat)
    requires Genuine(life) && j < k < |life|
    ensures life[j].WasReset? && life[k].WasReset? ==> life[k].at - life[j].at >= RESET_COOLDOWN_SECS
    ensures life[j].Rebaselined? && life[k].Rebaselined? ==> life[k].at - life[j].at >= REBASELINE_COOLDOWN_SECS
  {
    var n := |life| - 1;
    if k < n {
      CooldownsHold(life[..n], j, k);
    } else {
      LastResetSeen(life[..n], j);
    }
  }

  function Rebaselines(life: Life): nat {
    if life == [] then 0
    else Rebaselines(life[..|life| - 1]) + (if life[|life| - 1].Rebaselined? then 1 else 0)
  }

  /** Versions only rise, and each rebaseline raises them, so a life has at most as many
      rebaselines as its version number. */
  lemma {:induction false} RebaselinesBounded(life: Life)
    requires Genuine(life)
    ensures Rebaselines(life) <= Replay(life).version
    ensures |life| > 1 ==> Replay(life[..|life| - 1]).version <= Replay(life).version
  {
    if |life| > 1 {
      RebaselinesBounded(life[..|life| - 1]);
    } else {
      assert Rebaselines(life[..0]) == 0;
    }
  }

  lemma {:induction false} PrefixGenuine(life: Life, n: nat)
    requires Genuine(life) && 0 < n <= |life|
    ensures Genuine(life[..n])
  {
    if n < |life| {
      PrefixGenuine(life[..|life| - 1], n);
      assert life[..|life| - 1][..n] == life[..n];
    } else {
      assert life[..n] == life;
    }
  }

  lemma {:induction false} VersionsRise(life: Life, j: nat)
    requires Genuine(life) && j <= |life|
    ensures Replay(life[..j]).version <= Replay(life).version
  {
    var n := |life| - 1;
    if j > n {
      assert life[..j] == life;
    } else if n > 0 {
      VersionsRise(life[..n], j);
      RebaselinesBounded(life);
      assert life[..n][..j] == life[..j];
    } else {
      assert Replay(life[..j]) == UNBORN;
    }
  }

  lemma {:induction false} VersionsInOrder(life: Life, j: nat, k: nat)
    requires Genuine(life) && j < k < |life|
    ensures Replay(life[..j]).version <= Replay(life[..k]).version <= Replay(life).version
  {
    VersionsRise(life, k);
    PrefixGenuine(life, k);
    VersionsRise(life[..k], j);
    assert life[..k][..j] == life[..j];
  }

  /** The last authorisation before position `n` named `to`, and the identity has not moved since. */
  ghost predicate AuthorizedFor(life: Life, n: nat, j: nat, to: Key)
    requires n <= |life|
  {
    && j < n && life[j].Authorized? && life[j].to == to
    && forall m :: j < m < n ==> !life[m].Authorized? && !life[m].Moved?
  }

  lemma {:induction false} PendingWasAuthorized(life: Life) returns (j: nat)
    requires Genuine(life) && Replay(life).newWallet != ZERO_KEY
    ensures AuthorizedFor(life, |life|, j, Replay(life).newWallet)
  {
    var n := |life| - 1;
    if life[n].Authorized? {
      j := n;
    } else {
      j := PendingWasAuthorized(life[..n]);
      forall m | j < m < |life| ensures !life[m].Authorized? && !life[m].Moved? {
        assert m < n ==> life[..n][m] == life[m];
      }
    }
  }

  lemma {:induction false} MovedToPending(life: Life, k: nat)
    requires Genuine(life) && k < |life| && life[k].Moved?
    ensures Genuine(life[..k]) && Replay(life[..k]).newWallet == life[k].to
  {
    var upto := life[..k + 1];
    PrefixGenuine(life, k + 1);
    assert upto[..|upto| - 1] == life[..k] && upto[|upto| - 1] == life[k];
  }

  /** An identity moves only to the wallet it was last authorised for, and each authorisation
      serves one move. */
  lemma {:induction false} MovesWereAuthorized(life: Life, k: nat) returns (j: nat)
    requires Genuine(life) && k < |life| && life[k].Moved? && life[k].to != ZERO_KEY
    ensures AuthorizedFor(life, k, j, life[k].to)
  {
    MovedToPending(life, k);
    var before := life[..k];
    j := PendingWasAuthorized(before);
    assert forall m :: 0 <= m < k ==> before[m] == life[m];
  }

  // --- Lives along a run ---

  function LifeAt(lives: map<Key, Life>, wallet: Key): Life {
    if wallet in lives then lives[wallet] else []
  }

  /** What an update appends to its identity's life. */
  function UpdateEvent(env: Env, w: World, i: Instr): LifeEvent
    requires i.UpdateAnchor? && Stored(env, w, i.slot) && i.wallet in w.ids
  {
    Updated(w.clock, i.wallet, w.ids[i.wallet].version, ClaimAt(env, w, i.slot), w.cfg.baseTrustIncrement,
            w.cfg.maxTrustScore)
  }

  /** The lives after a successful instruction. Migration hands a life to its new wallet. */
  function Lived(env: Env, w: World, lives: map<Key, Life>, i: Instr): map<Key, Life> {
    match i
    case MintAnchor(wallet, commitment, _, _, _, _) =>
      lives[wallet := [Minted(w.clock, wallet, commitment, w.cfg.current)]]
    case UpdateAnchor(wallet, slot, _, _, _, _, _) =>
      if Stored(env, w, slot) && wallet in w.ids then
        lives[wallet := LifeAt(lives, wallet) + [UpdateEvent(env, w, i)]]
      else lives
    case ResetAnchor(wallet, commitment, _, _, _, _) =>
      lives[wallet := LifeAt(lives, wallet) + [WasReset(w.clock, wallet, commitment, w.cfg.current)]]
    case RebaselineAnchor(wallet, commitment, _, _, _, _) =>
      lives[wallet := LifeAt(lives, wallet) + [Rebaselined(w.clock, wallet, commitment, w.cfg.current)]]
    case Authorize(wallet, newWallet, _) =>
      lives[wallet := LifeAt(lives, wallet) + [Authorized(w.clock, newWallet)]]
    case Migrate(wallet, user, _, _, _) =>
      lives[user := LifeAt(lives, wallet) + [Moved(w.clock, user)]] - {wallet}
    case _ => lives
  }

  function Lives(env: Env, w: World, run: seq<Instr>): map<Key, Life> {
    if run == [] then map[]
    else
      var front, last := run[..|run| - 1], run[|run| - 1];
      var before := Run(env, w, front);
      if Exec(env, before, last).Ok? then Lived(env, before, Lives(env, w, front), last) else Lives(env, w, front)
  }

  ghost predicate LifeOk(id: Identity, life: Life, clock: i64) {
    Genuine(life) && Replay(life).latest <= clock && Records(id, Replay(life))
  }

  /** Every live identity has a life and stores what that life amounts to. */
  ghost predicate AllRecorded(w: World, lives: map<Key, Life>) {
    && lives.Keys == w.ids.Keys
    && forall k :: k in w.ids ==> LifeOk(w.ids[k], lives[k], w.clock)
  }

  lemma ReplayLast(front: Life, e: LifeEvent)
    ensures Replay(front + [e]) == Apply(Replay(front), e)
    ensures Genuine(front) ==> (Genuine(front + [e]) <==> Legit(Replay(front), e))
  {
    assert (front + [e])[..|front|] == front;
  }

  lemma BirthOk(env: Env, wallet: Key, commitment: Key, version: u16, now: i64)
    requires now > 0 && commitment != ZERO_KEY
    ensures LifeOk(Newborn(env, wallet, commitment, version, now), [Minted(now, wallet, commitment, version)], now)
  {
    var e := Minted(now, wallet, commitment, version);
    assert [e][..0] == [];
    assert Replay([e]) == Apply(UNBORN, e);
    assert Genuine([e]);
  }

  /** Writing the bounded ring and scoring it records the unbounded history and its score. */
  lemma UpdateRecorded(id: Identity, life: Life, e: LifeEvent, cfg: Config.Config, clock: i64)
    requires LifeOk(id, life, clock) && e.Updated? && Legit(Replay(life), e) && e.at == clock
    requires e.inc == cfg.baseTrustIncrement && e.max == cfg.maxTrustScore
    requires Verified(id, e.claim.commitmentNew, cfg, clock).Ok?
    ensures LifeOk(Verified(id, e.claim.commitmentNew, cfg, clock).value, life + [e], clock)
  {
    var p := Replay(life);
    var times := p.times + [clock];
    LifeTimes(life);
    ReplayLast(life, e);
    assert times[..|p.times|] == p.times;
    assert Clocked(p.times, clock);
    GatedSpaced(p.times, clock);
    RingRefinesLog(Gated(p.times), clock);
    assert Clocked(times, clock);
    GatedSpaced(times, clock);
    RingScoreIsLogScore(Gated(times), clock, id.created, cfg.baseTrustIncrement, cfg.maxTrustScore);
  }

  lemma ResetRecorded(id: Identity, life: Life, e: LifeEvent)
    requires LifeOk(id, life, e.at) && e.WasReset? && Legit(Replay(life), e)
    ensures LifeOk(Cleared(id, e.commitment, e.version, e.at), life + [e], e.at)
  {
    ReplayLast(life, e);
  }

  lemma RebaselineRecorded(id: Identity, life: Life, e: LifeEvent)
    requires LifeOk(id, life, e.at) && e.Rebaselined? && Legit(Replay(life), e)
    ensures LifeOk(Rebased(id, e.commitment, e.version, e.at), life + [e], e.at)
  {
    ReplayLast(life, e);
  }

  lemma AuthorizeRecorded(id: Identity, life: Life, newWallet: Key, clock: i64)
    requires LifeOk(id, life, clock)
    ensures LifeOk(id.(newWallet := newWallet), life + [Authorized(clock, newWallet)], clock)
  {
    ReplayLast(life, Authorized(clock, newWallet));
  }

  lemma MoveRecorded(env: Env, id: Identity, life: Life, user: Key, clock: i64)
    requires LifeOk(id, life, clock) && id.newWallet == user
    ensures LifeOk(Carried(env, id, user), life + [Moved(clock, user)], clock)
  {
    ReplayLast(life, Moved(clock, user));
  }

  /** The identity an instruction writes keeps recording its life. */
  ghost predicate Follows(env: Env, w: World, lives: map<Key, Life>, i: Instr, after: World, wallet: Key) {
    var next := Lived(env, w, lives, i);
    wallet in after.ids && wallet in next && LifeOk(after.ids[wallet], next[wallet], after.clock)
  }

  lemma MintFollows(env: Env, w: World, lives: map<Key, Life>, i: Instr, after: World)
    requires w.clock > 0 && i.MintAnchor? && MintDone(env, w, i, after)
    ensures Follows(env, w, lives, i, after, i.wallet)
  {
    BirthOk(env, i.wallet, i.commitment, w.cfg.current, w.clock);
  }

  lemma ClaimInBounds(env: Env, w: World, i: Instr)
    requires WorldOk(env, w) && i.UpdateAnchor? && Stored(env, w, i.slot)
    ensures var claim := ClaimAt(env, w, i.slot);
            MIN_DISTANCE_FLOOR <= claim.minDistance < claim.threshold <= MAX_THRESHOLD
  {
    if env.bound {
      assert BoundOk(env, w, i.slot, w.bound[i.slot]);
    } else {
      assert PlainOk(i.slot, w.plain[i.slot]);
    }
  }

  lemma UpdateIsLegit(env: Env, w: World, life: Life, i: Instr)
    requires WorldOk(env, w) && i.UpdateAnchor? && UpdateAccepted(env, w, i)
    requires LifeOk(w.ids[i.wallet], life, w.clock)
    ensures Legit(Replay(life), UpdateEvent(env, w, i))
  {
    ClaimInBounds(env, w, i);
    assert IdentityOk(env, w.cfg, i.wallet, w.ids[i.wallet]);
  }

  lemma UpdateFollows(env: Env, w: World, lives: map<Key, Life>, i: Instr, after: World)
    requires i.UpdateAnchor? && UpdateDone(env, w, i, after)
    requires i.wallet in lives && LifeOk(w.ids[i.wallet], lives[i.wallet], w.clock)
    requires Legit(Replay(lives[i.wallet]), UpdateEvent(env, w, i))
    ensures Follows(env, w, lives, i, after, i.wallet)
  {
    UpdateRecorded(w.ids[i.wallet], lives[i.wallet], UpdateEvent(env, w, i), w.cfg, w.clock);
  }

  lemma ResetFollows(env: Env, w: World, lives: map<Key, Life>, i: Instr, after: World)
    requires i.ResetAnchor? && ResetDone(env, w, i, after) && IdentityOk(env, w.cfg, i.wallet, w.ids[i.wallet])
    requires i.wallet in lives && LifeOk(w.ids[i.wallet], lives[i.wallet], w.clock)
    ensures Follows(env, w, lives, i, after, i.wallet)
  {
    LifeTimes(lives[i.wallet]);
    ResetRecorded(w.ids[i.wallet], lives[i.wallet], WasReset(w.clock, i.wallet, i.commitment, w.cfg.current));
  }

  lemma RebaselineFollows(env: Env, w: World, lives: map<Key, Life>, i: Instr, after: World)
    requires i.RebaselineAnchor? && RebaselineDone(env, w, i, after)
             && IdentityOk(env, w.cfg, i.wallet, w.ids[i.wallet])
    requires i.wallet in lives && LifeOk(w.ids[i.wallet], lives[i.wallet], w.clock)
    ensures Follows(env, w, lives, i, after, i.wallet)
  {
    LifeTimes(lives[i.wallet]);
    RebaselineRecorded(w.ids[i.wallet], lives[i.wallet], Rebaselined(w.clock, i.wallet, i.commitment, w.cfg.current));
  }

  lemma AuthorizeFollows(env: Env, w: World, lives: map<Key, Life>, i: Instr, after: World)
    requires i.Authorize? && AuthorizeDone(w, i, after)
    requires i.wallet in lives && LifeOk(w.ids[i.wallet], lives[i.wallet], w.clock)
    ensures Follows(env, w, lives, i, after, i.wallet)
  {
    AuthorizeRecorded(w.ids[i.wallet], lives[i.wallet], i.newWallet, w.clock);
  }

  lemma MoveFollows(env: Env, w: World, lives: map<Key, Life>, i: Instr, after: World)
    requires i.Migrate? && MigrateDone(env, w, i, after)
    requires i.wallet in lives && LifeOk(w.ids[i.wallet], lives[i.wallet], w.clock)
    ensures Follows(env, w, lives, i, after, i.user) && i.wallet !in after.ids
  {
    MoveRecorded(env, w.ids[i.wallet], lives[i.wallet], i.user, w.clock);
  }

  /** Whether the instruction appends to the life at `k`. */
  predicate Writes(i: Instr, k: Key) {
    Touches(i, k) || (i.Authorize? && i.wallet == k)
  }

  /** Identities an instruction does not name keep their lives. */
  lemma OthersFollow(env: Env, w: World, lives: map<Key, Life>, i: Instr, after: World, k: Key)
    requires k in lives && !Writes(i, k) && k in after.ids && w.clock <= after.clock
    requires LifeOk(after.ids[k], lives[k], w.clock)
    ensures Follows(env, w, lives, i, after, k)
  {
    assert k in Lived(env, w, lives, i) && Lived(env, w, lives, i)[k] == lives[k];
  }

  lemma OthersRecorded(env: Env, w: World, lives: map<Key, Life>, i: Instr, after: World, k: Key)
    requires AllRecorded(w, lives) && Effect(env, w, i, after) && k in after.ids && !Writes(i, k)
    ensures Follows(env, w, lives, i, after, k)
  {
    Untouched(env, w, i, after, k);
    ClockMoves(env, w, i, after);
    OthersFollow(env, w, lives, i, after, k);
  }

  lemma UpdateRecordedToo(env: Env, w: World, lives: map<Key, Life>, i: Instr, after: World)
    requires WorldOk(env, w) && AllRecorded(w, lives) && i.UpdateAnchor? && UpdateDone(env, w, i, after)
    ensures Follows(env, w, lives, i, after, i.wallet)
  {
    assert LifeOk(w.ids[i.wallet], lives[i.wallet], w.clock);
    UpdateIsLegit(env, w, lives[i.wallet], i);
    UpdateFollows(env, w, lives, i, after);
  }

  lemma OwnerKnown(env: Env, w: World, lives: map<Key, Life>, i: Instr, after: World)
    requires WorldOk(env, w) && AllRecorded(w, lives) && Effect(env, w, i, after)
    requires i.ResetAnchor? || i.RebaselineAnchor? || i.Authorize? || i.Migrate?
    ensures i.wallet in w.ids && IdentityOk(env, w.cfg, i.wallet, w.ids[i.wallet])
    ensures i.wallet in lives && LifeOk(w.ids[i.wallet], lives[i.wallet], w.clock)
  {
  }

  lemma OwnedFollows(env: Env, w: World, lives: map<Key, Life>, i: Instr, after: World)
    requires Effect(env, w, i, after) && (i.ResetAnchor? || i.RebaselineAnchor? || i.Authorize? || i.Migrate?)
    requires i.wallet in w.ids && IdentityOk(env, w.cfg, i.wallet, w.ids[i.wallet])
    requires i.wallet in lives && LifeOk(w.ids[i.wallet], lives[i.wallet], w.clock)
    ensures Follows(env, w, lives, i, after, Target(i))
  {
    if i.Migrate? {
      MoveFollows(env, w, lives, i, after);
    } else if i.ResetAnchor? {
      ResetFollows(env, w, lives, i, after);
    } else if i.RebaselineAnchor? {
      RebaselineFollows(env, w, lives, i, after);
    } else {
      AuthorizeFollows(env, w, lives, i, after);
    }
  }

  /** The wallet whose identity an instruction leaves written. */
  function Target(i: Instr): Key
    requires Rewrites(i) || i.Authorize? || i.Migrate?
  {
    if i.Migrate? then i.user else i.wallet
  }

  lemma OnlyTarget(env: Env, w: World, i: Instr, after: World, k: Key)
    requires Effect(env, w, i, after) && k in after.ids && Writes(i, k)
    ensures k == Target(i)
  {
  }

  lemma WrittenRecorded(env: Env, w: World, lives: map<Key, Life>, i: Instr, after: World)
    requires WorldOk(env, w) && AllRecorded(w, lives) && Effect(env, w, i, after)
    requires Rewrites(i) || i.Authorize? || i.Migrate?
    ensures Follows(env, w, lives, i, after, Target(i))
  {
    if i.MintAnchor? {
      MintFollows(env, w, lives, i, after);
    } else if i.UpdateAnchor? {
      UpdateRecordedToo(env, w, lives, i, after);
    } else {
      OwnerKnown(env, w, lives, i, after);
      OwnedFollows(env, w, lives, i, after);
    }
  }

  lemma SameWallets(env: Env, w: World, lives: map<Key, Life>, i: Instr, after: World)
    requires AllRecorded(w, lives) && Effect(env, w, i, after)
    ensures Lived(env, w, lives, i).Keys == after.ids.Keys
  {
  }

  lemma EachRecorded(env: Env, w: World, lives: map<Key, Life>, i: Instr, after: World, k: Key)
    requires WorldOk(env, w) && AllRecorded(w, lives) && Effect(env, w, i, after) && k in after.ids
    ensures Follows(env, w, lives, i, after, k)
  {
    if Writes(i, k) {
      OnlyTarget(env, w, i, after, k);
      WrittenRecorded(env, w, lives, i, after);
    } else {
      OthersRecorded(env, w, lives, i, after, k);
    }
  }

  lemma EffectRecorded(env: Env, w: World, lives: map<Key, Life>, i: Instr, after: World)
    requires WorldOk(env, w) && AllRecorded(w, lives) && Effect(env, w, i, after)
    ensures AllRecorded(after, Lived(env, w, lives, i))
  {
    SameWallets(env, w, lives, i, after);
    forall k | k in after.ids ensures Follows(env, w, lives, i, after, k) {
      EachRecorded(env, w, lives, i, after, k);
    }
  }

  /** In every reachable state every identity stores exactly what its whole life amounts to. */
  lemma {:induction false} RunRecorded(env: Env, w: World, run: seq<Instr>)
    requires Initial(w)
    ensures WorldOk(env, Run(env, w, run)) && AllRecorded(Run(env, w, run), Lives(env, w, run))
  {
    InitialOk(env, w);
    RunOk(env, w, run);
    if run != [] {
      var front, last := run[..|run| - 1], run[|run| - 1];
      var before := Run(env, w, front);
      RunRecorded(env, w, front);
      if Exec(env, before, last).Ok? {
        ExecEffect(env, before, last);
        EffectRecorded(env, before, Lives(env, w, front), last, Exec(env, before, last).value);
      }
    }
  }

  // --- Reachable identities ---

  /** Wherever an identity has moved, its resets are a week apart, its rebaselines are a week apart,
      and its version has only risen. */
  lemma {:induction false} ReachableCooldowns(env: Env, w: World, run: seq<Instr>, wallet: Key, j: nat, k: nat)
    requires Initial(w) && wallet in Run(env, w, run).ids
    ensures wallet in Lives(env, w, run)
    ensures j < k < |Lives(env, w, run)[wallet]| ==>
            var life := Lives(env, w, run)[wallet];
            && (life[j].WasReset? && life[k].WasReset? ==> life[k].at - life[j].at >= 604_800)
            && (life[j].Rebaselined? && life[k].Rebaselined? ==> life[k].at - life[j].at >= 604_800)
            && Replay(life[..j]).version <= Replay(life[..k]).version <= Run(env, w, run).ids[wallet].version
  {
    RunRecorded(env, w, run);
    var now, life := Run(env, w, run), Lives(env, w, run)[wallet];
    assert LifeOk(now.ids[wallet], life, now.clock);
    if j < k < |life| {
      CooldownsHold(life, j, k);
      VersionsInOrder(life, j, k);
    }
  }

  /** In every reachable state each move of an identity's past went to the wallet its then owner had
      last authorised. */
  lemma {:induction false} ReachableMoves(env: Env, w: World, run: seq<Instr>, wallet: Key, k: nat)
    requires Initial(w) && wallet in Run(env, w, run).ids
    ensures wallet in Lives(env, w, run)
    ensures var life := Lives(env, w, run)[wallet];
            k < |life| && life[k].Moved? && life[k].to != ZERO_KEY ==> exists j :: AuthorizedFor(life, k, j, life[k].to)
  {
    RunRecorded(env, w, run);
    var now, life := Run(env, w, run), Lives(env, w, run)[wallet];
    assert LifeOk(now.ids[wallet], life, now.clock);
    if k < |life| && life[k].Moved? && life[k].to != ZERO_KEY {
      var j := MovesWereAuthorized(life, k);
    }
  }

  /** The stored ring against every verification since the last mint or reset, at any later time:
      no bin too many, and no bin lost by more than one place. */
  lemma {:induction false} ReachableRing(env: Env, w: World, run: seq<Instr>, now: World, wallet: Key, k: nat)
    requires Initial(w) && Run(env, w, run) == now && wallet in now.ids
    ensures wallet in Lives(env, w, run)
    ensures var ring, times := now.ids[wallet].ring, Replay(Lives(env, w, run)[wallet]).times;
            && (k < NUM_BINS && Active(ring, now.clock, k) ==> Active(times, now.clock, k))
            && (k + 1 < NUM_BINS && Active(times, now.clock, k) ==>
                  Active(ring, now.clock, k) || Active(ring, now.clock, k + 1))
            && (forall i, j :: 0 <= i < j < SLOTS && ring[i] != 0 && ring[j] != 0 ==>
                  BinOf(now.clock, ring[i]) < BinOf(now.clock, ring[j]))
  {
    RunRecorded(env, w, run);
    var life := Lives(env, w, run)[wallet];
    assert LifeOk(now.ids[wallet], life, now.clock);
    LifeTimes(life);
    var times := Replay(life).times;
    ClockedExtends(times, Replay(life).lastVerified, now.clock);
    RingAgainstHistory(times, now.clock, k);
    GatedSpaced(times, now.clock);
    var ring := now.ids[wallet].ring;
    forall i, j | 0 <= i < j < SLOTS && ring[i] != 0 && ring[j] != 0
      ensures BinOf(now.clock, ring[i]) < BinOf(now.clock, ring[j])
    {
      RingBinsDistinct(Gated(times), now.clock, i, j);
    }
  }

  lemma NewestBinActive(times: seq<i64>, now: i64)
    requires Clocked(times, now) && times != [] && times[|times| - 1] == now
    ensures Active(RingOf(Gated(times)), now, 0)
  {
    var j := Keeper(times, now, |times| - 1);
    GatedSpaced(times, now);
    assert BinOf(now, Gated(times)[j]) == 0;
    RingActivatesLogBins(Gated(times), now, 0);
  }

  /** A score just computed: it is the score of the complete log, it lies between the floor and the
      ceiling, and the registry preview of the ten newest ring entries is close below it. */
  ghost predicate Scored(id: Identity, p: Standing, now: i64, inc: u16, max: u16) {
    var preview := TrustScore(id.ring[..10], now, id.created, inc, max);
    && id.score == LogScore(p.times, now, p.created, inc, max)
    && IsScore(Gated(p.times), now, p.created, inc, max, id.score)
    && Min(inc, max) <= id.score <= Min(78 * inc / 12 + 76, max)
    && preview.Some? && preview.value <= id.score <= preview.value + 2 * inc / 12 + inc / 12
  }

  lemma ScoreOfUpdated(id: Identity, p: Standing, now: i64, inc: u16, max: u16)
    requires Records(id, p) && p.times != [] && p.times[|p.times| - 1] == now && Clocked(p.times, now)
    requires 0 < p.created <= now && p.score == LogScore(p.times, now, p.created, inc, max)
    ensures Scored(id, p, now, inc, max)
  {
    GatedSpaced(p.times, now);
    RingScoreIsLogScore(Gated(p.times), now, p.created, inc, max);
    NewestBinActive(p.times, now);
    ScoreMeans(Gated(p.times), now, p.created, inc, max);
    TrustScoreBounds(id.ring, now, p.created, inc, max);
    PreviewGap(Gated(p.times), now, p.created, inc, max);
  }

  lemma LifeAfterUpdate(life: Life, e: LifeEvent, id: Identity)
    requires e.Updated? && LifeOk(id, life + [e], e.at) && Legit(Replay(life), e)
    ensures Scored(id, Replay(life + [e]), e.at, e.inc, e.max)
  {
    ReplayLast(life, e);
    LifeTimes(life + [e]);
    ScoreOfUpdated(id, Replay(life + [e]), e.at, e.inc, e.max);
  }

  lemma UpdateScored(env: Env, w: World, lives: map<Key, Life>, i: Instr, after: World)
    requires WorldOk(env, w) && AllRecorded(w, lives) && i.UpdateAnchor? && UpdateDone(env, w, i, after)
    ensures i.wallet in after.ids && i.wallet in Lived(env, w, lives, i)
    ensures Scored(after.ids[i.wallet], Replay(Lived(env, w, lives, i)[i.wallet]), w.clock,
                   w.cfg.baseTrustIncrement, w.cfg.maxTrustScore)
  {
    UpdateRecordedToo(env, w, lives, i, after);
    UpdateIsLegit(env, w, lives[i.wallet], i);
    LifeAfterUpdate(lives[i.wallet], UpdateEvent(env, w, i), after.ids[i.wallet]);
  }

  /** After any update in any run the stored score is the score of the complete, unbounded log of
      the identity's life. */
  lemma {:induction false} UpdateScores(env: Env, w: World, run: seq<Instr>, now: World, i: Instr, after: World)
    requires Initial(w) && Run(env, w, run) == now && i.UpdateAnchor? && Exec(env, now, i) == Ok(after)
    ensures i.wallet in after.ids && i.wallet in Lived(env, now, Lives(env, w, run), i)
    ensures Scored(after.ids[i.wallet], Replay(Lived(env, now, Lives(env, w, run), i)[i.wallet]),
                   now.clock, now.cfg.baseTrustIncrement, now.cfg.maxTrustScore)
  {
    RunRecorded(env, w, run);
    ExecEffect(env, now, i);
    UpdateScored(env, now, Lives(env, w, run), i, after);
  }

  // --- Conservation of identities ---

  function Mints(env: Env, w: World, run: seq<Instr>): nat {
    if run == [] then 0
    else
      var front, last := run[..|run| - 1], run[|run| - 1];
      Mints(env, w, front) + (if last.MintAnchor? && Exec(env, Run(env, w, front), last).Ok? then 1 else 0)
  }

  lemma MigrateCountsIdentities(w: World, wallet: Key, user: Key, id: Identity)
    requires wallet in w.ids && user !in w.ids
    ensures |w.ids[user := id] - {wallet}| == |w.ids|
  {
    var moved := w.ids[user := id] - {wallet};
    assert moved.Keys == w.ids.Keys + {user} - {wallet};
    assert |moved.Keys| == |moved| && |w.ids.Keys| == |w.ids|;
  }

  lemma WriteCountsIdentities(ids: map<Key, Identity>, wallet: Key, id: Identity)
    ensures |ids[wallet := id]| == |ids| + (if wallet in ids then 0 else 1)
  {
    assert ids[wallet := id].Keys == ids.Keys + {wallet};
    assert |ids[wallet := id].Keys| == |ids[wallet := id]| && |ids.Keys| == |ids|;
  }

  lemma EffectCountsIdentities(env: Env, w: World, i: Instr, after: World)
    requires Effect(env, w, i, after)
    ensures |after.ids| == |w.ids| + (if i.MintAnchor? then 1 else 0)
  {
    if i.Migrate? {
      MigrateCountsIdentities(w, i.wallet, i.user, after.ids[i.user]);
    } else if i.MintAnchor? || i.UpdateAnchor? || i.ResetAnchor? || i.RebaselineAnchor? || i.Authorize? {
      WriteCountsIdentities(w.ids, i.wallet, after.ids[i.wallet]);
    }
  }

  /** Migration neither makes nor loses an identity: there are as many as were minted. */
  lemma {:induction false} IdentitiesAreMints(env: Env, w: World, run: seq<Instr>)
    requires Initial(w)
    ensures |Run(env, w, run).ids| == Mints(env, w, run)
  {
    if run != [] {
      var front, last := run[..|run| - 1], run[|run| - 1];
      var before := Run(env, w, front);
      IdentitiesAreMints(env, w, front);
      if Exec(env, before, last).Ok? {
        ExecEffect(env, before, last);
        EffectCountsIdentities(env, before, last, Exec(env, before, last).value);
      }
    }
  }
}
