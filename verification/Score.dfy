/** The Trust Score engine: the gated activity ring, the weekly bins and the integer square root. */
module Score {
  import opened Bytes

  const WEEK: i64 := 604_800
  const DAY: i64 := 86_400
  const NUM_BINS: nat := 12
  const SLOTS: nat := 52

  // --- The activity ring ---

  /** The 52 recorded times, newest first; 0 marks an unused slot. */
  type Ring = r: seq<i64> | |r| == SLOTS witness seq(SLOTS, _ => 0)

  const EMPTY_RING: Ring := RingOf([])

  /** Whether a verification at `now` opens a new bin, given the newest recorded entry (0: none). */
  predicate OpensBin(newest: i64, now: i64) {
    newest == 0 || SatSub(now, newest) >= WEEK
  }

  function Recorded(ring: Ring, now: i64): Ring {
    if OpensBin(ring[0], now) then [now] + ring[..SLOTS - 1] else ring
  }

  method RecordVerification(ring: array<i64>, now: i64)
    requires ring.Length == SLOTS
    modifies ring
    ensures ring[..] == Recorded(old(ring[..]), now)
  {
    if !OpensBin(ring[0], now) {
      return;
    }
    ghost var was: Ring := ring[..];
    var i := ring.Length - 1;
    while i > 0
      invariant 0 <= i < SLOTS
      invariant forall k :: 0 <= k <= i ==> ring[k] == was[k]
      invariant forall k :: i < k < SLOTS ==> ring[k] == was[k - 1]
    {
      ring[i] := ring[i - 1];
      i := i - 1;
    }
    ring[0] := now;
  }

  // --- The unbounded log the ring stands for ---

  /** The gated log, newest first, of every verification since the last mint or reset (oldest
      first in `times`). It never drops an entry. */
  function Gated(times: seq<i64>): seq<i64> {
    if times == [] then []
    else Admit(Gated(times[..|times| - 1]), times[|times| - 1])
  }

  function Admit(log: seq<i64>, now: i64): seq<i64> {
    if OpensBin(if log == [] then 0 else log[0], now) then [now] + log else log
  }

  /** The newest 52 log entries, padded with zeros. */
  function RingOf(log: seq<i64>): Ring {
    seq(SLOTS, i requires 0 <= i => if i < |log| then log[i] else 0)
  }

  /** Positive times that never go backwards: what a running clock produces. */
  ghost predicate Clocked(times: seq<i64>, now: i64) {
    && (forall i :: 0 <= i < |times| ==> 0 < times[i] <= now)
    && (forall i, j :: 0 <= i < j < |times| ==> times[i] <= times[j])
  }

  /** Log entries are at least a week apart, position by position. */
  ghost predicate Spaced(log: seq<i64>, now: i64) {
    && (forall i :: 0 <= i < |log| ==> 0 < log[i] <= now)
    && (forall i, j :: 0 <= i < j < |log| ==> log[i] - log[j] >= WEEK * (j - i))
  }

  /** Writing the bounded ring is writing the unbounded log. */
  lemma RingRefinesLog(log: seq<i64>, now: i64)
    requires forall i :: 0 <= i < |log| ==> log[i] > 0
    ensures Recorded(RingOf(log), now) == RingOf(Admit(log, now))
  {
    if log == [] {
      assert Recorded(RingOf(log), now) == RingOf([now]);
    }
  }

  lemma AdmitSpaced(log: seq<i64>, now: i64, later: i64)
    requires Spaced(log, now) && 0 < now <= later
    ensures Spaced(Admit(log, later), later)
  {
    var after := Admit(log, later);
    if after != log {
      forall i, j | 0 <= i < j < |after| ensures after[i] - after[j] >= WEEK * (j - i) {
        if i == 0 && j > 1 {
          assert log[0] - log[j - 1] >= WEEK * (j - 1);
          assert WEEK * j == WEEK * (j - 1) + WEEK;
        } else if i > 0 {
          assert log[i - 1] - log[j - 1] >= WEEK * (j - i);
        }
      }
    }
  }

  lemma {:induction false} GatedSpaced(times: seq<i64>, now: i64)
    requires Clocked(times, now)
    ensures Spaced(Gated(times), now)
  {
    if times != [] {
      var earlier, last := times[..|times| - 1], times[|times| - 1];
      GatedSpaced(earlier, last);
      AdmitSpaced(Gated(earlier), last, last);
    }
  }

  /** The `i`-th verification found the newest recorded entry at least a week old. */
  predicate OpenedAt(times: seq<i64>, i: nat)
    requires i < |times|
  {
    var log := Gated(times[..i]);
    OpensBin(if log == [] then 0 else log[0], times[i])
  }

  /** Every gated entry is a verification that opened a bin. */
  lemma {:induction false} Opener(times: seq<i64>, j: nat) returns (i: nat)
    requires j < |Gated(times)|
    ensures i < |times| && times[i] == Gated(times)[j] && OpenedAt(times, i)
  {
    var n := |times| - 1;
    var earlier := times[..n];
    if Gated(times) == Gated(earlier) {
      i := Opener(earlier, j);
      assert times[..i] == earlier[..i];
    } else if j > 0 {
      i := Opener(earlier, j - 1);
      assert times[..i] == earlier[..i];
    } else {
      i := n;
    }
  }

  /** Every verification that opened a bin stays in the gated log. */
  lemma {:induction false} OpenerRecorded(times: seq<i64>, i: nat)
    requires i < |times| && OpenedAt(times, i)
    ensures times[i] in Gated(times)
  {
    var n := |times| - 1;
    if i < n {
      var earlier := times[..n];
      assert times[..i] == earlier[..i];
      OpenerRecorded(earlier, i);
    }
  }

  /** Every verification is covered by a gated entry less than a week older. */
  lemma {:induction false} Keeper(times: seq<i64>, now: i64, i: nat) returns (j: nat)
    requires Clocked(times, now) && i < |times|
    ensures j < |Gated(times)| && Gated(times)[j] <= times[i] < Gated(times)[j] + WEEK
  {
    var n := |times| - 1;
    var earlier, last := times[..n], times[n];
    GatedSpaced(earlier, last);
    if i == n {
      j := 0;
    } else {
      j := Keeper(earlier, last, i);
      if Gated(times) != Gated(earlier) {
        j := j + 1;
      }
    }
  }

  // --- Weekly bins ---

  /** `(now.saturating_sub(timestamp) / BIN_SIZE_SECS) as usize`: a negative quotient wraps to a
      huge index. */
  function BinOf(now: i64, timestamp: i64): nat {
    var q := TruncDiv(SatSub(now, timestamp), WEEK);
    if q < 0 then q + TWO64 else q
  }

  /** Some recorded entry lies in bin `k`. */
  predicate Active(entries: seq<i64>, now: i64, k: nat) {
    exists i :: 0 <= i < |entries| && entries[i] != 0 && BinOf(now, entries[i]) == k
  }

  function Weight(inc: u16, k: nat): nat
    requires k < NUM_BINS
  {
    inc * (NUM_BINS - k) / NUM_BINS
  }

  /** The total weight of the active bins among the newest `n`. */
  function BaseScore(entries: seq<i64>, now: i64, inc: u16, n: nat): nat
    requires n <= NUM_BINS
  {
    if n == 0 then 0
    else BaseScore(entries, now, inc, n - 1) + (if Active(entries, now, n - 1) then Weight(inc, n - 1) else 0)
  }

  /** In a spaced log an older entry is at least one bin further on for every position. */
  lemma BinsAdvance(log: seq<i64>, now: i64, i: nat, j: nat)
    requires Spaced(log, now) && i <= j < |log|
    ensures BinOf(now, log[j]) >= BinOf(now, log[i]) + (j - i)
  {
    var a, b := now - log[i], now - log[j];
    assert i < j ==> log[i] - log[j] >= WEEK * (j - i);
    assert b >= a + WEEK * (j - i);
    assert (a + WEEK * (j - i)) / WEEK == a / WEEK + (j - i);
  }

  /** Distinct ring entries always fall in distinct bins. */
  lemma RingBinsDistinct(log: seq<i64>, now: i64, i: nat, j: nat)
    requires Spaced(log, now) && i < j < SLOTS
    requires RingOf(log)[i] != 0 && RingOf(log)[j] != 0
    ensures BinOf(now, RingOf(log)[i]) < BinOf(now, RingOf(log)[j])
  {
    BinsAdvance(log, now, i, j);
  }

  /** Every entry the ring has dropped lies outside the scoring window, so the ring and the full
      log activate the same bins. */
  lemma RingActivatesLogBins(log: seq<i64>, now: i64, k: nat)
    requires Spaced(log, now) && k < NUM_BINS
    ensures Active(RingOf(log), now, k) <==> Active(log, now, k)
  {
    var ring := RingOf(log);
    if Active(ring, now, k) {
      var i :| 0 <= i < |ring| && ring[i] != 0 && BinOf(now, ring[i]) == k;
      assert log[i] == ring[i];
    }
    if Active(log, now, k) {
      var i :| 0 <= i < |log| && log[i] != 0 && BinOf(now, log[i]) == k;
      BinsAdvance(log, now, 0, i);
      assert ring[i] == log[i];
    }
  }

  lemma {:induction false} SameBinsSameScore(a: seq<i64>, b: seq<i64>, now: i64, inc: u16, n: nat)
    requires n <= NUM_BINS
    requires forall k :: 0 <= k < n ==> (Active(a, now, k) <==> Active(b, now, k))
    ensures BaseScore(a, now, inc, n) == BaseScore(b, now, inc, n)
  {
    if n > 0 {
      SameBinsSameScore(a, b, now, inc, n - 1);
    }
  }

  /** Against the full, ungated history the ring is exact up to one bin: it never activates a bin
      the history does not, and for a history-active bin it has that bin or the next older one. */
  lemma RingAgainstHistory(times: seq<i64>, now: i64, k: nat)
    requires Clocked(times, now)
    ensures k < NUM_BINS && Active(RingOf(Gated(times)), now, k) ==> Active(times, now, k)
    ensures k + 1 < NUM_BINS && Active(times, now, k) ==>
              Active(RingOf(Gated(times)), now, k) || Active(RingOf(Gated(times)), now, k + 1)
  {
    var log := Gated(times);
    GatedSpaced(times, now);
    if k < NUM_BINS && Active(RingOf(log), now, k) {
      RingActivatesLogBins(log, now, k);
      var j :| 0 <= j < |log| && log[j] != 0 && BinOf(now, log[j]) == k;
      var i := Opener(times, j);
    }
    if k + 1 < NUM_BINS && Active(times, now, k) {
      var i :| 0 <= i < |times| && times[i] != 0 && BinOf(now, times[i]) == k;
      var j := Keeper(times, now, i);
      NextBin(now, times[i], log[j]);
      assert Active(log, now, k) || Active(log, now, k + 1);
      RingActivatesLogBins(log, now, k);
      RingActivatesLogBins(log, now, k + 1);
    }
  }

  lemma NextBin(now: i64, t: i64, g: i64)
    requires 0 < g <= t <= now && t < g + WEEK
    ensures BinOf(now, t) <= BinOf(now, g) <= BinOf(now, t) + 1
  {
  }

  /** The ring can miss a bin: a repeat inside a bin that is open now may fall in a bin of its own
      later. Two verifications six days apart, seen two weeks after the first. */
  lemma RingCanMissABin()
    ensures var times: seq<i64> := [1, 1 + 6 * DAY];
            var now: i64 := 1 + 2 * WEEK;
            Clocked(times, now) && Active(times, now, 1) && !Active(RingOf(Gated(times)), now, 1)
  {
    var times: seq<i64> := [1, 1 + 6 * DAY];
    var now: i64 := 1 + 2 * WEEK;
    assert times[..1] == [1];
    assert Gated([1]) == [1] by {
      assert [1][..0] == [];
    }
    assert Gated(times) == [1];
    assert BinOf(now, times[1]) == 1 && BinOf(now, 1) == 2;
  }

  /** Exactly when a bin is active: a verification that opened a bin lies in it. */
  lemma {:induction false} RingBinsExactly(times: seq<i64>, now: i64, k: nat)
    requires Clocked(times, now) && k < NUM_BINS
    ensures Active(RingOf(Gated(times)), now, k) <==>
            exists i :: 0 <= i < |times| && BinOf(now, times[i]) == k && OpenedAt(times, i)
  {
    var log := Gated(times);
    GatedSpaced(times, now);
    RingActivatesLogBins(log, now, k);
    if Active(log, now, k) {
      var j :| 0 <= j < |log| && log[j] != 0 && BinOf(now, log[j]) == k;
      var i := Opener(times, j);
    } else if i :| 0 <= i < |times| && BinOf(now, times[i]) == k && OpenedAt(times, i) {
      OpenerRecorded(times, i);
    }
  }

  // --- Integer square root ---

  ghost predicate IsRoot(n: nat, r: nat) {
    r * r <= n < (r + 1) * (r + 1)
  }

  lemma SquaresGrow(a: nat, b: nat)
    ensures a <= b ==> a * a <= b * b
  {
    if a <= b {
      assert a * a <= a * b <= b * b;
    }
  }

  lemma RootUnique(n: nat, r: nat, s: nat)
    requires IsRoot(n, r) && IsRoot(n, s)
    ensures r == s
  {
    SquaresGrow(r + 1, s);
    SquaresGrow(s + 1, r);
  }

  lemma YearRoot(days: nat, r: nat)
    requires IsRoot(days, r) && days <= 365
    ensures r < 20
  {
    SquaresGrow(20, r);
  }

  function Root(n: nat): (r: nat)
    ensures IsRoot(n, r)
  {
    if n == 0 then 0
    else
      var r := Root(n - 1);
      if (r + 1) * (r + 1) <= n then r + 1 else r
  }

  lemma MeanBeatsProduct(a: nat, b: nat)
    ensures 4 * (a * b) <= (a + b) * (a + b)
  {
    var d := a - b;
    assert d * d >= 0;
    assert (a + b) * (a + b) == d * d + 4 * (a * b);
  }

  lemma Doubled(a: nat)
    ensures (2 * a) * (2 * a) == 4 * (a * a)
  {
  }

  lemma DivBounds(n: nat, x: nat)
    requires x > 0
    ensures x * (n / x) <= n < x * (n / x + 1)
  {
    assert n == x * (n / x) + n % x;
    assert x * (n / x + 1) == x * (n / x) + x;
  }

  /** One Newton step. */
  function Next(n: nat, x: nat): nat
    requires x > 0
  {
    (x + n / x) / 2
  }

  ghost predicate Above(n: nat, x: nat) {
    (x + 1) * (x + 1) > n
  }

  /** A Newton step never falls below the root. */
  lemma NewtonStaysAbove(n: nat, x: nat)
    requires x > 0
    ensures Above(n, Next(n, x))
  {
    var y, q := Next(n, x), n / x;
    var twice := 2 * (y + 1);
    DivBounds(n, x);
    MeanBeatsProduct(x, q + 1);
    SquaresGrow(x + (q + 1), twice);
    Doubled(y + 1);
  }

  /** The first iterate, rounded up from n / 2, is the Newton step from n itself. */
  lemma NewtonStart(n: nat)
    requires n > 0
    ensures Next(n, n) == n / 2 + n % 2 && Above(n, n)
  {
    assert n / n == 1;
    SquaresGrow(1, n);
    assert (n + 1) * (n + 1) == n * n + 2 * n + 1;
  }

  lemma Scale(x: nat, a: nat, b: nat)
    requires a <= b
    ensures x * a <= x * b
  {
  }

  lemma QuotientHalves(n: nat, x: nat)
    requires x >= 2
    ensures n / x <= n / 2
  {
    var q := n / x;
    DivBounds(n, x);
    Scale(q, 2, x);
    assert q * x == x * q;
  }

  /** `x + n / x` stays in range for every iterate the loop divides by. */
  lemma NewtonFits(n: u64, x: nat)
    requires 0 < x <= (n + 1) / 2 && Above(n, x)
    ensures x + n / x <= U64_MAX
  {
    if x >= 2 {
      QuotientHalves(n, x);
    } else {
      assert n / 1 == n;
    }
  }

  lemma NewtonPositive(n: nat, x: nat)
    requires n > 0 && x > 0
    ensures Next(n, x) > 0
  {
    if x == 1 {
      assert n / x == n;
    }
  }

  /** The first iterate that does not fall is the root. */
  lemma NewtonStop(n: nat, x: nat)
    requires x > 0 && Above(n, x) && Next(n, x) >= x
    ensures IsRoot(n, x)
  {
    var q := n / x;
    assert x <= q;
    Scale(x, x, q);
    DivBounds(n, x);
  }

  /** What one turn of the loop keeps. */
  ghost predicate Iterating(n: u64, x: nat, y: nat) {
    0 < x <= n && y == Next(n, x) && Above(n, x) && (y < x ==> 0 < y <= (n + 1) / 2)
  }

  lemma NewtonTurn(n: u64, x: nat, y: nat)
    requires Iterating(n, x, y) && y < x
    ensures Iterating(n, y, Next(n, y)) && y + n / y <= U64_MAX
  {
    NewtonStaysAbove(n, x);
    NewtonFits(n, y);
    NewtonPositive(n, y);
  }

  /** Newton's method on `u64`; `div_ceil(2)` gives the first iterate. */
  method Isqrt(n: u64) returns (x: u64)
    ensures IsRoot(n, x)
  {
    if n == 0 {
      return 0;
    }
    x := n;
    var y: u64 := x / 2 + x % 2;
    NewtonStart(n);
    NewtonPositive(n, n);
    while y < x
      invariant Iterating(n, x, y)
      decreases x
    {
      NewtonTurn(n, x, y);
      x := y;
      var sum: u64 := x + n / x;
      y := sum / 2;
    }
    NewtonStop(n, x);
  }

  // --- The Trust Score ---

  /** Whole days since creation, never negative, capped at a year; none when the age overflows. */
  function AgeDays(now: i64, created: i64): Option<nat> {
    if I64_MIN <= now - created <= I64_MAX then
      var days := TruncDiv(now - created, DAY);
      Some(if days < 0 then 0 else if days > 365 then 365 else days)
    else None
  }

  function Min(a: nat, b: nat): nat { if a <= b then a else b }

  /** What both programs compute from the recorded entries: weighted bins plus an age bonus, under
      the configured ceiling. */
  function TrustScore(entries: seq<i64>, now: i64, created: i64, inc: u16, max: u16): (s: Option<nat>)
    ensures s.Some? ==> s.value <= max
  {
    match AgeDays(now, created)
    case None => None
    case Some(days) => Some(Min(BaseScore(entries, now, inc, NUM_BINS) + 4 * Root(days), max))
  }

  // --- What the score is, in plain arithmetic ---

  /** Entry `t` is `k` whole weeks old at `now`; one less than a week ahead counts as new. */
  ghost predicate InWeek(now: i64, t: i64, k: nat) {
    if k == 0 then -604_800 < now - t < 604_800 else 604_800 * k <= now - t < 604_800 * (k + 1)
  }

  ghost predicate WeekUsed(entries: seq<i64>, now: i64, k: nat) {
    exists i :: 0 <= i < |entries| && entries[i] != 0 && InWeek(now, entries[i], k)
  }

  function Sum(w: seq<nat>): nat {
    if w == [] then 0 else Sum(w[..|w| - 1]) + w[|w| - 1]
  }

  /** A used week `k` earns the whole part of (12 - k) twelfths of the increment, an unused one nothing. */
  ghost predicate Weighed(w: seq<nat>, entries: seq<i64>, now: i64, inc: u16) {
    && |w| == 12
    && forall k :: 0 <= k < 12 ==>
         if WeekUsed(entries, now, k) then 12 * w[k] <= inc * (12 - k) < 12 * w[k] + 12 else w[k] == 0
  }

  /** Whole days in a span, none for a negative one and never more than a year. */
  ghost predicate WholeDays(seconds: int, days: nat) {
    && days <= 365
    && (days > 0 ==> 86_400 * days <= seconds)
    && (days < 365 ==> seconds < 86_400 * (days + 1))
  }

  ghost predicate ScoredBy(w: seq<nat>, days: nat, r: nat, entries: seq<i64>, now: i64, created: i64, inc: u16,
                           max: u16, score: nat)
  {
    && Weighed(w, entries, now, inc) && WholeDays(now - created, days) && r * r <= days < (r + 1) * (r + 1)
    && score == Min(Sum(w) + 4 * r, max)
  }

  /** The Trust Score: what the used weeks earn and four points for every root day, under the ceiling. */
  ghost predicate IsScore(entries: seq<i64>, now: i64, created: i64, inc: u16, max: u16, score: nat) {
    exists w, days, r :: ScoredBy(w, days, r, entries, now, created, inc, max, score)
  }

  lemma BinIsWeek(now: i64, t: i64, k: nat)
    requires k < NUM_BINS
    ensures BinOf(now, t) == k <==> InWeek(now, t, k)
  {
  }

  lemma ActiveIsUsed(entries: seq<i64>, now: i64, k: nat)
    requires k < NUM_BINS
    ensures Active(entries, now, k) <==> WeekUsed(entries, now, k)
  {
    forall i | 0 <= i < |entries| ensures BinOf(now, entries[i]) == k <==> InWeek(now, entries[i], k) {
      BinIsWeek(now, entries[i], k);
    }
  }

  lemma WeightIsQuotient(inc: u16, k: nat)
    requires k < NUM_BINS
    ensures 12 * Weight(inc, k) <= inc * (12 - k) < 12 * Weight(inc, k) + 12
  {
  }

  lemma {:induction false} Weights(entries: seq<i64>, now: i64, inc: u16, n: nat) returns (w: seq<nat>)
    requires n <= NUM_BINS
    ensures |w| == n && Sum(w) == BaseScore(entries, now, inc, n)
    ensures forall k :: 0 <= k < n ==>
              if WeekUsed(entries, now, k) then 12 * w[k] <= inc * (12 - k) < 12 * w[k] + 12 else w[k] == 0
  {
    if n == 0 {
      w := [];
    } else {
      var front := Weights(entries, now, inc, n - 1);
      var last := if Active(entries, now, n - 1) then Weight(inc, n - 1) else 0;
      w := front + [last];
      assert w[..n - 1] == front && w[n - 1] == last;
      ActiveIsUsed(entries, now, n - 1);
      WeightIsQuotient(inc, n - 1);
      assert forall k :: 0 <= k < n - 1 ==> w[k] == front[k];
    }
  }

  lemma AgeIsWholeDays(now: i64, created: i64)
    requires AgeDays(now, created).Some?
    ensures WholeDays(now - created, AgeDays(now, created).value)
  {
  }

  /** The computed score is the Trust Score; there is none exactly when the age overflows. */
  lemma ScoreMeans(entries: seq<i64>, now: i64, created: i64, inc: u16, max: u16)
    ensures var s := TrustScore(entries, now, created, inc, max);
            && (s.Some? <==> I64_MIN <= now - created <= I64_MAX)
            && (s.Some? ==> IsScore(entries, now, created, inc, max, s.value))
  {
    var s := TrustScore(entries, now, created, inc, max);
    if s.Some? {
      var days := AgeDays(now, created).value;
      var w := Weights(entries, now, inc, NUM_BINS);
      AgeIsWholeDays(now, created);
      assert ScoredBy(w, days, Root(days), entries, now, created, inc, max, s.value);
    }
  }

  /** The scoring loops shared by `process_anchor_update` (52 entries) and `compute_trust_score`
      (10 entries). Result: the score as a `u16`, or none on overflow. */
  method ComputeTrustScore(entries: seq<i64>, now: i64, created: i64, inc: u16, max: u16)
    returns (score: Option<u16>)
    ensures score == TrustScore(entries, now, created, inc, max)
    ensures score.Some? <==> I64_MIN <= now - created <= I64_MAX
    ensures score.Some? ==> IsScore(entries, now, created, inc, max, score.value)
  {
    var active := new bool[NUM_BINS](_ => false);
    for j := 0 to |entries|
      invariant forall k :: 0 <= k < NUM_BINS ==> (active[k] <==> Active(entries[..j], now, k))
    {
      assert entries[..j + 1] == entries[..j] + [entries[j]];
      ActiveExtends(entries[..j], entries[j], now);
      if entries[j] != 0 {
        var bin := BinOf(now, entries[j]);
        if bin < NUM_BINS {
          active[bin] := true;
        }
      }
    }
    assert entries[..|entries|] == entries;
    var base: u64 := 0;
    for k := 0 to NUM_BINS
      invariant base == BaseScore(entries, now, inc, k) <= k * U16_MAX
    {
      if active[k] {
        assert Weight(inc, k) <= inc;
        base := base + inc * (NUM_BINS - k) / NUM_BINS;
      }
    }
    match AgeDays(now, created) {
      case None =>
        score := None;
      case Some(days) =>
        var root := Isqrt(days);
        RootUnique(days, root, Root(days));
        YearRoot(days, root);
        var total: u64 := base + root * 4;
        score := Some(if total <= max then total else max);
    }
    assert score == TrustScore(entries, now, created, inc, max);
    ScoreMeans(entries, now, created, inc, max);
  }

  lemma ActiveExtends(entries: seq<i64>, timestamp: i64, now: i64)
    ensures forall k :: Active(entries + [timestamp], now, k) <==>
                        Active(entries, now, k) || (timestamp != 0 && BinOf(now, timestamp) == k)
  {
    var all := entries + [timestamp];
    forall k
      ensures Active(all, now, k) <==> Active(entries, now, k) || (timestamp != 0 && BinOf(now, timestamp) == k)
    {
      if Active(entries, now, k) {
        var i :| 0 <= i < |entries| && entries[i] != 0 && BinOf(now, entries[i]) == k;
        assert all[i] == entries[i];
      }
      if timestamp != 0 && BinOf(now, timestamp) == k {
        assert all[|entries|] == timestamp;
      }
    }
  }

  lemma {:induction false} SumsAgree(v: seq<nat>, w: seq<nat>)
    requires |v| == |w| && forall k :: 0 <= k < |v| ==> v[k] == w[k]
    ensures Sum(v) == Sum(w)
  {
    assert v == w;
  }

  lemma QuotientUnique(n: nat, p: nat, q: nat)
    requires 12 * p <= n < 12 * p + 12 && 12 * q <= n < 12 * q + 12
    ensures p == q
  {
  }

  /** There is only one such number, so any way of computing it agrees with the programs'. */
  lemma {:induction false} ScoreUnique(entries: seq<i64>, now: i64, created: i64, inc: u16, max: u16, s: nat, t: nat)
    requires IsScore(entries, now, created, inc, max, s) && IsScore(entries, now, created, inc, max, t)
    ensures s == t
  {
    var v, d, q :| ScoredBy(v, d, q, entries, now, created, inc, max, s);
    var w, e, r :| ScoredBy(w, e, r, entries, now, created, inc, max, t);
    forall k | 0 <= k < 12 ensures v[k] == w[k] {
      if WeekUsed(entries, now, k) {
        QuotientUnique(inc * (12 - k), v[k], w[k]);
      }
    }
    SumsAgree(v, w);
    assert d == e;
    RootUnique(d, q, r);
  }

  lemma {:induction false} OneMoreBin(a: seq<i64>, b: seq<i64>, now: i64, inc: u16, k: nat, n: nat)
    requires k < NUM_BINS && n <= NUM_BINS && !Active(a, now, k) && Active(b, now, k)
    requires forall j :: 0 <= j < NUM_BINS && j != k ==> (Active(a, now, j) <==> Active(b, now, j))
    ensures BaseScore(b, now, inc, n) == BaseScore(a, now, inc, n) + (if k < n then Weight(inc, k) else 0)
  {
    if n > 0 {
      OneMoreBin(a, b, now, inc, k, n - 1);
    }
  }

  /** Below the ceiling a newly used week `k` adds exactly the whole part of (12 - k) twelfths of the
      increment. */
  lemma {:induction false} NewWeekAdds(a: seq<i64>, b: seq<i64>, now: i64, created: i64, inc: u16, max: u16, k: nat)
    returns (q: nat)
    requires k < 12 && !WeekUsed(a, now, k) && WeekUsed(b, now, k)
    requires forall j :: 0 <= j < 12 && j != k ==> (WeekUsed(a, now, j) <==> WeekUsed(b, now, j))
    requires TrustScore(b, now, created, inc, max).Some? && TrustScore(b, now, created, inc, max).value < max
    ensures 12 * q <= inc * (12 - k) < 12 * q + 12
    ensures TrustScore(a, now, created, inc, max).Some?
    ensures TrustScore(b, now, created, inc, max).value == TrustScore(a, now, created, inc, max).value + q
  {
    forall j | 0 <= j < NUM_BINS
      ensures (Active(a, now, j) <==> WeekUsed(a, now, j)) && (Active(b, now, j) <==> WeekUsed(b, now, j))
    {
      ActiveIsUsed(a, now, j);
      ActiveIsUsed(b, now, j);
    }
    OneMoreBin(a, b, now, inc, k, NUM_BINS);
    WeightIsQuotient(inc, k);
    q := Weight(inc, k);
  }

  lemma {:induction false} NothingActive(entries: seq<i64>, now: i64, inc: u16, n: nat)
    requires n <= NUM_BINS && forall j :: 0 <= j < n ==> !Active(entries, now, j)
    ensures BaseScore(entries, now, inc, n) == 0
  {
    if n > 0 {
      NothingActive(entries, now, inc, n - 1);
    }
  }

  /** With no week used the score is the age bonus alone: four times the integer root of the whole
      days since creation, a year at most. */
  lemma {:induction false} AgeBonusAlone(entries: seq<i64>, now: i64, created: i64, inc: u16, max: u16)
    returns (days: nat, r: nat)
    requires I64_MIN <= now - created <= I64_MAX && forall j :: 0 <= j < 12 ==> !WeekUsed(entries, now, j)
    ensures WholeDays(now - created, days) && r * r <= days < (r + 1) * (r + 1)
    ensures TrustScore(entries, now, created, inc, max) == Some(if 4 * r <= max then 4 * r else max)
  {
    forall j | 0 <= j < NUM_BINS ensures !Active(entries, now, j) {
      ActiveIsUsed(entries, now, j);
    }
    NothingActive(entries, now, inc, NUM_BINS);
    AgeIsWholeDays(now, created);
    days := AgeDays(now, created).value;
    r := Root(days);
    assert IsRoot(days, r);
  }

  /** The score read off the 52-slot ring is the score read off the complete gated log. */
  lemma RingScoreIsLogScore(log: seq<i64>, now: i64, created: i64, inc: u16, max: u16)
    requires Spaced(log, now)
    ensures TrustScore(RingOf(log), now, created, inc, max) == TrustScore(log, now, created, inc, max)
  {
    forall k | 0 <= k < NUM_BINS ensures Active(RingOf(log), now, k) <==> Active(log, now, k) {
      RingActivatesLogBins(log, now, k);
    }
    SameBinsSameScore(RingOf(log), log, now, inc, NUM_BINS);
  }

  /** Bin weights sum to at most 78/12 of the increment, and an active newest bin gives all of it. */
  lemma BaseScoreBounds(entries: seq<i64>, now: i64, inc: u16)
    ensures BaseScore(entries, now, inc, NUM_BINS) <= 78 * inc / 12
    ensures Active(entries, now, 0) ==> BaseScore(entries, now, inc, NUM_BINS) >= inc
  {
    PartialBounds(entries, now, inc, NUM_BINS);
    assert WeightSum(4) == 42 && WeightSum(8) == 68 && WeightSum(12) == 78;
  }

  function WeightSum(n: nat): nat {
    if n == 0 then 0 else WeightSum(n - 1) + (if n <= 13 then 13 - n else 0)
  }

  lemma WeightBound(inc: u16, k: nat, sum: nat)
    requires k < NUM_BINS
    ensures 12 * Weight(inc, k) <= inc * (12 - k)
    ensures inc * (sum + (12 - k)) == inc * sum + inc * (12 - k)
  {
  }

  lemma {:induction false} PartialBounds(entries: seq<i64>, now: i64, inc: u16, n: nat)
    requires n <= NUM_BINS
    ensures 12 * BaseScore(entries, now, inc, n) <= inc * WeightSum(n)
    ensures n > 0 && Active(entries, now, 0) ==> BaseScore(entries, now, inc, n) >= inc
  {
    if n > 0 {
      PartialBounds(entries, now, inc, n - 1);
      WeightBound(inc, n - 1, WeightSum(n - 1));
      if n == 1 {
        assert Weight(inc, 0) == inc;
      }
    }
  }

  /** Bounds on any score whose newest bin is active. The age bonus never exceeds 76. */
  lemma {:induction false} TrustScoreBounds(entries: seq<i64>, now: i64, created: i64, inc: u16, max: u16)
    requires Active(entries, now, 0) && AgeDays(now, created).Some?
    ensures var s := TrustScore(entries, now, created, inc, max);
            s.Some? && Min(inc, max) <= s.value <= Min(78 * inc / 12 + 76, max)
  {
    BaseScoreBounds(entries, now, inc);
    YearRoot(AgeDays(now, created).value, Root(AgeDays(now, created).value));
  }

  /** Dropping entries beyond the tenth cannot touch the ten newest bins. */
  lemma TenNewestBins(log: seq<i64>, now: i64, k: nat)
    requires Spaced(log, now) && k < 10 && Active(RingOf(log), now, k)
    ensures Active(RingOf(log)[..10], now, k)
  {
    var ring := RingOf(log);
    var i :| 0 <= i < SLOTS && ring[i] != 0 && BinOf(now, ring[i]) == k;
    assert i < 10 by {
      BinsAdvance(log, now, 0, i);
    }
    assert ring[..10][i] == ring[i];
  }

  lemma FewerEntriesFewerBins(entries: seq<i64>, n: nat, now: i64, k: nat)
    requires n <= |entries| && Active(entries[..n], now, k)
    ensures Active(entries, now, k)
  {
    var i :| 0 <= i < n && entries[..n][i] != 0 && BinOf(now, entries[..n][i]) == k;
    assert entries[i] == entries[..n][i];
  }

  lemma LastTwoBins(entries: seq<i64>, now: i64, inc: u16)
    ensures BaseScore(entries, now, inc, 12) == BaseScore(entries, now, inc, 10)
              + (if Active(entries, now, 10) then 2 * inc / 12 else 0)
              + (if Active(entries, now, 11) then inc / 12 else 0)
  {
    assert BaseScore(entries, now, inc, 11) == BaseScore(entries, now, inc, 10)
              + (if Active(entries, now, 10) then Weight(inc, 10) else 0);
  }

  /** The registry preview on the ten newest ring entries can only lose the two oldest bins. */
  lemma PreviewGap(log: seq<i64>, now: i64, created: i64, inc: u16, max: u16)
    requires Spaced(log, now) && AgeDays(now, created).Some?
    ensures var full := TrustScore(RingOf(log), now, created, inc, max).value;
            var preview := TrustScore(RingOf(log)[..10], now, created, inc, max).value;
            preview <= full <= preview + 2 * inc / 12 + inc / 12
  {
    var ring, ten := RingOf(log), RingOf(log)[..10];
    forall k | 0 <= k < NUM_BINS
      ensures Active(ten, now, k) ==> Active(ring, now, k)
      ensures k < 10 && Active(ring, now, k) ==> Active(ten, now, k)
    {
      if Active(ten, now, k) {
        FewerEntriesFewerBins(ring, 10, now, k);
      } else if k < 10 && Active(ring, now, k) {
        TenNewestBins(log, now, k);
      }
    }
    SameBinsSameScore(ring, ten, now, inc, 10);
    LastTwoBins(ring, now, inc);
    LastTwoBins(ten, now, inc);
  }
}
