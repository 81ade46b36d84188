/** The reward-to-risk tolerance of scenario estimates (autoresearch/contracts/execution.py): which honest ratios
    it admits. */
module ScenarioRatio {
  import opened ScenarioEstimate

  // ---------- how far a ratio moves ----------

  /** The same error over one denominator. */
  lemma RatioErrorOver(g: real, a: real, dg: real, da: real)
    requires a > 0.0
    ensures RatioError(g, a, dg, da) * a == dg + g / a * da
  {
    var v, x, y := g / a, dg / a, g * da / (a * a);
    assert v * a == g && x * a == dg;
    assert y * (a * a) == g * da;
    Cancel(y * a, v * da, a) by {
      assert (y * a) * a == g * da;
      assert (v * da) * a == g * da;
    }
  }

  lemma Cancel(x: real, y: real, a: real)
    requires a != 0.0 && x * a == y * a
    ensures x == y
  {
  }

  lemma Divide(x: real, y: real, a: real)
    requires a > 0.0 && x * a <= y * a
    ensures x <= y
  {
  }

  lemma Below(x: real, y: real, a: real)
    requires a > 0.0 && a * x < y * a
    ensures x < y
  {
    assert (y - x) * a > 0.0;
  }

  lemma QuotientTimes(x: real, y: real)
    requires y != 0.0
    ensures x / y * y == x
  {
  }

  /** How far the ratio moves when its two parts move. */
  lemma RatioMoves(G: real, A: real, g: real, a: real)
    requires A > 0.0 && a > 0.0
    ensures (G / A - g / a) * A == (G - g) + g / a * (a - A)
  {
    var u, v := G / A, g / a;
    assert u * A == G && v * a == g;
    assert (u - v) * A == u * A - v * A;
    assert v * (a - A) == v * a - v * A;
  }

  /** The furthest the exact ratio can be from the declared one when the exact loss has size A. */
  function WorstMove(g: real, a: real, dg: real, A: real): real
    requires a > 0.0 && A > 0.0
  {
    (dg + g / a * Abs(a - A)) / A
  }

  lemma RatioMovesAtMost(G: real, A: real, g: real, a: real, dg: real)
    requires A > 0.0 && a > 0.0 && g > 0.0 && Abs(g - G) <= dg
    ensures Abs(G / A - g / a) <= WorstMove(g, a, dg, A)
  {
    RatioMoves(G, A, g, a);
    QuotientPositive(g, a);
    ScaledError(g / a, a, A, Abs(a - A));
    AtMostQuotient(G / A - g / a, A, (G - g) + g / a * (a - A), dg + g / a * Abs(a - A));
  }

  lemma QuotientPositive(g: real, a: real)
    requires g > 0.0 && a > 0.0
    ensures g / a > 0.0
  {
  }

  lemma AtMostQuotient(x: real, A: real, y: real, bound: real)
    requires A > 0.0 && x * A == y && Abs(y) <= bound
    ensures Abs(x) <= bound / A
  {
    var q := bound / A;
    assert q * A == bound;
    Divide(x, q, A);
    assert (-x) * A == -y;
    Divide(-x, q, A);
  }

  /** An overstated loss lets the exact gain at the top of its rounding reach that distance. */
  lemma RatioMovesThatFar(A: real, g: real, a: real, dg: real)
    requires 0.0 < A <= a
    ensures (g + dg) / A - g / a == WorstMove(g, a, dg, A)
  {
    RatioMoves(g + dg, A, g, a);
    var x, y := (g + dg) / A - g / a, WorstMove(g, a, dg, A);
    assert y * A == dg + g / a * (a - A);
    Cancel(x, y, A);
  }

  /** With a loss that was not overstated the propagated error is enough. */
  lemma UnderstatedLossIsCovered(g: real, a: real, dg: real, da: real, A: real)
    requires 0.0 < a <= A && g > 0.0 && dg > 0.0 && Abs(a - A) <= da
    ensures WorstMove(g, a, dg, A) <= RatioError(g, a, dg, da)
  {
    RatioErrorOver(g, a, dg, da);
    QuotientPositive(g, a);
    Bounded(g / a, Abs(a - A), da);
    var e := RatioError(g, a, dg, da);
    QuotientAtMost(dg + g / a * Abs(a - A), e, a, a, A, 1.0);
  }

  /** A declared ratio rounded honestly from the exact one, with honestly rounded returns. The exact
      ratio is the gain over the size of the loss. */
  predicate HonestRatio(rr: Dec, gain: Dec, loss: Dec, exactGain: real, exactLoss: real)
    requires exactLoss < 0.0
  {
    && rr.value > 0.0
    && Abs(gain.value - exactGain) <= Tolerance(gain)
    && Abs(loss.value - exactLoss) <= Tolerance(loss)
    && Abs(rr.value - exactGain / -exactLoss) <= Tolerance(rr)
  }

  /** The value is a whole number of units of its last place, as it is for every decimal literal. */
  ghost predicate IsLiteral(d: Dec) { exists n: int :: IsUnits(d, n) }

  predicate IsUnits(d: Dec, n: int) { d.value == n as real * Place(d.places) }

  /** The exact return of a price against a point entry. */
  function Return(price: Dec, entry: Dec): real
    requires entry.value > 0.0
  {
    Gap(price.value, entry.value)
  }

  /** Declared figures for which every honestly declared ratio passes, whatever the bull price is. */
  ghost predicate EveryHonestRatioPasses(gain: Dec, loss: Dec, entry: Dec, bear: Dec)
    requires entry.value > 0.0 && Return(bear, entry) < 0.0
  {
    forall rr: Dec, bull: Dec |
      IsLiteral(rr) && IsLiteral(bull) && bull.value > 0.0
      && HonestRatio(rr, gain, loss, Return(bull, entry), Return(bear, entry)) ::
      RrClose(rr, gain, loss)
  }

  predicate WorstRatioIsTolerated(gain: Dec, loss: Dec, exactLoss: real)
    requires loss.value < 0.0 && exactLoss < 0.0
  {
    WorstMove(gain.value, -loss.value, Tolerance(gain), -exactLoss)
    <= RatioError(gain.value, -loss.value, Tolerance(gain), Tolerance(loss))
  }

  lemma HonestRatioPasses(rr: Dec, gain: Dec, loss: Dec, exactGain: real, exactLoss: real)
    requires gain.value > 0.0 && loss.value < 0.0 && exactLoss < 0.0
    requires HonestRatio(rr, gain, loss, exactGain, exactLoss)
    requires WorstRatioIsTolerated(gain, loss, exactLoss)
    ensures RrClose(rr, gain, loss)
  {
    var exact := exactGain / -exactLoss;
    RatioMovesAtMost(exactGain, -exactLoss, gain.value, -loss.value, Tolerance(gain));
    Triangle(rr.value, exact, gain.value / -loss.value);
  }

  lemma Triangle(x: real, y: real, z: real)
    ensures Abs(x - z) <= Abs(x - y) + Abs(y - z)
  {
  }

  /** The worst case is tolerated whenever the declared loss was not rounded away from zero. */
  lemma NotOverstatedLossIsTolerated(gain: Dec, loss: Dec, exactLoss: real)
    requires gain.value > 0.0 && loss.value < 0.0 && exactLoss <= loss.value
    requires Abs(loss.value - exactLoss) <= Tolerance(loss)
    ensures WorstRatioIsTolerated(gain, loss, exactLoss)
  {
    ToleranceIsHalfTheLastPlace(gain);
    UnderstatedLossIsCovered(gain.value, -loss.value, Tolerance(gain), Tolerance(loss), -exactLoss);
  }

  // ---------- decimal literals close to a real ----------

  lemma {:induction false} PlaceIsSmall(n: nat)
    ensures Place(n) * (n + 1) as real <= 1.0
  {
    if n > 0 {
      PlaceIsSmall(n - 1);
      PlaceFalls(n, n);
      assert Place(n) == Place(n - 1) / 10.0;
      assert Place(n) * (n + 1) as real <= Place(n - 1) * n as real by {
        assert 10.0 * Place(n) == Place(n - 1);
        assert Place(n) * (9 * n - 1) as real >= 0.0;
      }
    }
  }

  /** Some place is as small as wanted. */
  lemma SmallPlace(bound: real) returns (n: nat)
    requires bound > 0.0
    ensures 0.0 < Place(n) < bound && n >= 4
  {
    var q := 1.0 / bound;
    assert q * bound == 1.0;
    QuotientPositive(1.0, bound);
    n := q.Floor + 4;
    PlaceIsSmall(n);
    PlaceFalls(n, n);
    BelowReciprocal(Place(n), (n + 1) as real, q, bound);
  }

  lemma BelowReciprocal(p: real, m: real, q: real, bound: real)
    requires p > 0.0 && bound > 0.0 && q * bound == 1.0 && p * m <= 1.0 && q < m
    ensures p < bound
  {
    QuotientPositive(1.0, bound);
    assert q == 1.0 / bound;
    assert (m - q) * bound > 0.0;
    Below(p, bound, m);
  }

  /** The literal just below a real, and the one nearest to it. */
  lemma LiteralBelow(x: real, places: nat) returns (d: Dec)
    ensures d.places == places && IsLiteral(d) && d.value <= x < d.value + Place(places)
  {
    PlaceFalls(places, places);
    var p := Place(places);
    var n := (x / p).Floor;
    QuotientTimes(x, p);
    d := Dec(n as real * p, places);
    assert IsUnits(d, n);
    FloorTimes(x, x / p, n as real, p);
  }

  lemma FloorTimes(x: real, y: real, n: real, p: real)
    requires p > 0.0 && n <= y < n + 1.0 && y * p == x
    ensures n * p <= x < n * p + p
  {
    Scaled(n, y, p);
    var gap := n + 1.0 - y;
    var rest := gap * p;
    assert rest > 0.0;
    assert rest == n * p + p - x;
  }

  lemma Scaled(x: real, y: real, a: real)
    requires a > 0.0 && x <= y
    ensures x * a <= y * a
  {
    assert (y - x) * a >= 0.0;
  }

  lemma NearestLiteral(x: real, places: nat) returns (d: Dec)
    ensures d.places == places && IsLiteral(d) && Abs(d.value - x) <= Place(places) / 2.0
  {
    d := LiteralBelow(x + Place(places) / 2.0, places);
  }

  // ---------- the exact condition ----------

  /** An exact ratio u beyond what is tolerated around v has an honest literal that is not tolerated either. */
  lemma RefusedLiteral(u: real, v: real, e: real) returns (rr: Dec)
    requires u - v > e >= 0.0 && v > 0.0
    ensures IsLiteral(rr) && rr.value > 0.0 && Abs(rr.value - u) <= Tolerance(rr)
            && Abs(rr.value - v) > Tolerance(rr) + e
  {
    var places := SmallPlace(u - v - e);
    rr := NearestLiteral(u, places);
    ToleranceIsHalfTheLastPlace(rr);
  }

  /** A bull price whose exact return lies in a given interval. */
  lemma PriceBetween(entry: Dec, low: real, high: real) returns (bull: Dec)
    requires entry.value > 0.0 && 0.0 <= low < high
    ensures IsLiteral(bull) && bull.value > 0.0 && low < Return(bull, entry) <= high
  {
    var e := entry.value;
    var x := e * (1.0 + high);
    var width := e * (high - low);
    assert width > 0.0;
    var places := SmallPlace(width);
    bull := LiteralBelow(x, places);
    var q := bull.value / e;
    assert q * e == bull.value;
    assert bull.value > x - width == e * (1.0 + low);
    Below(1.0 + low, q, e);
    Divide(q, 1.0 + high, e);
    assert e * (1.0 + low) > 0.0;
  }

  lemma RefusedRatio(gain: Dec, loss: Dec, entry: Dec, bear: Dec)
    requires entry.value > 0.0 && gain.value > 0.0 && loss.value < 0.0 && Return(bear, entry) < 0.0
    requires Abs(loss.value - Return(bear, entry)) <= Tolerance(loss)
    requires !WorstRatioIsTolerated(gain, loss, Return(bear, entry))
    ensures !EveryHonestRatioPasses(gain, loss, entry, bear)
  {
    var exactLoss := Return(bear, entry);
    var g, a, dg, A := gain.value, -loss.value, Tolerance(gain), -exactLoss;
    var e := RatioError(g, a, dg, Tolerance(loss));
    if exactLoss <= loss.value {
      NotOverstatedLossIsTolerated(gain, loss, exactLoss);
    } else {
      TolerancePositive(gain);
      TolerancePositive(loss);
      RatioErrorNotNegative(g, a, dg, Tolerance(loss));
      var low := GainBeyond(g, a, dg, A, e);
      var bull := PriceBetween(entry, low, g + dg);
      BeyondTheGap(Return(bull, entry), low, g, a, dg, A, e);
      var rr := RefusedLiteral(Return(bull, entry) / A, g / a, e);
      assert HonestRatio(rr, gain, loss, Return(bull, entry), exactLoss);
      assert !RrClose(rr, gain, loss);
    }
  }

  lemma RatioErrorNotNegative(g: real, a: real, dg: real, da: real)
    requires g > 0.0 && a > 0.0 && dg > 0.0 && da > 0.0
    ensures RatioError(g, a, dg, da) >= 0.0 && g / a > 0.0
  {
    RatioErrorOver(g, a, dg, da);
    QuotientPositive(g, a);
    ProductNotNegative(g / a, da);
    Divide(0.0, RatioError(g, a, dg, da), a);
  }

  /** Every gain above this one, still within the rounding of the declared gain, leads out of the tolerance. */
  lemma GainBeyond(g: real, a: real, dg: real, A: real, e: real) returns (low: real)
    requires g > 0.0 && dg > 0.0 && 0.0 < A <= a && e >= 0.0 && WorstMove(g, a, dg, A) > e
    ensures 0.0 <= low < g + dg && low >= g - dg && low >= A * (g / a + e)
  {
    RatioMovesThatFar(A, g, a, dg);
    QuotientPositive(g, a);
    var top := (g + dg) / A;
    assert top * A == g + dg;
    assert (top - (g / a + e)) * A > 0.0;
    ProductNotNegative(A, g / a + e);
    var edge := A * (g / a + e);
    assert edge < g + dg;
    low := if edge < g - dg then g - dg else edge;
  }

  lemma BeyondTheGap(G: real, low: real, g: real, a: real, dg: real, A: real, e: real)
    requires A > 0.0 && a > 0.0 && low < G <= g + dg && low >= g - dg && low >= A * (g / a + e)
    ensures G / A - g / a > e && Abs(g - G) <= dg
  {
    var u := G / A;
    assert u * A == G;
    Below(g / a + e, u, A);
  }

  /** The tolerance of the ratio covers every honest declaration, in decimal literals, if and only if it covers
      the worst case of the exact ratio. */
  lemma HonestRatiosPassExactlyWhen(gain: Dec, loss: Dec, entry: Dec, bear: Dec)
    requires entry.value > 0.0 && gain.value > 0.0 && loss.value < 0.0 && Return(bear, entry) < 0.0
    requires Abs(loss.value - Return(bear, entry)) <= Tolerance(loss)
    ensures EveryHonestRatioPasses(gain, loss, entry, bear) <==> WorstRatioIsTolerated(gain, loss, Return(bear, entry))
  {
    if WorstRatioIsTolerated(gain, loss, Return(bear, entry)) {
      forall rr: Dec, bull: Dec |
        IsLiteral(rr) && IsLiteral(bull) && bull.value > 0.0
        && HonestRatio(rr, gain, loss, Return(bull, entry), Return(bear, entry))
        ensures RrClose(rr, gain, loss)
      {
        HonestRatioPasses(rr, gain, loss, Return(bull, entry), Return(bear, entry));
      }
    } else {
      RefusedRatio(gain, loss, entry, bear);
    }
  }

  // ---------- by which factor it can miss ----------

  /** The factor by which the tolerance can fall short of an honest ratio: |l| / (|l| - dl), for a
      declared loss l of tolerance dl. */
  function Shortfall(loss: Dec): real
    requires loss.value < -Tolerance(loss)
  {
    -loss.value / (-loss.value - Tolerance(loss))
  }

  lemma ShortfallTimes(loss: Dec)
    requires loss.value < -Tolerance(loss)
    ensures Shortfall(loss) * (-loss.value - Tolerance(loss)) == -loss.value
  {
    QuotientTimes(-loss.value, -loss.value - Tolerance(loss));
  }

  /** A ratio within its own tolerance and f times the propagated error. */
  predicate RatioWithin(r: real, g: real, a: real, dg: real, da: real, t: real, f: real) {
    a > 0.0 && Abs(r - g / a) <= t + f * RatioError(g, a, dg, da)
  }

  /** However the loss was rounded, an honest ratio misses by no more than that factor. */
  lemma HonestRatioMissesByAFactor(rr: Dec, gain: Dec, loss: Dec, exactGain: real, exactLoss: real)
    requires gain.value > 0.0 && loss.value < -Tolerance(loss) && exactLoss < 0.0
    requires HonestRatio(rr, gain, loss, exactGain, exactLoss)
    ensures RatioWithin(rr.value, gain.value, -loss.value, Tolerance(gain), Tolerance(loss), Tolerance(rr),
            Shortfall(loss))
  {
    hide Tolerance;
    TolerancePositive(gain);
    TolerancePositive(loss);
    ShortfallTimes(loss);
    RatioMissesByAFactor(rr.value, exactGain, -exactLoss, gain.value, -loss.value,
                         Tolerance(gain), Tolerance(loss), Tolerance(rr), Shortfall(loss));
  }

  lemma RatioMissesByAFactor(r: real, G: real, A: real, g: real, a: real, dg: real, da: real, t: real, f: real)
    requires 0.0 <= da < a && 0.0 < A && g > 0.0 && dg > 0.0
    requires Abs(g - G) <= dg && Abs(a - A) <= da && Abs(r - G / A) <= t
    requires f * (a - da) == a
    ensures RatioWithin(r, g, a, dg, da, t, f)
  {
    RatioMovesAtMost(G, A, g, a, dg);
    WorstMoveAtMost(g, a, dg, da, A, f);
    Near(r, G / A, g / a, t, WorstMove(g, a, dg, A), f * RatioError(g, a, dg, da));
  }

  lemma Near(x: real, y: real, z: real, t: real, w: real, e: real)
    requires Abs(x - y) <= t && Abs(y - z) <= w <= e
    ensures Abs(x - z) <= t + e
  {
  }

  lemma WorstMoveAtMost(g: real, a: real, dg: real, da: real, A: real, f: real)
    requires 0.0 <= da < a && 0.0 < A && g > 0.0 && dg > 0.0 && Abs(a - A) <= da
    requires f * (a - da) == a
    ensures WorstMove(g, a, dg, A) <= f * RatioError(g, a, dg, da)
  {
    hide RatioError;
    RatioErrorOver(g, a, dg, da);
    QuotientPositive(g, a);
    Bounded(g / a, Abs(a - A), da);
    QuotientAtMost(dg + g / a * Abs(a - A), RatioError(g, a, dg, da), a, a - da, A, f);
  }

  lemma Bounded(v: real, x: real, y: real)
    requires v > 0.0 && 0.0 <= x <= y
    ensures 0.0 <= v * x <= v * y
  {
    assert v * (y - x) >= 0.0;
  }

  lemma QuotientAtMost(bound: real, e: real, a: real, c: real, A: real, f: real)
    requires 0.0 < c <= A && 0.0 <= bound <= e * a && f * c == a
    ensures bound / A <= f * e
  {
    var w := bound / A;
    assert w * A == bound;
    Divide(0.0, w, A);
    assert w * (A - c) >= 0.0;
    assert (f * e) * c == e * (f * c);
    Divide(w, f * e, c);
  }

  /** An honest ratio is refused: the loss is half of the last declared place and was rounded up. */
  lemma AnHonestRatioIsRefused() returns (rr: Dec, gain: Dec, loss: Dec, entry: Dec, bull: Dec, bear: Dec)
    ensures IsLiteral(rr) && IsLiteral(gain) && IsLiteral(loss) && IsLiteral(entry) && IsLiteral(bull)
            && IsLiteral(bear)
    ensures entry.value > 0.0 && bull.value > 0.0 && bear.value > 0.0 && Return(bear, entry) < 0.0
    ensures HonestRatio(rr, gain, loss, Return(bull, entry), Return(bear, entry))
    ensures rr.value == Return(bull, entry) / -Return(bear, entry) && gain.value == Return(bull, entry)
    ensures !RrClose(rr, gain, loss)
  {
    rr, gain, loss := Dec(20000.0, 0), Dec(1.0, 4), Dec(-0.0001, 4);
    entry, bull, bear := Dec(1.0, 0), Dec(2.0, 0), Dec(0.99995, 5);
    assert Place(5) == Place(4) / 10.0;
    assert Place(4) == Place(3) / 10.0 && Place(3) == Place(2) / 10.0 && Place(2) == Place(1) / 10.0
        && Place(1) == Place(0) / 10.0;
    assert IsUnits(rr, 20000) && IsUnits(gain, 10000) && IsUnits(loss, -1);
    assert IsUnits(entry, 1) && IsUnits(bull, 2) && IsUnits(bear, 99995);
    ToleranceIsHalfTheLastPlace(rr);
    ToleranceIsHalfTheLastPlace(gain);
    ToleranceIsHalfTheLastPlace(loss);
  }
}
