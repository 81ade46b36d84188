/** What `family_adjustment` (autoresearch/common/stats.py) reports, on the p-values alone: the step-up procedure of
    Benjamini and Hochberg, and that of Benjamini and Yekutieli under arbitrary dependence. */
module StepUpProcedure {
  import opened MultipleTesting

  /** The hypotheses by p-value, smallest first. */
  predicate Orders(order: seq<nat>, ps: seq<real>) {
    && |order| == |ps|
    && (forall k | 0 <= k < |order| :: order[k] < |ps|)
    && (forall j, k | 0 <= j < k < |order| :: order[j] != order[k] && ps[order[j]] <= ps[order[k]])
  }

  /** What the size of a family of m costs: nothing, or 1 + 1/2 + ... + 1/m. */
  function Correction(dependence: string, m: nat): real {
    if dependence == "arbitrary" then Harmonic(m) else 1.0
  }

  lemma HarmonicIs(n: nat)
    ensures Harmonic(0) == 0.0 && Harmonic(n + 1) == Harmonic(n) + 1.0 / (n + 1) as real
  {
  }

  /** The threshold of a rank. */
  function Threshold(alpha: real, s: nat, m: nat, c: real): real
    requires m > 0 && c > 0.0
  {
    alpha * s as real / (m as real * c)
  }

  /** The p-value of a rank. */
  function Ranked(ps: seq<real>, order: seq<nat>, s: nat): real
    requires Orders(order, ps) && 1 <= s <= |ps|
  {
    ps[order[s - 1]]
  }

  /** p(s) m / s, corrected. */
  function Value(p: real, s: nat, m: nat, c: real): real
    requires s > 0
  {
    p * m as real / s as real * c
  }

  /** q is the least of 1 and of the values of the ranks from r on. */
  ghost predicate IsLeastFrom(ps: seq<real>, order: seq<nat>, c: real, r: nat, q: real)
    requires Orders(order, ps)
  {
    && q <= 1.0
    && (forall s | 1 <= s <= |ps| && r <= s :: q <= Value(Ranked(ps, order, s), s, |ps|, c))
    && (q == 1.0 || exists s :: 1 <= s <= |ps| && r <= s && q == Value(Ranked(ps, order, s), s, |ps|, c))
  }

  /** The row of the hypothesis at a rank: rejected up to rank k. */
  ghost predicate RowStepsUp(ps: seq<real>, rows: seq<Row>, alpha: real, c: real, order: seq<nat>, k: nat, r: nat)
    requires Orders(order, ps) && |rows| == |ps| && 1 <= r <= |ps|
  {
    var row := rows[order[r - 1]];
    && row.index == order[r - 1] && row.p == Ranked(ps, order, r)
    && IsLeastFrom(ps, order, c, r, row.q)
    && (row.rejected <==> row.q <= alpha)
    && (row.rejected <==> r <= k)
  }

  /** The rows, one for each p-value in its place, of a step-up procedure. The last rank rejected is the largest
      whose p-value is at most its threshold. */
  ghost predicate StepsUp(ps: seq<real>, rows: seq<Row>, alpha: real, c: real, order: seq<nat>, k: nat)
    requires Orders(order, ps) && c > 0.0
  {
    && |rows| == |ps| && k <= |ps|
    && (forall r | 1 <= r <= |ps| :: RowStepsUp(ps, rows, alpha, c, order, k, r))
    && (k > 0 ==> Ranked(ps, order, k) <= Threshold(alpha, k, |ps|, c))
    && (forall s | k < s <= |ps| :: Ranked(ps, order, s) > Threshold(alpha, s, |ps|, c))
  }

  // ---------- a family of scores ----------

  function Times(score: Score, c: real): Score { (p: real, rank: nat) => score(p, rank) * c }

  function Capped(x: real, c: real): real { Min(1.0, x * c) }

  lemma MinTimes(u: real, v: real, c: real)
    requires c > 0.0
    ensures Capped(Min(u, v), c) == Min(Capped(u, c), v * c)
  {
    if u <= v {
      ProductGrows(c, u, v);
    } else {
      ProductGrows(c, v, u);
    }
  }

  /** Inflating the running minimum is the running minimum of the inflated scores. */
  lemma {:induction false} StepUpTimes(ps: seq<real>, order: seq<nat>, score: Score, c: real, rank: nat)
    requires 1 <= rank <= |order| + 1 && Within(order, ps) && c >= 1.0
    ensures Capped(StepUp(ps, order, score, rank), c) == StepUp(ps, order, Times(score, c), rank)
    decreases |order| + 1 - rank
  {
    if rank <= |order| {
      StepUpTimes(ps, order, score, c, rank + 1);
      MinTimes(StepUp(ps, order, score, rank + 1), Candidate(ps, order, score, rank), c);
      hide Capped;
      assert Candidate(ps, order, Times(score, c), rank) == Candidate(ps, order, score, rank) * c;
    }
  }

  lemma {:induction false} StepUpTimesOne(ps: seq<real>, order: seq<nat>, score: Score, rank: nat)
    requires 1 <= rank <= |order| + 1 && Within(order, ps)
    ensures StepUp(ps, order, score, rank) == StepUp(ps, order, Times(score, 1.0), rank)
    decreases |order| + 1 - rank
  {
    if rank <= |order| {
      StepUpTimesOne(ps, order, score, rank + 1);
      assert Candidate(ps, order, Times(score, 1.0), rank) == Candidate(ps, order, score, rank);
    }
  }

  // ---------- thresholds ----------

  lemma BelowThreshold(p: real, m: nat, s: nat, c: real, alpha: real)
    requires m > 0 && s > 0 && c > 0.0
    ensures Value(p, s, m, c) <= alpha <==> p <= Threshold(alpha, s, m, c)
  {
    var x, y := m as real * c, s as real;
    var scaled, t := Value(p, s, m, c), Threshold(alpha, s, m, c);
    assert p * m as real / y * y == p * m as real;
    assert scaled * y == p * x by {
      assert scaled * y == p * m as real / y * y * c;
    }
    assert t * x == alpha * y;
    assert scaled <= alpha <==> scaled * y <= alpha * y by {
      Compare(scaled, alpha, y);
    }
    assert p <= t <==> p * x <= t * x by {
      Compare(p, t, x);
    }
  }

  lemma Compare(a: real, b: real, c: real)
    requires c > 0.0
    ensures a <= b <==> a * c <= b * c
  {
    if a <= b {
      ProductGrows(c, a, b);
    } else {
      assert c * (a - b) > 0.0;
    }
  }

  /** The largest rank up to n whose candidate is at most alpha. */
  lemma {:induction false} LastBelow(ps: seq<real>, order: seq<nat>, score: Score, alpha: real, n: nat) returns (k: nat)
    requires n <= |order| && Within(order, ps)
    ensures k <= n && (k > 0 ==> Candidate(ps, order, score, k) <= alpha)
    ensures forall s | k < s <= n :: Candidate(ps, order, score, s) > alpha
  {
    if n == 0 || Candidate(ps, order, score, n) <= alpha {
      k := n;
    } else {
      k := LastBelow(ps, order, score, alpha, n - 1);
    }
  }

  // ---------- both procedures ----------

  lemma CandidateIsValue(ps: seq<real>, order: seq<nat>, c: real, s: nat)
    requires Orders(order, ps) && Within(order, ps) && 1 <= s <= |ps|
    ensures Candidate(ps, order, Times(Scale(|ps|), c), s) == Value(Ranked(ps, order, s), s, |ps|, c)
  {
  }

  lemma LeastFrom(ps: seq<real>, order: seq<nat>, c: real, r: nat, score: Score)
    requires Orders(order, ps) && 1 <= r <= |ps| && Within(order, ps) && score == Times(Scale(|ps|), c)
    ensures IsLeastFrom(ps, order, c, r, StepUp(ps, order, score, r))
  {
    StepUpIsLeast(ps, order, score, r);
    forall s | 1 <= s <= |ps| ensures Candidate(ps, order, score, s) == Value(Ranked(ps, order, s), s, |ps|, c) {
      CandidateIsValue(ps, order, c, s);
    }
    hide Value, Times, Scale, StepUp;
    var q := StepUp(ps, order, score, r);
    if q != 1.0 {
      var s :| r <= s <= |order| && q == Candidate(ps, order, score, s);
      assert q == Value(Ranked(ps, order, s), s, |ps|, c);
    }
  }

  lemma SortedIsOrders(ps: seq<real>)
    ensures var order := StableOrder(ps, |ps|);
            Orders(order, ps) && IsPermutation(order, |ps|) && forall i | 0 <= i < |ps| :: i in order
  {
    StableOrderIsPermutation(ps);
  }

  lemma {:induction false} RankOfPlace(order: seq<nat>, r: nat)
    requires 1 <= r <= |order| && forall j, k | 0 <= j < k < |order| :: order[j] != order[k]
    ensures RankOf(order, order[r - 1]) == r
  {
  }

  lemma QAtRank(ps: seq<real>, order: seq<nat>, r: nat)
    requires 1 <= r <= |ps| && order == StableOrder(ps, |ps|)
    ensures Within(order, ps) && Q(ps, order[r - 1]) == StepUp(ps, order, Scale(|ps|), r)
  {
    hide StepUp, Scale;
    SortedIsOrders(ps);
    RankOfPlace(order, r);
  }

  lemma ReportedQ(ps: seq<real>, dependence: string, alpha: real, order: seq<nat>, r: nat, score: Score)
    requires dependence in {INDEPENDENT, ARBITRARY} && 1 <= r <= |ps| && order == StableOrder(ps, |ps|)
    requires score == Times(Scale(|ps|), Correction(dependence, |ps|))
    ensures Within(order, ps)
    ensures var row := Reported(ps, dependence, alpha, order[r - 1]);
            && row.q == StepUp(ps, order, score, r)
            && row.index == order[r - 1] && row.p == ps[order[r - 1]] && (row.rejected <==> row.q <= alpha)
  {
    var i := (QAtRank(ps, order, r); order[r - 1]);
    CorrectionAtLeastOne(dependence, |ps|);
    InflatedIs(BhRow(ps, alpha, i), Harmonic(|ps|), alpha);
    hide Scale, StepUp, StableOrder, Harmonic, Times, Q, Inflated, Capped, Orders;
    if dependence == INDEPENDENT {
      StepUpTimesOne(ps, order, Scale(|ps|), r);
    } else {
      StepUpTimes(ps, order, Scale(|ps|), Harmonic(|ps|), r);
    }
  }

  lemma InflatedIs(row: Row, factor: real, alpha: real)
    ensures var inflated := Inflated(row, factor, alpha);
            && inflated.index == row.index && inflated.p == row.p && inflated.q == Capped(row.q, factor)
            && (inflated.rejected <==> inflated.q <= alpha)
  {
  }

  lemma RowAt(ps: seq<real>, dependence: string, alpha: real, rows: seq<Row>, order: seq<nat>, score: Score, k: nat,
              r: nat)
    requires dependence in {INDEPENDENT, ARBITRARY} && alpha < 1.0 && |rows| == |ps| && k <= |ps|
    requires forall i | 0 <= i < |ps| :: rows[i] == Reported(ps, dependence, alpha, i)
    requires order == StableOrder(ps, |ps|) && Orders(order, ps) && 1 <= r <= |ps| && Within(order, ps)
    requires score == Times(Scale(|ps|), Correction(dependence, |ps|))
    requires k > 0 ==> Candidate(ps, order, score, k) <= alpha
    requires forall s | k < s <= |ps| :: Candidate(ps, order, score, s) > alpha
    ensures RowStepsUp(ps, rows, alpha, Correction(dependence, |ps|), order, k, r)
  {
    hide Reported, Scale, Times, StepUp, StableOrder, Value;
    ReportedQ(ps, dependence, alpha, order, r, score);
    LeastFrom(ps, order, Correction(dependence, |ps|), r, score);
    RejectedUpTo(ps, order, score, alpha, r, k);
  }

  lemma CandidatePasses(ps: seq<real>, order: seq<nat>, alpha: real, c: real, s: nat)
    requires Orders(order, ps) && Within(order, ps) && 1 <= s <= |ps| && c > 0.0
    ensures Candidate(ps, order, Times(Scale(|ps|), c), s) <= alpha
            <==> Ranked(ps, order, s) <= Threshold(alpha, s, |ps|, c)
  {
    CandidateIsValue(ps, order, c, s);
    BelowThreshold(Ranked(ps, order, s), |ps|, s, c, alpha);
  }

  lemma CorrectionAtLeastOne(dependence: string, m: nat)
    ensures m > 0 ==> Correction(dependence, m) >= 1.0
  {
    if m > 0 {
      HarmonicAtLeastOne(m);
    }
  }

  /** The rows `family_adjustment` returns are those of the step-up procedure: under arbitrary dependence the one whose
      thresholds are divided by 1 + 1/2 + ... + 1/m. */
  lemma FamilyAdjustmentStepsUp(ps: seq<real>, dependence: string, alpha: real, rows: seq<Row>)
    returns (order: seq<nat>, k: nat)
    requires dependence in {"independent_or_positive", "arbitrary"} && alpha < 1.0 && |rows| == |ps|
    requires forall i | 0 <= i < |ps| :: rows[i] == Reported(ps, dependence, alpha, i)
    ensures Orders(order, ps)
    ensures |ps| > 0 ==> Correction(dependence, |ps|) >= 1.0
                         && StepsUp(ps, rows, alpha, Correction(dependence, |ps|), order, k)
  {
    order := StableOrder(ps, |ps|);
    SortedIsOrders(ps);
    var c := Correction(dependence, |ps|);
    var score := Times(Scale(|ps|), c);
    k := LastBelow(ps, order, score, alpha, |ps|);
    CorrectionAtLeastOne(dependence, |ps|);
    hide Reported, Scale, Times, StepUp, StableOrder, Value, Threshold, Correction, Candidate;
    if |ps| > 0 {
      forall r | 1 <= r <= |ps| ensures RowStepsUp(ps, rows, alpha, c, order, k, r) {
        RowAt(ps, dependence, alpha, rows, order, score, k, r);
      }
      forall s | 1 <= s <= |ps|
        ensures Candidate(ps, order, score, s) <= alpha <==> Ranked(ps, order, s) <= Threshold(alpha, s, |ps|, c)
      {
        CandidatePasses(ps, order, alpha, c, s);
      }
    }
  }
}
