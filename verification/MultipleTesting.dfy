/** The Benjamini-Hochberg loop and its Benjamini-Yekutieli variant (autoresearch/common/stats.py),
    over exact reals. */
module MultipleTesting {
  import opened Wrappers
  import opened Permutations

  datatype Row = Row(index: nat, p: real, q: real, rejected: bool)

  function Min(a: real, b: real): real { if a <= b then a else b }

  // ---------- the sorted order ----------

  predicate IsPermutation(order: seq<nat>, n: nat) {
    && |order| == n
    && (forall k | 0 <= k < n :: order[k] < n)
    && (forall j, k | 0 <= j < k < n :: order[j] != order[k])
  }

  predicate SortedBy(order: seq<nat>, ps: seq<real>)
    requires forall k | 0 <= k < |order| :: order[k] < |ps|
  {
    forall j, k | 0 <= j <= k < |order| :: ps[order[j]] <= ps[order[k]]
  }

  /** Where an index goes among sorted ones: after every value not above its own. */
  function Insert(order: seq<nat>, ps: seq<real>, i: nat): (r: seq<nat>)
    requires i < |ps| && forall k | 0 <= k < |order| :: order[k] < |ps|
    ensures |r| == |order| + 1 && forall k | 0 <= k < |r| :: r[k] < |ps|
  {
    if order == [] || ps[i] < ps[order[0]] then [i] + order
    else [order[0]] + Insert(order[1..], ps, i)
  }

  /** `sorted(range(n), key=ps.__getitem__)`: stable. */
  function StableOrder(ps: seq<real>, n: nat): (order: seq<nat>)
    requires n <= |ps|
    ensures |order| == n && forall k | 0 <= k < n :: order[k] < |ps|
  {
    if n == 0 then [] else Insert(StableOrder(ps, n - 1), ps, n - 1)
  }

  lemma {:induction false} InsertAddsOne(order: seq<nat>, ps: seq<real>, i: nat)
    requires i < |ps| && forall k | 0 <= k < |order| :: order[k] < |ps|
    ensures multiset(Insert(order, ps, i)) == multiset(order) + multiset{i}
    decreases |order|
  {
    if order != [] && !(ps[i] < ps[order[0]]) {
      InsertAddsOne(order[1..], ps, i);
      assert order == [order[0]] + order[1..];
    }
  }

  lemma InsertedAreOld(order: seq<nat>, ps: seq<real>, i: nat, k: nat)
    requires i < |ps| && (forall k | 0 <= k < |order| :: order[k] < |ps|) && k < |order| + 1
    ensures Insert(order, ps, i)[k] == i || Insert(order, ps, i)[k] in order
  {
    InsertAddsOne(order, ps, i);
    assert Insert(order, ps, i)[k] in multiset(Insert(order, ps, i));
  }

  lemma {:induction false} InsertKeepsSorted(order: seq<nat>, ps: seq<real>, i: nat)
    requires i < |ps| && (forall k | 0 <= k < |order| :: order[k] < |ps|) && SortedBy(order, ps)
    ensures SortedBy(Insert(order, ps, i), ps)
    decreases |order|
  {
    if order != [] && !(ps[i] < ps[order[0]]) {
      var rest := Insert(order[1..], ps, i);
      InsertKeepsSorted(order[1..], ps, i);
      forall k | 0 <= k < |rest| ensures ps[order[0]] <= ps[rest[k]] {
        InsertedAreOld(order[1..], ps, i, k);
      }
    }
  }

  lemma {:induction false} StableOrderIsSorted(ps: seq<real>, n: nat)
    requires n <= |ps|
    ensures SortedBy(StableOrder(ps, n), ps)
  {
    if n > 0 {
      StableOrderIsSorted(ps, n - 1);
      InsertKeepsSorted(StableOrder(ps, n - 1), ps, n - 1);
    }
  }

  /** Each number below n occurs once, and no other. */
  predicate HoldsOnce(order: seq<nat>, i: nat, n: nat) { multiset(order)[i] == if i < n then 1 else 0 }

  lemma {:induction false} StableOrderHoldsOnce(ps: seq<real>, n: nat, i: nat)
    requires n <= |ps|
    ensures HoldsOnce(StableOrder(ps, n), i, n)
  {
    if n > 0 {
      StableOrderHoldsOnce(ps, n - 1, i);
      InsertAddsOne(StableOrder(ps, n - 1), ps, n - 1);
      OneMoreHeld(StableOrder(ps, n - 1), StableOrder(ps, n), i, n - 1);
    }
  }

  lemma OneMoreHeld(order: seq<nat>, after: seq<nat>, i: nat, n: nat)
    requires HoldsOnce(order, i, n) && multiset(after) == multiset(order) + multiset{n}
    ensures HoldsOnce(after, i, n + 1)
  {
  }

  lemma {:induction false} NoDuplicates(s: seq<nat>)
    requires forall i | i in multiset(s) :: multiset(s)[i] == 1
    ensures forall j, k | 0 <= j < k < |s| :: s[j] != s[k]
    decreases |s|
  {
    if s != [] {
      var rest := s[1..];
      assert s == [s[0]] + rest;
      assert multiset(s) == multiset{s[0]} + multiset(rest);
      assert multiset(s)[s[0]] == 1 + multiset(rest)[s[0]];
      forall i | i in multiset(rest) ensures multiset(rest)[i] == 1 {
        assert multiset(s)[i] == 1;
      }
      NoDuplicates(rest);
      assert forall k | 1 <= k < |s| :: s[k] == rest[k - 1] && s[k] in multiset(rest);
    }
  }

  lemma StableOrderIsPermutation(ps: seq<real>)
    ensures IsPermutation(StableOrder(ps, |ps|), |ps|)
    ensures SortedBy(StableOrder(ps, |ps|), ps)
    ensures forall i | 0 <= i < |ps| :: i in StableOrder(ps, |ps|)
  {
    var order := StableOrder(ps, |ps|);
    StableOrderIsSorted(ps, |ps|);
    forall i: nat ensures HoldsOnce(order, i, |ps|) {
      StableOrderHoldsOnce(ps, |ps|, i);
    }
    forall i | i in multiset(order) ensures multiset(order)[i] == 1 {
      assert HoldsOnce(order, i, |ps|);
    }
    NoDuplicates(order);
    forall i: nat | i < |ps| ensures i in order {
      assert HoldsOnce(order, i, |ps|) && i in multiset(order);
    }
  }

  /** The place of an index in the order, counted from 1. */
  function RankOf(order: seq<nat>, i: nat): (rank: nat)
    requires i in order
    ensures 1 <= rank <= |order| && order[rank - 1] == i
  {
    if order[0] == i then 1 else 1 + RankOf(order[1..], i)
  }

  // ---------- the loop ----------

  /** The value a p-value contributes at a rank. The lemmas below about ranks hold for any score;
      `Scale` is the one the procedure uses. */
  type Score = (real, nat) -> real

  function Scale(m: nat): Score {
    (p: real, rank: nat) => if rank == 0 then 0.0 else p * m as real / rank as real
  }

  predicate Within<T>(order: seq<nat>, ps: seq<T>) { forall k | 0 <= k < |order| :: order[k] < |ps| }

  function Candidate(ps: seq<real>, order: seq<nat>, score: Score, rank: nat): real
    requires 1 <= rank <= |order| && Within(order, ps)
  {
    score(ps[order[rank - 1]], rank)
  }

  /** min(1, min of the candidates of ranks `rank`..m). */
  function StepUp(ps: seq<real>, order: seq<nat>, score: Score, rank: nat): real
    requires 1 <= rank <= |order| + 1 && Within(order, ps)
    decreases |order| + 1 - rank
  {
    if rank == |order| + 1 then 1.0 else Min(StepUp(ps, order, score, rank + 1), Candidate(ps, order, score, rank))
  }

  function Adjusted(ps: seq<real>, score: Score, i: nat): real
    requires i < |ps|
  {
    StableOrderIsPermutation(ps);
    StepUp(ps, StableOrder(ps, |ps|), score, RankOf(StableOrder(ps, |ps|), i))
  }

  /** The adjusted value of the i-th p-value. */
  function Q(ps: seq<real>, i: nat): real
    requires i < |ps|
  {
    Adjusted(ps, Scale(|ps|), i)
  }

  function BhRow(ps: seq<real>, alpha: real, i: nat): Row
    requires i < |ps|
  {
    Row(i, ps[i], Q(ps, i), Q(ps, i) <= alpha)
  }

  /** The values written so far: those of the ranks above `rank`. */
  ghost predicate FilledAbove(ps: seq<real>, order: seq<nat>, score: Score, q: seq<real>, rank: nat) {
    && Within(order, ps) && |q| == |ps|
    && forall r | rank < r <= |order| :: q[order[r - 1]] == StepUp(ps, order, score, r)
  }

  lemma FillNext(ps: seq<real>, order: seq<nat>, score: Score, q: seq<real>, rank: nat, x: real)
    requires IsPermutation(order, |ps|) && 0 < rank <= |order| && FilledAbove(ps, order, score, q, rank)
    requires x == StepUp(ps, order, score, rank)
    ensures FilledAbove(ps, order, score, q[order[rank - 1] := x], rank - 1)
  {
  }

  method BhFdr(ps: seq<real>, alpha: real) returns (rows: seq<Row>)
    ensures |rows| == |ps|
    ensures forall i | 0 <= i < |ps| :: rows[i] == BhRow(ps, alpha, i)
  {
    var m := |ps|;
    if m == 0 {
      return [];
    }
    var order := StableOrder(ps, m);
    StableOrderIsPermutation(ps);
    var q := seq(m, _ => 0.0);
    ghost var score := Scale(m);
    var running := 1.0;
    var rank := m;
    while rank > 0
      invariant 0 <= rank <= m && |q| == m && FilledAbove(ps, order, score, q, rank)
      invariant running == StepUp(ps, order, score, rank + 1)
    {
      var i := order[rank - 1];
      var scaled := ps[i] * m as real / rank as real;
      assert scaled == Candidate(ps, order, score, rank);
      running := Min(running, scaled);
      FillNext(ps, order, score, q, rank, running);
      q := q[i := running];
      rank := rank - 1;
    }
    forall i | 0 <= i < m ensures q[i] == Q(ps, i) {
      assert order[RankOf(order, i) - 1] == i;
    }
    rows := seq(m, i requires 0 <= i < m => Row(i, ps[i], q[i], q[i] <= alpha));
  }

  // ---------- the least candidate ----------

  lemma {:induction false} StepUpIsLeast(ps: seq<real>, order: seq<nat>, score: Score, rank: nat)
    requires 1 <= rank <= |order| + 1 && Within(order, ps)
    ensures StepUp(ps, order, score, rank) <= 1.0
    ensures forall s | rank <= s <= |order| :: StepUp(ps, order, score, rank) <= Candidate(ps, order, score, s)
    ensures StepUp(ps, order, score, rank) == 1.0
            || exists s :: rank <= s <= |order| && StepUp(ps, order, score, rank) == Candidate(ps, order, score, s)
    decreases |order| + 1 - rank
  {
    if rank <= |order| {
      StepUpIsLeast(ps, order, score, rank + 1);
    }
  }

  // ---------- the rejected set ----------

  /** A p-value passes at a rank when it is at most alpha times the rank over m. */
  predicate Passes(p: real, m: nat, alpha: real, rank: nat) {
    m > 0 && p <= alpha * rank as real / m as real
  }

  lemma PassesMeansScaledBelow(p: real, m: nat, rank: nat, alpha: real)
    requires m > 0 && rank > 0
    ensures Scale(m)(p, rank) <= alpha <==> Passes(p, m, alpha, rank)
  {
    var x, y, c := m as real, rank as real, Scale(m)(p, rank);
    assert c * y == p * x;
    if c <= alpha {
      assert p * x <= alpha * y;
    } else {
      assert p * x > alpha * y;
    }
    assert p <= alpha * y / x <==> p * x <= alpha * y;
  }

  /** The largest rank up to `s` that passes; 0 if none does. */
  function LastPassing(ps: seq<real>, order: seq<nat>, alpha: real, s: nat): nat
    requires s <= |order| && Within(order, ps)
  {
    if s == 0 then 0
    else if Passes(ps[order[s - 1]], |ps|, alpha, s) then s
    else LastPassing(ps, order, alpha, s - 1)
  }

  predicate PassesAt(ps: seq<real>, order: seq<nat>, alpha: real, rank: nat)
    requires 1 <= rank <= |order| && Within(order, ps)
  {
    Passes(ps[order[rank - 1]], |ps|, alpha, rank)
  }

  lemma {:induction false} LastPassingIsLargest(ps: seq<real>, order: seq<nat>, alpha: real, s: nat)
    requires s <= |order| && Within(order, ps)
    ensures var k := LastPassing(ps, order, alpha, s);
            && k <= s
            && (k > 0 ==> PassesAt(ps, order, alpha, k))
            && (forall r | k < r <= s :: !PassesAt(ps, order, alpha, r))
  {
    if s > 0 && !PassesAt(ps, order, alpha, s) {
      LastPassingIsLargest(ps, order, alpha, s - 1);
    }
  }

  lemma RejectedUpTo(ps: seq<real>, order: seq<nat>, score: Score, alpha: real, r: nat, k: nat)
    requires 1 <= r <= |order| && k <= |order| && Within(order, ps) && alpha < 1.0
    requires k > 0 ==> Candidate(ps, order, score, k) <= alpha
    requires forall s | k < s <= |order| :: Candidate(ps, order, score, s) > alpha
    ensures StepUp(ps, order, score, r) <= alpha <==> r <= k
  {
    StepUpIsLeast(ps, order, score, r);
  }

  /** For alpha below 1 the rejected hypotheses are the ranks 1..k with k the largest rank whose
      p-value passes its own threshold alpha * k / m. */
  lemma RejectedAreTheFirstRanks(ps: seq<real>, alpha: real, i: nat)
    requires i < |ps| && alpha < 1.0
    ensures i in StableOrder(ps, |ps|)
    ensures Q(ps, i) <= alpha
            <==> RankOf(StableOrder(ps, |ps|), i) <= LastPassing(ps, StableOrder(ps, |ps|), alpha, |ps|)
  {
    var order := StableOrder(ps, |ps|);
    StableOrderIsPermutation(ps);
    var k := LastPassing(ps, order, alpha, |ps|);
    LastPassingIsLargest(ps, order, alpha, |ps|);
    forall s | 1 <= s <= |order|
      ensures Candidate(ps, order, Scale(|ps|), s) <= alpha <==> PassesAt(ps, order, alpha, s)
    {
      PassesMeansScaledBelow(ps[order[s - 1]], |ps|, s, alpha);
    }
    RejectedUpTo(ps, order, Scale(|ps|), alpha, RankOf(order, i), k);
  }

  // ---------- counting, independent of order ----------

  /** How many values are at most x. */
  function CountLe(ps: seq<real>, x: real): nat {
    if ps == [] then 0 else (if ps[0] <= x then 1 else 0) + CountLe(ps[1..], x)
  }

  lemma {:induction false} CountConcat(a: seq<real>, b: seq<real>, x: real)
    ensures CountLe(a + b, x) == CountLe(a, x) + CountLe(b, x)
    decreases |a|
  {
    if a == [] {
      assert a + b == b;
    } else {
      assert (a + b)[1..] == a[1..] + b;
      CountConcat(a[1..], b, x);
    }
  }

  lemma {:induction false} CountOfPermutation(a: seq<real>, b: seq<real>, x: real)
    requires multiset(a) == multiset(b)
    ensures CountLe(a, x) == CountLe(b, x) && |a| == |b|
    decreases |a|
  {
    assert |multiset(a)| == |a| && |multiset(b)| == |b|;
    if a != [] {
      var k := FindFirst(a, b);
      CountOfPermutation(a[1..], Without(b, k), x);
      CountWithout(b, k, x);
    }
  }

  lemma CountWithout(b: seq<real>, k: nat, x: real)
    requires k < |b|
    ensures CountLe(b, x) == CountLe(Without(b, k), x) + if b[k] <= x then 1 else 0
  {
    assert b == b[..k] + ([b[k]] + b[k + 1..]);
    assert ([b[k]] + b[k + 1..])[1..] == b[k + 1..];
    CountConcat(b[..k], [b[k]] + b[k + 1..], x);
    CountConcat(b[..k], b[k + 1..], x);
  }

  /** The elements an order picks, one after another. */
  function Picked<T>(order: seq<nat>, vs: seq<T>): (r: seq<T>)
    requires Within(order, vs)
    ensures |r| == |order| && forall k | 0 <= k < |order| :: r[k] == vs[order[k]]
  {
    seq(|order|, k requires 0 <= k < |order| => vs[order[k]])
  }

  lemma PickedFirst<T>(order: seq<nat>, vs: seq<T>, i: nat)
    requires i < |vs| && Within(order, vs)
    ensures Within([i] + order, vs) && Picked([i] + order, vs) == [vs[i]] + Picked(order, vs)
    ensures multiset(Picked([i] + order, vs)) == multiset{vs[i]} + multiset(Picked(order, vs))
  {
    assert Picked([i] + order, vs) == [vs[i]] + Picked(order, vs);
  }

  lemma {:induction false} InsertedPicked<T>(order: seq<nat>, ps: seq<real>, vs: seq<T>, i: nat)
    requires i < |ps| == |vs| && Within(order, ps)
    ensures multiset(Picked(Insert(order, ps, i), vs)) == multiset(Picked(order, vs)) + multiset{vs[i]}
    decreases |order|
  {
    if order == [] || ps[i] < ps[order[0]] {
      PickedFirst(order, vs, i);
    } else {
      InsertedPicked(order[1..], ps, vs, i);
      PickedFirst(Insert(order[1..], ps, i), vs, order[0]);
      PickedFirst(order[1..], vs, order[0]);
      assert order == [order[0]] + order[1..];
    }
  }

  lemma {:induction false} StableOrderPicks<T>(ps: seq<real>, vs: seq<T>, n: nat)
    requires n <= |ps| == |vs|
    ensures multiset(Picked(StableOrder(ps, n), vs)) == multiset(vs[..n])
  {
    if n > 0 {
      StableOrderPicks(ps, vs, n - 1);
      InsertedPicked(StableOrder(ps, n - 1), ps, vs, n - 1);
      OneMoreTaken(vs, n - 1);
    }
  }

  lemma OneMoreTaken<T>(vs: seq<T>, n: nat)
    requires n < |vs|
    ensures multiset(vs[..n + 1]) == multiset(vs[..n]) + multiset{vs[n]}
  {
    assert vs[..n + 1] == vs[..n] + [vs[n]];
  }

  lemma AllPicked<T>(ps: seq<real>, vs: seq<T>)
    requires |ps| == |vs|
    ensures multiset(Picked(StableOrder(ps, |ps|), vs)) == multiset(vs)
  {
    StableOrderPicks(ps, vs, |ps|);
    assert vs[..|ps|] == vs;
  }

  predicate Sorted(vs: seq<real>) { forall j, k | 0 <= j <= k < |vs| :: vs[j] <= vs[k] }

  lemma {:induction false} CountSorted(vs: seq<real>, x: real, t: nat)
    requires t <= |vs|
    requires forall k | 0 <= k < t :: vs[k] <= x
    requires forall k | t <= k < |vs| :: vs[k] > x
    ensures CountLe(vs, x) == t
    decreases |vs|
  {
    if vs != [] {
      CountSorted(vs[1..], x, if t > 0 then t - 1 else 0);
    }
  }

  lemma {:induction false} SplitSorted(vs: seq<real>, x: real) returns (t: nat)
    requires Sorted(vs)
    ensures t <= |vs| && t == CountLe(vs, x)
    ensures forall k | 0 <= k < |vs| :: vs[k] <= x <==> k < t
    decreases |vs|
  {
    t := |vs|;
    while t > 0 && vs[t - 1] > x
      invariant t <= |vs|
      invariant forall k | t <= k < |vs| :: vs[k] > x
    {
      t := t - 1;
    }
    assert forall k | 0 <= k < t :: vs[k] <= vs[t - 1];
    CountSorted(vs, x, t);
  }

  lemma OrderedValues(ps: seq<real>)
    ensures multiset(Picked(StableOrder(ps, |ps|), ps)) == multiset(ps) && Sorted(Picked(StableOrder(ps, |ps|), ps))
  {
    AllPicked(ps, ps);
    StableOrderIsPermutation(ps);
  }

  /** The last rank whose value is at most x, and the number of such values. */
  lemma LastRank(ps: seq<real>, order: seq<nat>, x: real) returns (t: nat)
    requires order == StableOrder(ps, |ps|)
    ensures t == CountLe(ps, x) && t <= |ps|
    ensures forall k | 0 <= k < |ps| :: ps[order[k]] <= x <==> k < t
  {
    OrderedValues(ps);
    t := SplitSorted(Picked(order, ps), x);
    CountOfPermutation(Picked(order, ps), ps, x);
  }

  // ---------- q without ranks ----------

  /** What the value `ps[j]` contributes at the last of its ties. */
  function Contribution(ps: seq<real>, score: Score, j: nat): real
    requires j < |ps|
  {
    score(ps[j], CountLe(ps, ps[j]))
  }

  /** q is the least of 1 and of v * m / #{values <= v} over the values v not below p. */
  ghost predicate IsAdjusted(ps: seq<real>, score: Score, p: real, q: real) {
    && q <= 1.0
    && (forall j | 0 <= j < |ps| && ps[j] >= p :: q <= Contribution(ps, score, j))
    && (q == 1.0 || exists j :: 0 <= j < |ps| && ps[j] >= p && q == Contribution(ps, score, j))
  }

  /** A score that does not grow with the rank, on values that are not negative. */
  ghost predicate Falls(score: Score) {
    forall p, s, t | p >= 0.0 && 0 < s <= t :: score(p, t) <= score(p, s)
  }

  lemma ScaleFalls(m: nat)
    ensures Falls(Scale(m))
  {
    forall p: real, s: nat, t: nat | p >= 0.0 && 0 < s <= t
      ensures Scale(m)(p, t) <= Scale(m)(p, s) {
      ScaledDown(p, m as real, s as real, t as real);
    }
  }

  lemma ScaledDown(p: real, m: real, a: real, b: real)
    requires p >= 0.0 && m >= 0.0 && 0.0 < a <= b
    ensures p * m / b <= p * m / a
  {
    ProductGrows(p, 0.0, m);
    assert p * 0.0 == 0.0;
    DivisionFalls(p * m, a, b);
  }

  lemma DivisionFalls(x: real, a: real, b: real)
    requires x >= 0.0 && 0.0 < a <= b
    ensures x / b <= x / a
  {
    var u, v := x / a, x / b;
    assert u * a == x && v * b == x;
    assert v >= 0.0;
    ProductGrows(v, a, b);
    QuotientGrows(v, u, a);
  }

  lemma ProductGrows(v: real, a: real, b: real)
    requires v >= 0.0 && a <= b
    ensures v * a <= v * b
  {
    assert v * (b - a) >= 0.0;
  }

  lemma QuotientGrows(x: real, y: real, a: real)
    requires a > 0.0 && x * a <= y * a
    ensures x <= y
  {
  }

  lemma LastTie(ps: seq<real>, order: seq<nat>, j: nat) returns (t: nat)
    requires j < |ps| && order == StableOrder(ps, |ps|)
    ensures t == CountLe(ps, ps[j]) && 1 <= t <= |ps| && ps[order[t - 1]] == ps[j]
    ensures forall k | 0 <= k < |ps| :: ps[order[k]] <= ps[j] <==> k < t
  {
    StableOrderIsPermutation(ps);
    t := LastRank(ps, order, ps[j]);
    var r := RankOf(order, j);
    assert ps[order[r - 1]] <= ps[j];
    assert ps[order[t - 1]] <= ps[j];
  }

  /** For a value that is not negative, whatever the others are, the adjusted value does not depend
      on how the sort orders anything. */
  lemma AdjustedWithoutRanks(ps: seq<real>, score: Score, i: nat)
    requires i < |ps| && ps[i] >= 0.0 && Falls(score)
    ensures IsAdjusted(ps, score, ps[i], Adjusted(ps, score, i))
  {
    var order := StableOrder(ps, |ps|);
    StableOrderIsPermutation(ps);
    var r := RankOf(order, i);
    StepUpIsLeast(ps, order, score, r);
    forall j | 0 <= j < |ps| && ps[j] >= ps[i] ensures StepUp(ps, order, score, r) <= Contribution(ps, score, j) {
      var t := LastTie(ps, order, j);
      assert ps[order[r - 1]] <= ps[j];
      assert Candidate(ps, order, score, t) == Contribution(ps, score, j);
    }
    if StepUp(ps, order, score, r) != 1.0 {
      var s :| r <= s <= |order| && StepUp(ps, order, score, r) == Candidate(ps, order, score, s);
      var j := order[s - 1];
      var t := LastTie(ps, order, j);
      assert ps[order[s - 1]] <= ps[j];
      assert score(ps[j], t) <= score(ps[j], s);
      assert ps[j] >= ps[i];
    }
  }

  lemma QWithoutRanks(ps: seq<real>, i: nat)
    requires i < |ps| && ps[i] >= 0.0
    ensures IsAdjusted(ps, Scale(|ps|), ps[i], Q(ps, i))
  {
    ScaleFalls(|ps|);
    AdjustedWithoutRanks(ps, Scale(|ps|), i);
  }

  lemma AdjustedIsUnique(ps: seq<real>, score: Score, p: real, q: real, q': real)
    requires IsAdjusted(ps, score, p, q) && IsAdjusted(ps, score, p, q')
    ensures q == q'
  {
  }

  lemma SameMultisetSameAdjusted(a: seq<real>, b: seq<real>, score: Score, p: real, q: real)
    requires multiset(a) == multiset(b) && IsAdjusted(a, score, p, q)
    ensures IsAdjusted(b, score, p, q)
  {
    forall k | 0 <= k < |b| && b[k] >= p ensures q <= Contribution(b, score, k) {
      assert b[k] in multiset(a);
      var l :| 0 <= l < |a| && a[l] == b[k];
      CountOfPermutation(a, b, b[k]);
      assert Contribution(b, score, k) == Contribution(a, score, l);
    }
    if q != 1.0 {
      var l :| 0 <= l < |a| && a[l] >= p && q == Contribution(a, score, l);
      assert a[l] in multiset(b);
      var k :| 0 <= k < |b| && b[k] == a[l];
      CountOfPermutation(a, b, b[k]);
      assert Contribution(b, score, k) == Contribution(a, score, l);
    }
  }

  /** Permuting the p-values permutes the adjusted values. */
  lemma PermutationPermutesQ(a: seq<real>, b: seq<real>, i: nat, j: nat)
    requires multiset(a) == multiset(b) && i < |a| && j < |b| && a[i] == b[j] && a[i] >= 0.0
    ensures Q(a, i) == Q(b, j)
  {
    CountOfPermutation(a, b, 0.0);
    QWithoutRanks(a, i);
    QWithoutRanks(b, j);
    SameMultisetSameAdjusted(a, b, Scale(|a|), a[i], Q(a, i));
    AdjustedIsUnique(b, Scale(|b|), a[i], Q(a, i), Q(b, j));
  }

  // ---------- any order of the family ----------

  /** Each p-value with its adjusted value. */
  function Pairs(ps: seq<real>): (pairs: seq<(real, real)>)
    ensures |pairs| == |ps| && forall i | 0 <= i < |ps| :: pairs[i] == (ps[i], Q(ps, i))
  {
    seq(|ps|, i requires 0 <= i < |ps| => (ps[i], Q(ps, i)))
  }

  /** A sorted sequence: its least value and the rest. */
  lemma Least(vs: seq<real>) returns (first: real, rest: seq<real>)
    requires Sorted(vs) && vs != []
    ensures vs == [first] + rest && |rest| < |vs| && Sorted(rest)
    ensures multiset(vs) == multiset(rest) + multiset{first} && forall x | x in multiset(vs) :: first <= x
  {
    first, rest := vs[0], vs[1..];
    assert vs == [first] + rest;
    forall x | x in multiset(vs) ensures first <= x {
      var k :| 0 <= k < |vs| && vs[k] == x;
    }
  }

  lemma {:induction false} SortedOrderIsUnique(a: seq<real>, b: seq<real>)
    requires multiset(a) == multiset(b) && Sorted(a) && Sorted(b)
    ensures a == b
    decreases |a|
  {
    assert |multiset(a)| == |a| && |multiset(b)| == |b|;
    if a != [] {
      var x, rest := Least(a);
      var y, rest' := Least(b);
      assert x in multiset(a) && y in multiset(b);
      CancelOne(multiset(rest), multiset(rest'), x);
      SortedOrderIsUnique(rest, rest');
    }
  }

  lemma {:induction false} StepUpOfValues(a: seq<real>, order: seq<nat>, b: seq<real>, order': seq<nat>,
                                          score: Score, rank: nat)
    requires Within(order, a) && Within(order', b) && Picked(order, a) == Picked(order', b)
    requires 1 <= rank <= |order| + 1
    ensures |order| == |order'| && StepUp(a, order, score, rank) == StepUp(b, order', score, rank)
    decreases |order| + 1 - rank
  {
    assert |Picked(order, a)| == |Picked(order', b)|;
    if rank <= |order| {
      StepUpOfValues(a, order, b, order', score, rank + 1);
      assert Picked(order, a)[rank - 1] == Picked(order', b)[rank - 1];
    }
  }

  lemma {:induction false} RankAt(order: seq<nat>, k: nat)
    requires k < |order| && forall i, j | 0 <= i < j < |order| :: order[i] != order[j]
    ensures order[k] in order && RankOf(order, order[k]) == k + 1
  {
    if k > 0 {
      RankAt(order[1..], k - 1);
    }
  }

  lemma QAtRank(ps: seq<real>, k: nat)
    requires k < |ps|
    ensures Q(ps, StableOrder(ps, |ps|)[k]) == StepUp(ps, StableOrder(ps, |ps|), Scale(|ps|), k + 1)
  {
    hide Candidate;
    StableOrderIsPermutation(ps);
    RankAt(StableOrder(ps, |ps|), k);
  }

  lemma SortedValuesAgree(a: seq<real>, b: seq<real>)
    requires multiset(a) == multiset(b)
    ensures |a| == |b| && Picked(StableOrder(a, |a|), a) == Picked(StableOrder(b, |b|), b)
  {
    CountOfPermutation(a, b, 0.0);
    OrderedValues(a);
    OrderedValues(b);
    SortedOrderIsUnique(Picked(StableOrder(a, |a|), a), Picked(StableOrder(b, |b|), b));
  }

  lemma SortedPairsAgree(a: seq<real>, b: seq<real>, k: nat)
    requires multiset(a) == multiset(b) && k < |a|
    ensures |a| == |b| && Pairs(a)[StableOrder(a, |a|)[k]] == Pairs(b)[StableOrder(b, |b|)[k]]
  {
    var order, order' := StableOrder(a, |a|), StableOrder(b, |b|);
    SortedValuesAgree(a, b);
    assert Picked(order, a)[k] == a[order[k]] && Picked(order', b)[k] == b[order'[k]];
    QAtRank(a, k);
    QAtRank(b, k);
    StepUpOfValues(a, order, b, order', Scale(|a|), k + 1);
  }

  lemma SamePicks<T>(order: seq<nat>, order': seq<nat>, vs: seq<T>, vs': seq<T>)
    requires |order| == |order'| && Within(order, vs) && Within(order', vs')
    requires forall k | 0 <= k < |order| :: vs[order[k]] == vs'[order'[k]]
    ensures Picked(order, vs) == Picked(order', vs')
  {
  }

  /** Sequences that agree along the sorted orders of a and b hold the same elements. */
  lemma SameAlongTheOrder<T>(a: seq<real>, b: seq<real>, vs: seq<T>, vs': seq<T>)
    requires |a| == |vs| == |b| == |vs'|
    requires forall k | 0 <= k < |a| :: vs[StableOrder(a, |a|)[k]] == vs'[StableOrder(b, |b|)[k]]
    ensures multiset(vs) == multiset(vs')
  {
    AllPicked(a, vs);
    AllPicked(b, vs');
    SamePicks(StableOrder(a, |a|), StableOrder(b, |b|), vs, vs');
  }

  /** Whatever order the p-values come in, negative ones included, the same values get the same adjusted values. */
  lemma PermutationKeepsPairs(a: seq<real>, b: seq<real>)
    requires multiset(a) == multiset(b)
    ensures multiset(Pairs(a)) == multiset(Pairs(b))
  {
    SortedValuesAgree(a, b);
    forall k: nat | k < |a| ensures Pairs(a)[StableOrder(a, |a|)[k]] == Pairs(b)[StableOrder(b, |b|)[k]] {
      SortedPairsAgree(a, b, k);
    }
    SameAlongTheOrder(a, b, Pairs(a), Pairs(b));
  }

  // ---------- ties ----------

  /** A score that puts a negative value strictly below everything not smaller at later ranks. */
  ghost predicate RisesBelowZero(score: Score) {
    && (forall p, s | p < 0.0 && s > 0 :: score(p, s) < 0.0)
    && (forall p, v, s, t | p < 0.0 && v >= p && 0 < s < t :: score(p, s) < score(v, t))
  }

  lemma ScaleRisesBelowZero(m: nat)
    requires m > 0
    ensures RisesBelowZero(Scale(m))
  {
    forall p: real, s: nat | p < 0.0 && s > 0 ensures Scale(m)(p, s) < 0.0 {
      NegativeQuotient(p, m as real, s as real);
    }
    forall p: real, v: real, s: nat, t: nat | p < 0.0 && v >= p && 0 < s < t
      ensures Scale(m)(p, s) < Scale(m)(v, t) {
      ScaleRises(p, v, m, s, t);
    }
  }

  lemma ScaleRises(p: real, v: real, m: nat, s: nat, t: nat)
    requires m > 0 && p < 0.0 && v >= p && 0 < s < t
    ensures Scale(m)(p, s) < Scale(m)(v, t)
  {
    NegativeQuotientsRise(p, v, m as real, s as real, t as real);
  }

  lemma NegativeQuotient(p: real, m: real, a: real)
    requires p < 0.0 && m > 0.0 && a > 0.0
    ensures p * m / a < 0.0
  {
    assert p * m < 0.0;
    var u := p * m / a;
    assert u * a == p * m;
  }

  lemma NegativeQuotientsRise(p: real, v: real, m: real, a: real, b: real)
    requires p < 0.0 && v >= p && m > 0.0 && 0.0 < a < b
    ensures p * m / a < v * m / b
  {
    var x, y := p * m, v * m;
    assert x < 0.0 && y >= x;
    var u, w := x / a, y / b;
    NegativeQuotient(p, m, a);
    assert u * a == x && w * b == y;
    assert u * (b - a) < 0.0;
    assert u * b < w * b;
    assert (w - u) * b > 0.0;
  }

  /** Two equal p-values get equal q exactly when they are not negative. */
  lemma TiesAgreeExactlyWhenNotNegative(ps: seq<real>, i: nat, j: nat)
    requires i < |ps| && j < |ps| && i != j && ps[i] == ps[j]
    ensures Q(ps, i) == Q(ps, j) <==> ps[i] >= 0.0
  {
    if ps[i] >= 0.0 {
      PermutationPermutesQ(ps, ps, i, j);
    } else {
      NegativeTiesDisagree(ps, Scale(|ps|), i, j);
    }
  }

  lemma NegativeTiesDisagree(ps: seq<real>, score: Score, i: nat, j: nat)
    requires i < |ps| && j < |ps| && i != j && ps[i] == ps[j] < 0.0 && score == Scale(|ps|)
    ensures Adjusted(ps, score, i) != Adjusted(ps, score, j)
  {
    hide RisesBelowZero, StepUp;
    StableOrderIsPermutation(ps);
    ScaleRisesBelowZero(|ps|);
    var order := StableOrder(ps, |ps|);
    if RankOf(order, i) < RankOf(order, j) {
      NegativeTieDiffers(ps, score, i, j);
    } else {
      NegativeTieDiffers(ps, score, j, i);
    }
  }

  lemma NegativeTieDiffers(ps: seq<real>, score: Score, i: nat, j: nat)
    requires i < |ps| && j < |ps| && ps[i] == ps[j] < 0.0 && RisesBelowZero(score)
    requires i in StableOrder(ps, |ps|) && j in StableOrder(ps, |ps|)
    requires RankOf(StableOrder(ps, |ps|), i) < RankOf(StableOrder(ps, |ps|), j)
    ensures Adjusted(ps, score, i) < Adjusted(ps, score, j)
  {
    var order := StableOrder(ps, |ps|);
    StableOrderIsPermutation(ps);
    var r, r' := RankOf(order, i), RankOf(order, j);
    StepUpIsLeast(ps, order, score, r);
    StepUpIsLeast(ps, order, score, r');
    assert Candidate(ps, order, score, r) == score(ps[i], r) < 0.0;
    if Adjusted(ps, score, j) != 1.0 {
      var s :| r' <= s <= |order| && StepUp(ps, order, score, r') == Candidate(ps, order, score, s);
      assert score(ps[i], r) < score(ps[order[s - 1]], s);
    }
  }

  // ---------- size and monotonicity ----------

  lemma ScaleAtLeast(p: real, m: nat, s: nat)
    requires p >= 0.0 && 0 < s <= m
    ensures Scale(m)(p, s) >= p
  {
    DivisionFalls(p * m as real, s as real, m as real);
    assert p * m as real / m as real == p;
  }

  lemma {:induction false} CountBound(ps: seq<real>, x: real)
    ensures CountLe(ps, x) <= |ps|
    decreases |ps|
  {
    if ps != [] {
      CountBound(ps[1..], x);
    }
  }

  lemma AdjustedGrows(ps: seq<real>, score: Score, p: real, p': real, q: real, q': real)
    requires IsAdjusted(ps, score, p, q) && IsAdjusted(ps, score, p', q') && p <= p'
    ensures q <= q'
  {
  }

  /** On p-values q is at least p, at most 1, and grows with p. */
  lemma QIsMonotone(ps: seq<real>, i: nat, j: nat)
    requires i < |ps| && j < |ps| && 0.0 <= ps[i] <= ps[j] && ps[i] <= 1.0
    ensures ps[i] <= Q(ps, i) <= 1.0 && Q(ps, i) <= Q(ps, j)
  {
    QWithoutRanks(ps, i);
    QWithoutRanks(ps, j);
    AdjustedGrows(ps, Scale(|ps|), ps[i], ps[j], Q(ps, i), Q(ps, j));
    if Q(ps, i) != 1.0 {
      var k :| 0 <= k < |ps| && ps[k] >= ps[i] && Q(ps, i) == Contribution(ps, Scale(|ps|), k);
      CountBound(ps, ps[k]);
      var t := LastTie(ps, StableOrder(ps, |ps|), k);
      ScaleAtLeast(ps[k], |ps|, CountLe(ps, ps[k]));
    }
  }

  // ---------- the family adjustment ----------

  datatype AdjustmentError = UnknownDependence | InvalidAlpha | InvalidPValues

  const INDEPENDENT := "independent_or_positive"
  const ARBITRARY := "arbitrary"

  /** 1 + 1/2 + ... + 1/n */
  function Harmonic(n: nat): real {
    if n == 0 then 0.0 else Harmonic(n - 1) + 1.0 / n as real
  }

  lemma {:induction false} HarmonicAtLeastOne(n: nat)
    requires n > 0
    ensures Harmonic(n) >= 1.0
  {
    if n > 1 {
      HarmonicAtLeastOne(n - 1);
      assert 1.0 / n as real > 0.0;
    } else {
      assert Harmonic(1) == Harmonic(0) + 1.0 / 1.0;
    }
  }

  function Inflated(row: Row, factor: real, alpha: real): Row {
    var q := Min(1.0, row.q * factor);
    row.(q := q, rejected := q <= alpha)
  }

  method HarmonicSum(n: nat) returns (factor: real)
    ensures factor == Harmonic(n)
  {
    factor := 0.0;
    var i := 0;
    while i < n
      invariant 0 <= i <= n && factor == Harmonic(i)
    {
      i := i + 1;
      factor := factor + 1.0 / i as real;
    }
  }

  method Inflate(rows: seq<Row>, factor: real, alpha: real) returns (out: seq<Row>)
    ensures |out| == |rows| && forall i | 0 <= i < |rows| :: out[i] == Inflated(rows[i], factor, alpha)
  {
    out := [];
    var i := 0;
    while i < |rows|
      invariant 0 <= i <= |rows| && |out| == i
      invariant forall j | 0 <= j < i :: out[j] == Inflated(rows[j], factor, alpha)
    {
      var q := Min(1.0, rows[i].q * factor);
      out := out + [rows[i].(q := q, rejected := q <= alpha)];
      i := i + 1;
    }
  }

  /** What the two branches report for one hypothesis. */
  function Reported(ps: seq<real>, dependence: string, alpha: real, i: nat): Row
    requires i < |ps|
  {
    if dependence == INDEPENDENT then BhRow(ps, alpha, i) else Inflated(BhRow(ps, alpha, i), Harmonic(|ps|), alpha)
  }

  method FamilyAdjustment(ps: seq<real>, dependence: string, alpha: real)
    returns (answer: Result<seq<Row>, AdjustmentError>)
    ensures answer.Ok? <==> dependence in {"independent_or_positive", "arbitrary"} && 0.0 < alpha < 1.0
                            && forall i | 0 <= i < |ps| :: 0.0 <= ps[i] <= 1.0
    ensures answer.Err? ==>
              answer.error == if dependence !in {"independent_or_positive", "arbitrary"} then UnknownDependence
                              else if alpha <= 0.0 || alpha >= 1.0 then InvalidAlpha else InvalidPValues
    ensures answer.Ok? ==> |answer.value| == |ps|
    ensures answer.Ok? ==> forall i | 0 <= i < |ps| :: answer.value[i] == Reported(ps, dependence, alpha, i)
    ensures answer.Ok? ==> forall row | row in answer.value :: row.rejected <==> row.q <= alpha
  {
    if dependence !in {INDEPENDENT, ARBITRARY} {
      return Err(UnknownDependence);
    }
    if !(0.0 < alpha < 1.0) {
      return Err(InvalidAlpha);
    }
    if exists i :: 0 <= i < |ps| && !(0.0 <= ps[i] <= 1.0) {
      return Err(InvalidPValues);
    }
    var rows := BhFdr(ps, alpha);
    if dependence == INDEPENDENT {
      return Ok(rows);
    }
    var factor := HarmonicSum(|ps|);
    var out := Inflate(rows, factor, alpha);
    return Ok(out);
  }

  /** Under arbitrary dependence q is at least the one under independence, at most 1, and only
      hypotheses rejected under independence are rejected. */
  lemma ArbitraryIsMoreConservative(ps: seq<real>, alpha: real, i: nat)
    requires i < |ps| && forall j | 0 <= j < |ps| :: 0.0 <= ps[j] <= 1.0
    ensures var bh := BhRow(ps, alpha, i);
            var yek := Inflated(bh, Harmonic(|ps|), alpha);
            bh.q <= yek.q <= 1.0 && (yek.rejected ==> bh.rejected)
  {
    QIsMonotone(ps, i, i);
    HarmonicAtLeastOne(|ps|);
    InflatedIsMoreConservative(BhRow(ps, alpha, i), Harmonic(|ps|), alpha);
  }

  lemma InflatedIsMoreConservative(row: Row, factor: real, alpha: real)
    requires 0.0 <= row.q <= 1.0 && factor >= 1.0 && (row.rejected <==> row.q <= alpha)
    ensures row.q <= Inflated(row, factor, alpha).q <= 1.0
    ensures Inflated(row, factor, alpha).rejected ==> row.rejected
  {
    ProductGrows(row.q, 1.0, factor);
  }
}
