/** Which scenario estimates are accepted (autoresearch/contracts/execution.py, `validate_scenario_estimate`), spelled
    out on their literals. */
module EstimateRules {
  import opened Wrappers
  import opened ScenarioEstimate

  function Tens(n: nat): (t: nat)
    ensures t > 0
  {
    if n == 0 then 1 else 10 * Tens(n - 1)
  }

  lemma {:induction false} PlaceIsATenth(n: nat)
    ensures Place(n) == 1.0 / Tens(n) as real
    decreases n
  {
    if n > 0 {
      PlaceIsATenth(n - 1);
      TenthOf(Tens(n - 1));
    }
  }

  lemma TenthOf(t: nat)
    requires t > 0
    ensures 1.0 / t as real / 10.0 == 1.0 / (10 * t) as real
  {
    assert (10 * t) as real == 10.0 * t as real;
  }

  /** Half of the last declared place, and half of the fourth if fewer are declared. */
  function Half(d: Dec): real { 1.0 / Tens(if d.places < 4 then 4 else d.places) as real / 2.0 }

  lemma HalfIsTolerance(d: Dec)
    ensures Tolerance(d) == Half(d)
  {
    ToleranceIsHalfTheLastPlace(d);
    PlaceIsATenth(if d.places < 4 then 4 else d.places);
  }

  predicate Within(x: real, y: real, bound: real) { y - bound <= x <= y + bound }

  lemma WithinIsClose(x: real, y: real, bound: real)
    ensures Within(x, y, bound) <==> Abs(x - y) <= bound
  {
  }

  // ---------- parts of an estimate ----------

  /** Two decimals in order, both of them prices if they have to be. */
  predicate Ordered(r: Range) { r.low.Some? && r.high.Some? && r.low.value.value <= r.high.value.value }

  predicate EntryInOrder(entry: Option<Range>) {
    entry.Some? ==> Ordered(entry.value) && entry.value.low.value.value > 0.0
  }

  predicate RowInOrder(entry: Option<Range>, row: Scenario)
    requires EntryInOrder(entry)
  {
    && row.name != Unknown && row.exit.Some? && row.exit.value.value > 0.0
    && (row.probability == Some(None) ==> false)
    && if entry.None? then row.declared.None?
       else
         var exit, entryLow, entryHigh :=
           row.exit.value.value, entry.value.low.value.value, entry.value.high.value.value;
         && row.declared.Some? && Ordered(row.declared.value)
         && Within(row.declared.value.low.value.value, exit / entryHigh - 1.0, Half(row.declared.value.low.value))
         && Within(row.declared.value.high.value.value, exit / entryLow - 1.0, Half(row.declared.value.high.value))
  }

  predicate RowsInOrder(e: Estimate)
    requires EntryInOrder(e.entry)
  {
    && e.scenarios != [] && (forall row | row in e.scenarios :: RowInOrder(e.entry, row))
    && !exists i, j :: 0 <= i < j < |e.scenarios| && e.scenarios[i].name == e.scenarios[j].name
  }

  /** No scenario has a probability; or there are three and they share out one. */
  predicate ProbabilitiesInOrder(e: Estimate) {
    || (e.basis == NotProvided && forall row | row in e.scenarios :: row.probability == None)
    || (e.basis == Subjective && Likely(e)
        && P(e, 0) + P(e, 1) + P(e, 2) == 1.0)
  }

  /** Three scenarios with a probability each, between nothing and one. */
  predicate Likely(e: Estimate) {
    |e.scenarios| == 3 && forall row | row in e.scenarios ::
      row.probability.Some? && row.probability.value.Some? && 0.0 <= row.probability.value.value.value <= 1.0
  }

  /** The probability of the i-th scenario, and its declared returns. */
  function P(e: Estimate, i: nat): real {
    if i < |e.scenarios| && e.scenarios[i].probability.Some? && e.scenarios[i].probability.value.Some?
    then e.scenarios[i].probability.value.value.value else 0.0
  }

  function Low(e: Estimate, i: nat): Dec {
    if i < |e.scenarios| && e.scenarios[i].declared.Some? && e.scenarios[i].declared.value.low.Some?
    then e.scenarios[i].declared.value.low.value else Dec(0.0, 0)
  }

  function High(e: Estimate, i: nat): Dec {
    if i < |e.scenarios| && e.scenarios[i].declared.Some? && e.scenarios[i].declared.value.high.Some?
    then e.scenarios[i].declared.value.high.value else Dec(0.0, 0)
  }

  /** A declared end of the expected value against the declared returns, weighted. */
  predicate EvEnd(e: Estimate, ev: Dec, x: Dec, y: Dec, z: Dec) {
    Within(ev.value, Expected(e, x.value, y.value, z.value), Half(ev) + Expected(e, Half(x), Half(y), Half(z)))
  }

  function Expected(e: Estimate, x: real, y: real, z: real): real { P(e, 0) * x + P(e, 1) * y + P(e, 2) * z }

  predicate EvInOrder(e: Estimate, ev: Range) {
    && e.entry.Some? && e.basis == Subjective && Ordered(ev)
    && EvEnd(e, ev.low.value, Low(e, 0), Low(e, 1), Low(e, 2))
    && EvEnd(e, ev.high.value, High(e, 0), High(e, 1), High(e, 2))
  }

  /** The declared ratio against the low returns of the bull and the bear scenario. */
  predicate RatioInOrder(rr: Dec, gain: Dec, loss: Dec) {
    && gain.value > 0.0 && loss.value < 0.0 && rr.value > 0.0
    && Within(rr.value, gain.value / (-loss.value),
              Half(rr) + (Half(gain) / (-loss.value) + gain.value * Half(loss) / (loss.value * loss.value)))
  }

  ghost predicate RrInOrder(e: Estimate, rr: Raw) {
    && e.entry.Some? && Ordered(e.entry.value) && e.entry.value.low.value.value == e.entry.value.high.value.value
    && |e.scenarios| == 3 && rr.Some?
    && exists i: nat, k: nat | i < 3 && k < 3 :: BullAndBear(e, rr.value, i, k)
  }

  predicate BullAndBear(e: Estimate, rr: Dec, i: nat, k: nat)
    requires i < |e.scenarios| && k < |e.scenarios|
  {
    e.scenarios[i].name == Bull && e.scenarios[k].name == Bear && RatioInOrder(rr, Low(e, i), Low(e, k))
  }

  ghost predicate InOrder(e: Estimate) {
    && EntryInOrder(e.entry) && RowsInOrder(e) && ProbabilitiesInOrder(e)
    && (e.ev.Some? ==> EvInOrder(e, e.ev.value))
    && (e.rr.Some? ==> RrInOrder(e, e.rr.value))
  }

  // ---------- rows ----------

  lemma RowIsInOrder(entry: Option<Range>, row: Scenario)
    requires EntryInOrder(entry)
    ensures RowOk(entry, row) <==> RowInOrder(entry, row)
  {
    if entry.Some? && row.declared.Some? && Ordered(row.declared.value) {
      HalfIsTolerance(row.declared.value.low.value);
      HalfIsTolerance(row.declared.value.high.value);
    }
  }

  lemma RowsAreInOrder(e: Estimate)
    requires EntryInOrder(e.entry)
    ensures RowsOk(e) <==> RowsInOrder(e)
  {
    hide RowOk, RowInOrder;
    forall row ensures RowOk(e.entry, row) <==> RowInOrder(e.entry, row) {
      RowIsInOrder(e.entry, row);
    }
    assert forall i | 0 <= i < |e.scenarios| :: e.scenarios[i] in e.scenarios;
  }

  // ---------- names and probabilities ----------

  function NameAt(rows: seq<Scenario>, i: nat): Name { if i < |rows| then rows[i].name else Unknown }

  /** Distinct names are at most three, and three of them are all. */
  lemma NamesAreAll(rows: seq<Scenario>)
    requires forall i | 0 <= i < |rows| :: !rows[i].name.Unknown?
    requires forall i, j | 0 <= i < j < |rows| :: rows[i].name != rows[j].name
    ensures AllThree(rows) <==> |rows| == 3
  {
    var a, b, c, d := NameAt(rows, 0), NameAt(rows, 1), NameAt(rows, 2), NameAt(rows, 3);
    assert |rows| >= 3 ==> a != b && a != c && b != c;
    assert |rows| > 3 ==> a != d && b != d && c != d;
    assert |rows| >= 3 ==> rows[0].name == a && rows[1].name == b && rows[2].name == c;
    if AllThree(rows) {
      var i :| 0 <= i < |rows| && rows[i].name == Bull;
      var j :| 0 <= j < |rows| && rows[j].name == Base;
      var k :| 0 <= k < |rows| && rows[k].name == Bear;
    }
  }

  lemma SumOfThree(ws: seq<real>)
    requires |ws| == 3
    ensures Sum(ws) == ws[0] + ws[1] + ws[2]
  {
    assert Sum(ws[3..]) == 0.0;
    assert Sum(ws[2..]) == ws[2] + Sum(ws[2..][1..]) && ws[2..][1..] == ws[3..];
    assert Sum(ws[1..]) == ws[1] + Sum(ws[1..][1..]) && ws[1..][1..] == ws[2..];
  }

  lemma DotOfThree(ws: seq<real>, xs: seq<real>)
    requires |ws| == |xs| == 3
    ensures Dot(ws, xs) == ws[0] * xs[0] + ws[1] * xs[1] + ws[2] * xs[2]
  {
    assert Dot(ws[3..], xs[3..]) == 0.0;
    assert Dot(ws[2..], xs[2..]) == ws[2] * xs[2] + Dot(ws[2..][1..], xs[2..][1..]);
    assert ws[2..][1..] == ws[3..] && xs[2..][1..] == xs[3..];
    assert Dot(ws[1..], xs[1..]) == ws[1] * xs[1] + Dot(ws[1..][1..], xs[1..][1..]);
    assert ws[1..][1..] == ws[2..] && xs[1..][1..] == xs[2..];
  }

  lemma RowNames(e: Estimate)
    requires EntryInOrder(e.entry) && RowsOk(e)
    ensures forall i | 0 <= i < |e.scenarios| :: RowOk(e.entry, e.scenarios[i]) && !e.scenarios[i].name.Unknown?
    ensures forall i | 0 <= i < |e.scenarios| ::
              e.scenarios[i].probability.Some? ==> e.scenarios[i].probability.value.Some?
    ensures AllThree(e.scenarios) <==> |e.scenarios| == 3
  {
    assert forall i | 0 <= i < |e.scenarios| :: RowOk(e.entry, e.scenarios[i]);
    NamesAreAll(e.scenarios);
  }

  lemma ProbabilitiesAreInOrder(e: Estimate)
    requires EntryInOrder(e.entry) && RowsOk(e)
    ensures ProbabilitiesOk(e) <==> ProbabilitiesInOrder(e)
  {
    RowNames(e);
    hide RowOk, RowsOk, AllThree;
    var rows := e.scenarios;
    assert forall i | 0 <= i < |rows| :: rows[i] in rows;
    if exists i :: 0 <= i < |rows| && rows[i].probability.Some? {
      if Weighted(rows) && |rows| == 3 {
        SumOfThree(Weights(rows));
        assert Weights(rows)[0] == P(e, 0) && Weights(rows)[1] == P(e, 1) && Weights(rows)[2] == P(e, 2);
      }
    }
  }

  // ---------- expected value and ratio ----------

  lemma EvEndIsClose(e: Estimate, ev: Range, end: nat)
    requires EntryInOrder(e.entry) && EvInputs(e) && |e.scenarios| == 3 && Bounds(ev, false) && end < 2
    ensures var xs := (i: nat) => if end == 0 then Low(e, i) else High(e, i);
            EvClose(e, ev, end) <==> EvEnd(e, End(ev, end), xs(0), xs(1), xs(2))
  {
    hide Half, Tolerance, RowOk, RowsOk, Expected, Dot, Within, Abs, Declared, Tolerances, Weights;
    var x := DeclaredAt(e, end, 0);
    var y := DeclaredAt(e, end, 1);
    var z := DeclaredAt(e, end, 2);
    DotIsExpected(e, Declared(e, end));
    DotIsExpected(e, Tolerances(e, end));
    HalfIsTolerance(x);
    HalfIsTolerance(y);
    HalfIsTolerance(z);
    var last := End(ev, end);
    HalfIsTolerance(last);
    WithinIsClose(last.value, Dot(Weights(e.scenarios), Declared(e, end)),
                  Half(last) + Dot(Weights(e.scenarios), Tolerances(e, end)));
  }

  lemma DotIsExpected(e: Estimate, xs: seq<real>)
    requires Weighted(e.scenarios) && |e.scenarios| == |xs| == 3
    ensures Dot(Weights(e.scenarios), xs) == Expected(e, xs[0], xs[1], xs[2])
  {
    var ws := Weights(e.scenarios);
    assert ws[0] == P(e, 0) && ws[1] == P(e, 1) && ws[2] == P(e, 2);
    hide P;
    DotOfThree(ws, xs);
  }

  lemma DeclaredAt(e: Estimate, end: nat, i: nat) returns (x: Dec)
    requires EntryInOrder(e.entry) && EvInputs(e) && i < |e.scenarios| && end < 2
    ensures x == if end == 0 then Low(e, i) else High(e, i)
    ensures Declared(e, end)[i] == x.value && Tolerances(e, end)[i] == Tolerance(x)
  {
    assert RowOk(e.entry, e.scenarios[i]);
    x := End(e.scenarios[i].declared.value, end);
  }

  lemma EvIsInOrder(e: Estimate, ev: Range)
    requires EntryInOrder(e.entry) && RowsOk(e) && ProbabilitiesOk(e)
    ensures EvInputs(e) && Bounds(ev, false) && EvClose(e, ev, 0) && EvClose(e, ev, 1) <==> EvInOrder(e, ev)
  {
    RowNames(e);
    hide EvClose, EvEnd, RowOk, RowsOk, AllThree;
    assert e.scenarios != [] by { NotEmpty(e); }
    if e.entry.Some? && e.basis == Subjective && Bounds(ev, false) {
      EvEndIsClose(e, ev, 0);
      EvEndIsClose(e, ev, 1);
    }
  }

  lemma NotEmpty(e: Estimate)
    requires EntryInOrder(e.entry) && RowsOk(e)
    ensures e.scenarios != []
  {
  }

  lemma RatioIsClose(rr: Dec, gain: Dec, loss: Dec)
    ensures RrClose(rr, gain, loss) <==> RatioInOrder(rr, gain, loss)
  {
    HalfIsTolerance(rr);
    HalfIsTolerance(gain);
    HalfIsTolerance(loss);
    hide Half, Tolerance;
  }

  lemma RrIsInOrder(e: Estimate, rr: Raw)
    requires EntryInOrder(e.entry) && RowsOk(e)
    ensures RrInputs(e) && rr.Some? && RrClose(rr.value, LowReturn(e, Bull), LowReturn(e, Bear)) <==> RrInOrder(e, rr)
  {
    RowNames(e);
    hide RrClose, RatioInOrder, RowOk;
    if RrInputs(e) && rr.Some? {
      var i, k := Find(e.scenarios, Bull), Find(e.scenarios, Bear);
      assert RowOk(e.entry, e.scenarios[i]) && RowOk(e.entry, e.scenarios[k]);
      LowReturnIs(e, Bull);
      LowReturnIs(e, Bear);
      RatioIsClose(rr.value, Low(e, i), Low(e, k));
      assert forall i': nat, k': nat | i' < 3 && k' < 3 && BullAndBear(e, rr.value, i', k') :: i' == i && k' == k;
      assert BullAndBear(e, rr.value, i, k) <==> RatioInOrder(rr.value, Low(e, i), Low(e, k));
    }
  }

  lemma LowReturnIs(e: Estimate, name: Name)
    requires EntryInOrder(e.entry) && RrInputs(e) && Named(e.scenarios, name)
    ensures LowReturn(e, name) == Low(e, Find(e.scenarios, name))
  {
    assert RowOk(e.entry, e.scenarios[Find(e.scenarios, name)]);
  }

  /** An estimate is accepted if and only if entry, rows and probabilities are in order, a declared expected value is
      near the weighted returns at both ends, and a declared ratio is near that of the bull and the bear return. */
  lemma EstimateIsAcceptedExactlyWhen(e: Estimate)
    ensures Accepted(e) <==> InOrder(e)
  {
    hide RowsOk, RowsInOrder, ProbabilitiesOk, ProbabilitiesInOrder, EvClose, RrClose, EvInOrder, RrInOrder;
    if EntryInOrder(e.entry) {
      RowsAreInOrder(e);
      if RowsOk(e) {
        ProbabilitiesAreInOrder(e);
        if ProbabilitiesOk(e) && e.ev.Some? {
          EvIsInOrder(e, e.ev.value);
        }
        if e.rr.Some? {
          RrIsInOrder(e, e.rr.value);
        }
      }
    }
  }
}
