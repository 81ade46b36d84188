/** The tolerance check of conditional scenario estimates (autoresearch/contracts/execution.py),
    over exact decimals. */
module ScenarioEstimate {
  import opened Wrappers

  /** A finite decimal literal: its value, and how many digits it declares after the point. */
  datatype Dec = Dec(value: real, places: nat)

  /** A raw field; `None` stands for text that is no finite decimal. */
  type Raw = Option<Dec>

  datatype Range = Range(low: Raw, high: Raw)

  datatype Name = Bull | Base | Bear | Unknown

  datatype Scenario = Scenario(name: Name, exit: Raw, declared: Option<Range>, probability: Option<Raw>)

  datatype Basis = Subjective | NotProvided | OtherBasis

  datatype Estimate = Estimate(
    entry: Option<Range>, basis: Basis, scenarios: seq<Scenario>, ev: Option<Range>, rr: Option<Raw>)

  datatype EstimateError =
    | BadRange
    | NoScenarios
    | BadName
    | BadPrice
    | ReturnWithoutEntry
    | ReturnContradiction
    | BadProbability
    | BadBasis
    | EvWithoutInputs
    | EvContradiction
    | RrWithoutInputs
    | RrContradiction

  function Abs(x: real): real { if x < 0.0 then -x else x }

  // ---------- tolerances ----------

  /** One unit of the n-th decimal place. */
  function Place(n: nat): real { if n == 0 then 1.0 else Place(n - 1) / 10.0 }

  const PRECISION := 0.0001

  function Tolerance(d: Dec): real {
    (if Place(d.places) <= PRECISION then Place(d.places) else PRECISION) / 2.0
  }

  lemma {:induction false} PlaceFalls(m: nat, n: nat)
    requires m <= n
    ensures 0.0 < Place(n) <= Place(m)
    decreases n
  {
    if m < n {
      PlaceFalls(m, n - 1);
    } else if n > 0 {
      PlaceFalls(m - 1, n - 1);
    }
  }

  /** Half the last declared place once four places are declared, and half of the fourth before. */
  lemma ToleranceIsHalfTheLastPlace(d: Dec)
    ensures Tolerance(d) == (if d.places >= 4 then Place(d.places) else Place(4)) / 2.0
    ensures 0.0 < Tolerance(d) <= PRECISION / 2.0
  {
    assert Place(4) == Place(3) / 10.0 && Place(3) == Place(2) / 10.0 && Place(2) == Place(1) / 10.0
        && Place(1) == Place(0) / 10.0;
    if d.places >= 4 {
      PlaceFalls(4, d.places);
    } else {
      PlaceFalls(d.places, 3);
    }
  }

  lemma TolerancePositive(d: Dec)
    ensures Tolerance(d) > 0.0
  {
    ToleranceIsHalfTheLastPlace(d);
  }

  // ---------- the numbers of an estimate ----------

  /** `conditional_gap` */
  function Gap(exit: real, entry: real): real
    requires entry > 0.0
  {
    exit / entry - 1.0
  }

  predicate Bounds(r: Range, positive: bool) {
    && r.low.Some? && r.high.Some?
    && (positive ==> r.low.value.value > 0.0 && r.high.value.value > 0.0)
    && r.low.value.value <= r.high.value.value
  }

  /** The low (`end` 0) and high (`end` 1) declared bound. */
  function End(r: Range, end: nat): Dec
    requires Bounds(r, false) && end < 2
  {
    if end == 0 then r.low.value else r.high.value
  }

  predicate PriceOk(raw: Raw) { raw.Some? && raw.value.value > 0.0 }

  /** The exact return of a row at one end: against the high entry for the low end and against the
      low entry for the high end. */
  function Exact(entry: Range, row: Scenario, end: nat): real
    requires Bounds(entry, true) && PriceOk(row.exit) && end < 2
  {
    Gap(row.exit.value.value, End(entry, 1 - end).value)
  }

  predicate ShapeOk(entry: Option<Range>, row: Scenario) {
    && !row.name.Unknown? && PriceOk(row.exit)
    && (entry.Some? ==> row.declared.Some? && Bounds(row.declared.value, false))
    && (entry.None? ==> row.declared.None?)
    && (row.probability.Some? ==> row.probability.value.Some?)
  }

  predicate ReturnClose(entry: Range, row: Scenario, end: nat)
    requires Bounds(entry, true) && ShapeOk(Some(entry), row) && end < 2
  {
    var declared := End(row.declared.value, end);
    Abs(declared.value - Exact(entry, row, end)) <= Tolerance(declared)
  }

  predicate RowOk(entry: Option<Range>, row: Scenario)
    requires entry.Some? ==> Bounds(entry.value, true)
  {
    && ShapeOk(entry, row)
    && (entry.Some? ==> ReturnClose(entry.value, row, 0) && ReturnClose(entry.value, row, 1))
  }

  predicate RowsOk(e: Estimate)
    requires e.entry.Some? ==> Bounds(e.entry.value, true)
  {
    && e.scenarios != []
    && (forall i | 0 <= i < |e.scenarios| :: RowOk(e.entry, e.scenarios[i]))
    && (forall i, j | 0 <= i < j < |e.scenarios| :: e.scenarios[i].name != e.scenarios[j].name)
  }

  predicate Named(rows: seq<Scenario>, name: Name) { exists i :: 0 <= i < |rows| && rows[i].name == name }

  predicate AllThree(rows: seq<Scenario>) { Named(rows, Bull) && Named(rows, Base) && Named(rows, Bear) }

  predicate Weighted(rows: seq<Scenario>) {
    forall i | 0 <= i < |rows| :: rows[i].probability.Some? && rows[i].probability.value.Some?
  }

  function Weight(row: Scenario): real
    requires row.probability.Some? && row.probability.value.Some?
  {
    row.probability.value.value.value
  }

  function Weights(rows: seq<Scenario>): (ws: seq<real>)
    requires Weighted(rows)
    ensures |ws| == |rows| && forall i | 0 <= i < |rows| :: ws[i] == Weight(rows[i])
  {
    seq(|rows|, i requires 0 <= i < |rows| => Weight(rows[i]))
  }

  function Sum(xs: seq<real>): real { if xs == [] then 0.0 else xs[0] + Sum(xs[1..]) }

  /** The probability-weighted sum. */
  function Dot(ws: seq<real>, xs: seq<real>): real
    requires |ws| == |xs|
  {
    if ws == [] then 0.0 else ws[0] * xs[0] + Dot(ws[1..], xs[1..])
  }

  predicate ProbabilitiesOk(e: Estimate) {
    if exists i :: 0 <= i < |e.scenarios| && e.scenarios[i].probability.Some? then
      && AllThree(e.scenarios) && Weighted(e.scenarios)
      && (forall i | 0 <= i < |e.scenarios| :: 0.0 <= Weight(e.scenarios[i]) <= 1.0)
      && Sum(Weights(e.scenarios)) == 1.0
      && e.basis == Subjective
    else e.basis == NotProvided
  }

  /** Declared returns, their tolerances, and the exact returns, at one end. */
  function Declared(e: Estimate, end: nat): (xs: seq<real>)
    requires e.entry.Some? && Bounds(e.entry.value, true) && RowsOk(e) && end < 2
    ensures |xs| == |e.scenarios|
    ensures forall i | 0 <= i < |xs| ::
            RowOk(e.entry, e.scenarios[i]) && xs[i] == End(e.scenarios[i].declared.value, end).value
  {
    seq(|e.scenarios|, i requires 0 <= i < |e.scenarios| =>
      assert RowOk(e.entry, e.scenarios[i]); End(e.scenarios[i].declared.value, end).value)
  }

  function Tolerances(e: Estimate, end: nat): (xs: seq<real>)
    requires e.entry.Some? && Bounds(e.entry.value, true) && RowsOk(e) && end < 2
    ensures |xs| == |e.scenarios|
    ensures forall i | 0 <= i < |xs| ::
            RowOk(e.entry, e.scenarios[i]) && xs[i] == Tolerance(End(e.scenarios[i].declared.value, end))
  {
    seq(|e.scenarios|, i requires 0 <= i < |e.scenarios| =>
      assert RowOk(e.entry, e.scenarios[i]); Tolerance(End(e.scenarios[i].declared.value, end)))
  }

  function Exacts(e: Estimate, end: nat): (xs: seq<real>)
    requires e.entry.Some? && Bounds(e.entry.value, true) && RowsOk(e) && end < 2
    ensures |xs| == |e.scenarios|
    ensures forall i | 0 <= i < |xs| ::
            RowOk(e.entry, e.scenarios[i]) && xs[i] == Exact(e.entry.value, e.scenarios[i], end)
  {
    seq(|e.scenarios|, i requires 0 <= i < |e.scenarios| =>
      assert RowOk(e.entry, e.scenarios[i]); Exact(e.entry.value, e.scenarios[i], end))
  }

  predicate EvInputs(e: Estimate)
    requires e.entry.Some? ==> Bounds(e.entry.value, true)
  {
    e.entry.Some? && RowsOk(e) && Weighted(e.scenarios)
  }

  predicate EvClose(e: Estimate, ev: Range, end: nat)
    requires e.entry.Some? ==> Bounds(e.entry.value, true)
    requires EvInputs(e) && Bounds(ev, false) && end < 2
  {
    var ws := Weights(e.scenarios);
    Abs(End(ev, end).value - Dot(ws, Declared(e, end))) <= Tolerance(End(ev, end)) + Dot(ws, Tolerances(e, end))
  }

  function Find(rows: seq<Scenario>, name: Name): (i: nat)
    requires Named(rows, name)
    ensures i < |rows| && rows[i].name == name
  {
    if rows[0].name == name then 0
    else
      assert forall i | 1 <= i < |rows| :: rows[i] == rows[1..][i - 1];
      1 + Find(rows[1..], name)
  }

  predicate RrInputs(e: Estimate)
    requires e.entry.Some? ==> Bounds(e.entry.value, true)
  {
    && e.entry.Some? && e.entry.value.low.value.value == e.entry.value.high.value.value
    && RowsOk(e) && AllThree(e.scenarios)
  }

  /** The error a ratio g over a may carry when g and a are off by at most dg and da, as validation
      propagates it. */
  function RatioError(g: real, a: real, dg: real, da: real): real
    requires a > 0.0
  {
    dg / a + g * da / (a * a)
  }

  predicate RrClose(rr: Dec, gain: Dec, loss: Dec) {
    && gain.value > 0.0 && loss.value < 0.0 && rr.value > 0.0
    && Abs(rr.value - gain.value / -loss.value)
       <= Tolerance(rr) + RatioError(gain.value, -loss.value, Tolerance(gain), Tolerance(loss))
  }

  function LowReturn(e: Estimate, name: Name): Dec
    requires e.entry.Some? ==> Bounds(e.entry.value, true)
    requires RrInputs(e) && Named(e.scenarios, name)
  {
    var row := e.scenarios[Find(e.scenarios, name)];
    assert RowOk(e.entry, row);
    End(row.declared.value, 0)
  }

  /** What a caller may rely on after validation. */
  predicate Accepted(e: Estimate) {
    && (e.entry.Some? ==> Bounds(e.entry.value, true))
    && RowsOk(e)
    && ProbabilitiesOk(e)
    && (e.ev.Some? ==>
          EvInputs(e) && Bounds(e.ev.value, false) && EvClose(e, e.ev.value, 0) && EvClose(e, e.ev.value, 1))
    && (e.rr.Some? ==>
          RrInputs(e) && e.rr.value.Some? && RrClose(e.rr.value.value, LowReturn(e, Bull), LowReturn(e, Bear)))
  }

  // ---------- validation ----------

  method CheckRow(entry: Option<Range>, row: Scenario) returns (error: Option<EstimateError>)
    requires entry.Some? ==> Bounds(entry.value, true)
    ensures error.None? <==> RowOk(entry, row)
  {
    if row.name.Unknown? {
      return Some(BadName);
    }
    if !PriceOk(row.exit) {
      return Some(BadPrice);
    }
    if entry.None? {
      if row.declared.Some? {
        return Some(ReturnWithoutEntry);
      }
    } else {
      if row.declared.None? || !Bounds(row.declared.value, false) {
        return Some(BadRange);
      }
      if row.probability.Some? && row.probability.value.None? {
        return Some(BadProbability);
      }
      if !ReturnClose(entry.value, row, 0) || !ReturnClose(entry.value, row, 1) {
        return Some(ReturnContradiction);
      }
    }
    if row.probability.Some? && row.probability.value.None? {
      return Some(BadProbability);
    }
    return None;
  }

  method CheckRows(e: Estimate) returns (error: Option<EstimateError>)
    requires e.entry.Some? ==> Bounds(e.entry.value, true)
    ensures error.None? <==> RowsOk(e)
  {
    if |e.scenarios| == 0 {
      return Some(NoScenarios);
    }
    var names: set<Name> := {};
    var i := 0;
    while i < |e.scenarios|
      invariant 0 <= i <= |e.scenarios|
      invariant forall j | 0 <= j < i :: RowOk(e.entry, e.scenarios[j])
      invariant forall j, k | 0 <= j < k < i :: e.scenarios[j].name != e.scenarios[k].name
      invariant forall name :: name in names <==> exists j :: 0 <= j < i && e.scenarios[j].name == name
    {
      if e.scenarios[i].name in names {
        return Some(BadName);
      }
      error := CheckRow(e.entry, e.scenarios[i]);
      if error.Some? {
        return;
      }
      names := names + {e.scenarios[i].name};
      i := i + 1;
    }
    return None;
  }

  method Validate(e: Estimate) returns (error: Option<EstimateError>)
    ensures error.None? <==> Accepted(e)
  {
    if e.entry.Some? && !Bounds(e.entry.value, true) {
      return Some(BadRange);
    }
    error := CheckRows(e);
    if error.Some? {
      return;
    }
    if !ProbabilitiesOk(e) {
      return Some(BadProbability);
    }
    if e.ev.Some? {
      if e.entry.None? || !Weighted(e.scenarios) {
        return Some(EvWithoutInputs);
      }
      if !Bounds(e.ev.value, false) {
        return Some(BadRange);
      }
      if !EvClose(e, e.ev.value, 0) || !EvClose(e, e.ev.value, 1) {
        return Some(EvContradiction);
      }
    }
    if e.rr.Some? {
      if e.entry.None? || e.entry.value.low.value.value != e.entry.value.high.value.value || !AllThree(e.scenarios) {
        return Some(RrWithoutInputs);
      }
      if e.rr.value.None? || !RrClose(e.rr.value.value, LowReturn(e, Bull), LowReturn(e, Bear)) {
        return Some(RrContradiction);
      }
    }
    return None;
  }

  // ---------- expected value ----------

  /** A weighted sum of numbers is within the weighted sum of their tolerances. */
  lemma {:induction false} WeightedError(ws: seq<real>, xs: seq<real>, ys: seq<real>, ts: seq<real>)
    requires |ws| == |xs| == |ys| == |ts|
    requires forall i | 0 <= i < |ws| :: ws[i] >= 0.0 && Abs(xs[i] - ys[i]) <= ts[i]
    ensures Abs(Dot(ws, xs) - Dot(ws, ys)) <= Dot(ws, ts)
    decreases |ws|
  {
    if ws != [] {
      WeightedError(ws[1..], xs[1..], ys[1..], ts[1..]);
      ScaledError(ws[0], xs[0], ys[0], ts[0]);
      AddErrors(ws[0] * xs[0], ws[0] * ys[0], ws[0] * ts[0],
                Dot(ws[1..], xs[1..]), Dot(ws[1..], ys[1..]), Dot(ws[1..], ts[1..]));
    }
  }

  lemma AddErrors(x: real, y: real, t: real, x': real, y': real, t': real)
    requires Abs(x - y) <= t && Abs(x' - y') <= t'
    ensures Abs((x + x') - (y + y')) <= t + t'
  {
  }

  lemma ScaledError(w: real, x: real, y: real, t: real)
    requires w >= 0.0 && Abs(x - y) <= t
    ensures Abs(w * x - w * y) <= w * t
  {
    ProductNotNegative(w, t - (x - y));
    ProductNotNegative(w, t + (x - y));
    assert w * (t - (x - y)) == w * t - w * x + w * y;
    assert w * (t + (x - y)) == w * t + w * x - w * y;
  }

  lemma ProductNotNegative(a: real, b: real)
    requires a >= 0.0 && b >= 0.0
    ensures a * b >= 0.0
  {
  }

  /** The weighted sum of the exact returns. */
  function ExactEv(e: Estimate, end: nat): real
    requires e.entry.Some? ==> Bounds(e.entry.value, true)
    requires EvInputs(e) && end < 2
  {
    Dot(Weights(e.scenarios), Exacts(e, end))
  }

  /** The error the declared returns may carry into the expected value. */
  function ReturnError(e: Estimate, end: nat): real
    requires e.entry.Some? ==> Bounds(e.entry.value, true)
    requires EvInputs(e) && end < 2
  {
    Dot(Weights(e.scenarios), Tolerances(e, end))
  }

  /** Every declared return of accepted rows is within its tolerance of the exact one. */
  lemma ReturnsAreClose(e: Estimate, end: nat, i: nat)
    requires e.entry.Some? && Bounds(e.entry.value, true) && RowsOk(e) && end < 2 && i < |e.scenarios|
    ensures Abs(Declared(e, end)[i] - Exacts(e, end)[i]) <= Tolerances(e, end)[i]
  {
    assert RowOk(e.entry, e.scenarios[i]);
    assert end == 0 || end == 1;
  }

  lemma WeightsAreNotNegative(e: Estimate)
    requires Weighted(e.scenarios) && e.scenarios != [] && ProbabilitiesOk(e)
    ensures forall i | 0 <= i < |e.scenarios| :: Weights(e.scenarios)[i] >= 0.0
    ensures Sum(Weights(e.scenarios)) == 1.0
  {
    assert e.scenarios[0].probability.Some?;
  }

  lemma DeclaredEvIsNearExact(e: Estimate, end: nat)
    requires e.entry.Some? ==> Bounds(e.entry.value, true)
    requires EvInputs(e) && ProbabilitiesOk(e) && end < 2
    ensures Abs(Dot(Weights(e.scenarios), Declared(e, end)) - ExactEv(e, end)) <= ReturnError(e, end)
  {
    hide Weighted;
    var ws, xs, ys, ts := Weights(e.scenarios), Declared(e, end), Exacts(e, end), Tolerances(e, end);
    WeightsAreNotNegative(e);
    forall i | 0 <= i < |ws| ensures Abs(xs[i] - ys[i]) <= ts[i] {
      ReturnsAreClose(e, end, i);
    }
    WeightedError(ws, xs, ys, ts);
  }

  /** An expected value rounded honestly from the exact one passes the comparison, although the
      comparison is against the rounded returns. */
  lemma HonestEvPasses(e: Estimate, ev: Range, end: nat)
    requires e.entry.Some? ==> Bounds(e.entry.value, true)
    requires EvInputs(e) && ProbabilitiesOk(e) && Bounds(ev, false) && end < 2
    requires Abs(End(ev, end).value - ExactEv(e, end)) <= Tolerance(End(ev, end))
    ensures EvClose(e, ev, end)
  {
    DeclaredEvIsNearExact(e, end);
  }

  /** An accepted expected value is within its own tolerance and twice the propagated return
      tolerances of the exact one. */
  lemma AcceptedEvIsNearExact(e: Estimate, end: nat)
    requires Accepted(e) && e.ev.Some? && end < 2
    ensures Abs(End(e.ev.value, end).value - ExactEv(e, end)) <= Tolerance(End(e.ev.value, end))
            + 2.0 * ReturnError(e, end)
  {
    DeclaredEvIsNearExact(e, end);
    assert end == 0 || end == 1;
  }

  lemma {:induction false} DotBounded(ws: seq<real>, xs: seq<real>, bound: real)
    requires |ws| == |xs|
    requires forall i | 0 <= i < |ws| :: ws[i] >= 0.0 && xs[i] <= bound
    ensures Dot(ws, xs) <= Sum(ws) * bound
    decreases |ws|
  {
    if ws != [] {
      DotBounded(ws[1..], xs[1..], bound);
      assert ws[0] * (bound - xs[0]) >= 0.0;
    }
  }

  lemma ReturnErrorIsSmall(e: Estimate, end: nat)
    requires e.entry.Some? ==> Bounds(e.entry.value, true)
    requires EvInputs(e) && ProbabilitiesOk(e) && end < 2
    ensures ReturnError(e, end) <= PRECISION / 2.0
  {
    var ws, ts := Weights(e.scenarios), Tolerances(e, end);
    WeightsAreNotNegative(e);
    forall i | 0 <= i < |ws| ensures ts[i] <= PRECISION / 2.0 {
      ToleranceIsHalfTheLastPlace(End(e.scenarios[i].declared.value, end));
    }
    DotBounded(ws, ts, PRECISION / 2.0);
  }

  /** So no accepted expected value is further than 0.00015 from the exact one. */
  lemma AcceptedEvErrorIsSmall(e: Estimate, end: nat)
    requires Accepted(e) && e.ev.Some? && end < 2
    ensures Abs(End(e.ev.value, end).value - ExactEv(e, end)) <= 0.00015
  {
    AcceptedEvIsNearExact(e, end);
    ToleranceIsHalfTheLastPlace(End(e.ev.value, end));
    ReturnErrorIsSmall(e, end);
  }

  // ---------- what is compared ----------

  /** What a declared number may be off by: half its last place, and half of the fourth at most. */
  predicate Near(declared: Dec, exact: real) {
    var half := (if declared.places >= 4 then Place(declared.places) else Place(4)) / 2.0;
    exact - half <= declared.value <= exact + half
  }

  /** An accepted row under an entry range: a known name, a positive exit price, and a declared range whose low end is
      near the return on the high entry price and whose high end is near the return on the low one. */
  lemma AcceptedRowIs(entry: Range, row: Scenario)
    requires Bounds(entry, true)
    ensures RowOk(Some(entry), row)
            <==> && row.name in {Bull, Base, Bear} && row.exit.Some? && row.exit.value.value > 0.0
                 && (row.probability.Some? ==> row.probability.value.Some?)
                 && row.declared.Some? && row.declared.value.low.Some? && row.declared.value.high.Some?
                 && row.declared.value.low.value.value <= row.declared.value.high.value.value
                 && Near(row.declared.value.low.value, row.exit.value.value / entry.high.value.value - 1.0)
                 && Near(row.declared.value.high.value, row.exit.value.value / entry.low.value.value - 1.0)
  {
    if row.declared.Some? && Bounds(row.declared.value, false) {
      ToleranceIsHalfTheLastPlace(row.declared.value.low.value);
      ToleranceIsHalfTheLastPlace(row.declared.value.high.value);
    }
  }

  /** Without an entry a row may declare no return. */
  lemma AcceptedRowWithoutEntryIs(row: Scenario)
    ensures RowOk(None, row)
            <==> && row.name in {Bull, Base, Bear} && row.exit.Some? && row.exit.value.value > 0.0
                 && (row.probability.Some? ==> row.probability.value.Some?) && row.declared.None?
  {
  }
}
