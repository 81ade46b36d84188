/** Nightly fills against one recomputation: which readings of the outcome ledger are final, and which
    depend on the night they were taken. */
module LedgerRuns {
  import opened Wrappers
  import opened OutcomeLedger

  // ---------- what a reading depends on ----------

  /** The code's own close on D+1 and open on D+2, for an analysis date at index i. */
  predicate HasGap(lake: Lake, code: Code, i: nat)
    requires i + 2 < |lake|
  {
    CloseOf(lake[i + 1].bars, code).Some? && OpenOf(lake[i + 2].bars, code).Some?
  }

  /** The maturity status, read off the two days after the analysis date alone. */
  function StatusOf(card: Card, lake: Lake): Status {
    if card.code.None? then NaMarket
    else if card.date.None? || !OnCalendar(lake, card.date.value) then NaNonTradingDay
    else
      var i := Position(lake, card.date.value);
      if i + 2 >= |lake| then PendingD2
      else if !HasOpen(lake[i + 1].bars) || !HasClose(lake[i + 1].bars) || !HasOpen(lake[i + 2].bars) then PendingD2
      else if HasGap(lake, card.code.value, i) then Matured
      else NaNoLakeRow
  }

  lemma {:induction false} ListedOpens(window: seq<Session>, code: Code)
    ensures code in Listed(window) <==> exists k :: 0 <= k < |window| && OpenOf(window[k].bars, code).Some?
  {
    if window != [] {
      ListedOpens(window[1..], code);
      forall k | 1 <= k < |window| ensures window[k] == window[1..][k - 1] {
      }
      if exists k :: 0 <= k < |window| && OpenOf(window[k].bars, code).Some? {
        var k :| 0 <= k < |window| && OpenOf(window[k].bars, code).Some?;
        assert k > 0 ==> OpenOf(window[1..][k - 1].bars, code).Some?;
      }
      if code in Listed(window[1..]) {
        var k :| 0 <= k < |window[1..]| && OpenOf(window[1..][k].bars, code).Some?;
        assert OpenOf(window[k + 1].bars, code).Some?;
      }
    }
  }

  lemma StatusIs(card: Card, lake: Lake)
    ensures Reading(card, lake).0 == StatusOf(card, lake)
  {
    if card.code.Some? && card.date.Some? && OnCalendar(lake, card.date.value) {
      var i, code := Position(lake, card.date.value), card.code.value;
      if i + 2 < |lake| {
        var window := Window(lake, i);
        assert window[0] == lake[i + 1] && window[1] == lake[i + 2];
        ListedOpens(window, code);
      }
    }
  }

  /** The close on day D+n over the open on D+1, blank while the lake is too short. */
  function ForwardOf(lake: Lake, code: Code, i: nat, n: nat): Option<real>
    requires i + 1 < |lake|
  {
    if i + n < |lake| then Return(CloseOf(lake[i + n].bars, code), OpenOf(lake[i + 1].bars, code)) else None
  }

  /** The returns of a matured card. */
  lemma ReturnsAre(card: Card, lake: Lake)
    requires StatusOf(card, lake) == Matured
    ensures var i, code := Position(lake, card.date.value), card.code.value;
            Reading(card, lake).1
              == Returns(Return(OpenOf(lake[i + 2].bars, code), CloseOf(lake[i + 1].bars, code)),
                         ForwardOf(lake, code, i, 5), ForwardOf(lake, code, i, 10), ForwardOf(lake, code, i, 20))
  {
    StatusIs(card, lake);
    var i, code := Position(lake, card.date.value), card.code.value;
    var window := Window(lake, i);
    assert window[0] == lake[i + 1] && window[1] == lake[i + 2];
    ForwardReads(lake, code, i, 5);
    ForwardReads(lake, code, i, 10);
    ForwardReads(lake, code, i, 20);
  }

  lemma ForwardReads(lake: Lake, code: Code, i: nat, n: nat)
    requires i + 2 < |lake| && 0 < n <= 20
    ensures Forward(Window(lake, i), code, n) == ForwardOf(lake, code, i, n)
  {
    assert Window(lake, i)[0] == lake[i + 1];
    if i + n < |lake| {
      assert Window(lake, i)[n - 1] == lake[i + n];
    }
  }

  // ---------- a growing lake ----------

  lemma PositionStays(lake: Lake, later: Lake, date: DateText)
    requires lake <= later && OnCalendar(lake, date)
    ensures OnCalendar(later, date) && Position(later, date) == Position(lake, date)
  {
    var i := Position(lake, date);
    assert later[i].day == date.day;
    var j := Position(later, date);
    assert j <= i;
    assert lake[j].day == date.day;
  }

  /** A matured card reads the same status and the same gap from every later lake. */
  lemma MaturedStays(card: Card, lake: Lake, later: Lake)
    requires lake <= later && Reading(card, lake).0 == Matured
    ensures Reading(card, later).0 == Matured && Reading(card, later).1.gap == Reading(card, lake).1.gap
  {
    hide MarketReturns;
    StatusIs(card, lake);
    PositionStays(lake, later, card.date.value);
    var i := Position(lake, card.date.value);
    assert later[i + 1] == lake[i + 1] && later[i + 2] == lake[i + 2];
    StatusIs(card, later);
    ReturnsAre(card, lake);
    ReturnsAre(card, later);
  }

  // ---------- final statuses ----------

  /** No later lake gives the card another status. */
  ghost predicate StatusIsFinal(card: Card, lake: Lake) {
    forall later | Extends(lake, later) :: Reading(card, later).0 == Reading(card, lake).0
  }

  /** Nothing the lake can still gain matters: the card is not measurable, its date is no day, D+2 is in, D+1 is
      in without an open or without a close, or the lake has passed the date. */
  predicate Settled(card: Card, lake: Lake) {
    || card.code.None? || card.date.None?
    || if OnCalendar(lake, card.date.value) then
         var i := Position(lake, card.date.value);
         || i + 2 < |lake|
         || (i + 1 < |lake| && !(HasOpen(lake[i + 1].bars) && HasClose(lake[i + 1].bars)))
       else card.date.value.NotADay? || (lake != [] && card.date.value.day < lake[|lake| - 1].day)
  }

  lemma SettledStays(card: Card, lake: Lake, later: Lake)
    requires Settled(card, lake) && Extends(lake, later)
    ensures StatusOf(card, later) == StatusOf(card, lake)
  {
    if card.code.Some? && card.date.Some? {
      var date := card.date.value;
      if OnCalendar(lake, date) {
        PositionStays(lake, later, date);
      }
    }
  }

  /** One more day, on which just this code was traded. */
  function Traded(lake: Lake, code: Code): (later: Lake)
    requires Sorted(lake) && lake != []
    ensures Extends(lake, later) && |later| == |lake| + 1 && CloseOf(later[|lake|].bars, code) == Some(1.0)
    ensures OpenOf(later[|lake|].bars, code) == Some(1.0)
    ensures code in later[|lake|].bars
  {
    lake + [Session(lake[|lake| - 1].day + 1, map[code := Bar(Some(1.0), Some(1.0))])]
  }

  lemma OneDayMature(card: Card, lake: Lake) returns (later: Lake)
    requires Sorted(lake) && !Settled(card, lake) && OnCalendar(lake, card.date.value)
    requires Position(lake, card.date.value) + 2 == |lake|
    ensures Extends(lake, later) && StatusOf(card, later) != StatusOf(card, lake)
  {
    var i, code := Position(lake, card.date.value), card.code.value;
    later := Traded(lake, code);
    PositionStays(lake, later, card.date.value);
    assert code in later[i + 2].bars && HasOpen(later[i + 2].bars);
    assert later[i + 1] == lake[i + 1];
  }

  lemma TwoDaysMature(card: Card, lake: Lake) returns (later: Lake)
    requires Sorted(lake) && !Settled(card, lake) && OnCalendar(lake, card.date.value)
    requires Position(lake, card.date.value) + 1 == |lake|
    ensures Extends(lake, later) && StatusOf(card, later) != StatusOf(card, lake)
  {
    var i, code := Position(lake, card.date.value), card.code.value;
    var d1 := Traded(lake, code);
    later := Traded(d1, code);
    PositionStays(lake, later, card.date.value);
    assert later[i + 1] == d1[i + 1];
    assert HasOpen(later[i + 1].bars) && HasClose(later[i + 1].bars);
    assert code in later[i + 2].bars && HasOpen(later[i + 2].bars);
  }

  lemma UnsettledChanges(card: Card, lake: Lake) returns (later: Lake)
    requires Sorted(lake) && !Settled(card, lake)
    ensures Extends(lake, later) && StatusOf(card, later) != StatusOf(card, lake)
  {
    if !OnCalendar(lake, card.date.value) {
      later := lake + [Session(card.date.value.day, map[])];
      assert later[|lake|].day == card.date.value.day;
    } else if Position(lake, card.date.value) + 2 == |lake| {
      later := OneDayMature(card, lake);
    } else {
      later := TwoDaysMature(card, lake);
    }
  }

  /** So `PENDING_D2` is final when D+1 is in the lake without prices, and `NA_NON_TRADING_DAY` is not
      while the lake has not reached the date. */
  lemma StatusIsFinalExactlyWhenSettled(card: Card, lake: Lake)
    requires Sorted(lake)
    ensures StatusIsFinal(card, lake) <==> Settled(card, lake)
  {
    if Settled(card, lake) {
      forall later | Extends(lake, later) ensures Reading(card, later).0 == Reading(card, lake).0 {
        SettledStays(card, lake, later);
        StatusIs(card, lake);
        StatusIs(card, later);
      }
    } else {
      var later := UnsettledChanges(card, lake);
      StatusIs(card, lake);
      StatusIs(card, later);
    }
  }

  // ---------- final forward returns ----------

  /** `fwd_5`, `fwd_10` or `fwd_20` */
  function ForwardAt(r: Returns, n: nat): Option<real>
    requires n in {5, 10, 20}
  {
    if n == 5 then r.fwd5 else if n == 10 then r.fwd10 else r.fwd20
  }

  ghost predicate ForwardIsFinal(card: Card, lake: Lake, n: nat)
    requires n in {5, 10, 20}
  {
    forall later | Extends(lake, later) ::
      ForwardAt(Reading(card, later).1, n) == ForwardAt(Reading(card, lake).1, n)
  }

  /** Days on which just this code was traded, until the lake has m of them. */
  function Padded(lake: Lake, code: Code, m: nat): (later: Lake)
    requires Sorted(lake) && lake != [] && |lake| <= m
    ensures Extends(lake, later) && |later| == m
    ensures |lake| < m ==> CloseOf(later[m - 1].bars, code).Some?
    decreases m - |lake|
  {
    if |lake| == m then lake else Padded(Traded(lake, code), code, m)
  }

  lemma ForwardFrom(card: Card, lake: Lake, later: Lake, i: nat, n: nat)
    requires n in {5, 10, 20} && StatusOf(card, lake) == Matured && i == Position(lake, card.date.value)
    requires lake <= later
    ensures ForwardAt(Reading(card, later).1, n) == ForwardOf(later, card.code.value, i, n)
  {
    StatusIs(card, lake);
    MaturedStays(card, lake, later);
    StatusIs(card, later);
    PositionStays(lake, later, card.date.value);
    ReturnsAre(card, later);
  }

  lemma ForwardStays(card: Card, lake: Lake, later: Lake, i: nat, n: nat)
    requires n in {5, 10, 20} && StatusOf(card, lake) == Matured && i == Position(lake, card.date.value)
    requires lake <= later
    requires i + n < |lake| || OpenOf(lake[i + 1].bars, card.code.value).None?
    ensures ForwardAt(Reading(card, later).1, n) == ForwardAt(Reading(card, lake).1, n)
  {
    ForwardFrom(card, lake, later, i, n);
    ForwardFrom(card, lake, lake, i, n);
    assert later[i + 1] == lake[i + 1];
    assert i + n < |lake| ==> later[i + n] == lake[i + n];
  }

  lemma ForwardChanges(card: Card, lake: Lake, i: nat, n: nat)
    requires Sorted(lake)
    requires n in {5, 10, 20} && StatusOf(card, lake) == Matured && i == Position(lake, card.date.value)
    requires |lake| <= i + n && OpenOf(lake[i + 1].bars, card.code.value).Some?
    ensures !ForwardIsFinal(card, lake, n)
  {
    var later := Padded(lake, card.code.value, i + n + 1);
    ForwardFrom(card, lake, later, i, n);
    ForwardFrom(card, lake, lake, i, n);
    PaddedReads(lake, later, card.code.value, i, n);
  }

  lemma PaddedReads(lake: Lake, later: Lake, code: Code, i: nat, n: nat)
    requires lake <= later && i + 1 < |lake| <= i + n < |later|
    requires OpenOf(lake[i + 1].bars, code).Some? && CloseOf(later[i + n].bars, code).Some?
    ensures ForwardOf(lake, code, i, n).None? && ForwardOf(later, code, i, n).Some?
  {
    assert later[i + 1] == lake[i + 1];
  }

  /** A forward return is read once, when the card matures. What is read then is what any later lake
      would give exactly when D+n is already in, or the code did not open on D+1. */
  lemma ForwardIsFinalExactlyWhen(card: Card, lake: Lake, i: nat, n: nat)
    requires Sorted(lake) && n in {5, 10, 20}
    requires StatusOf(card, lake) == Matured && i == Position(lake, card.date.value)
    ensures ForwardIsFinal(card, lake, n) <==> i + n < |lake| || OpenOf(lake[i + 1].bars, card.code.value).None?
  {
    if i + n < |lake| || OpenOf(lake[i + 1].bars, card.code.value).None? {
      forall later | Extends(lake, later)
        ensures ForwardAt(Reading(card, later).1, n) == ForwardAt(Reading(card, lake).1, n)
      {
        ForwardStays(card, lake, later, i, n);
      }
    } else {
      ForwardChanges(card, lake, i, n);
    }
  }

  // ---------- runs ----------

  /** The ledger and the lake as the nights go by. */
  datatype State = State(cards: Cards, lake: Lake)

  /** `Grow` puts later trading days at the end of the lake. */
  datatype Event = Ingest(found: seq<Artifact>) | Fill | Grow(days: Lake)

  function Step(s: State, e: Event): State {
    match e
    case Ingest(found) => s.(cards := Ingested(s.cards, found))
    case Fill => s.(cards := FillCards(s.cards, s.lake))
    case Grow(days) => s.(lake := s.lake + days)
  }

  function Run(s: State, events: seq<Event>): State
    decreases |events|
  {
    if events == [] then s else Run(Step(s, events[0]), events[1..])
  }

  function WithoutFills(events: seq<Event>): seq<Event> {
    if events == [] then []
    else (if events[0].Fill? then [] else [events[0]]) + WithoutFills(events[1..])
  }

  /** Two rows report the same outcome: the same card, maturity, status and gap. */
  predicate Agree(a: Row, b: Row) {
    a.card == b.card && a.matured == b.matured && a.status == b.status && a.outcome.gap == b.outcome.gap
  }

  /** A row of the nightly ledger, against the same row never filled. */
  predicate RowFollows(row: Row, plain: Row, lake: Lake) {
    && row.card == plain.card && !plain.matured && plain.outcome == BLANK
    && (row.matured ==> Agree(row, FillRow(plain, lake)))
    && (!row.matured ==> row.outcome == BLANK)
  }

  predicate Follows(cards: Cards, plain: Cards, lake: Lake) {
    && cards.Keys == plain.Keys
    && forall key | key in cards :: RowFollows(cards[key], plain[key], lake)
  }

  lemma FillFollows(row: Row, plain: Row, lake: Lake)
    requires RowFollows(row, plain, lake)
    ensures RowFollows(FillRow(row, lake), plain, lake)
    ensures Agree(FillRow(row, lake), FillRow(plain, lake))
  {
  }

  lemma GrowFollows(row: Row, plain: Row, lake: Lake, later: Lake)
    requires RowFollows(row, plain, lake) && lake <= later
    ensures RowFollows(row, plain, later)
  {
    if row.matured {
      MaturedStays(plain.card, lake, later);
    }
  }

  lemma {:induction false} IngestFollows(cards: Cards, plain: Cards, lake: Lake, found: seq<Artifact>)
    requires Follows(cards, plain, lake)
    ensures Follows(Ingested(cards, found), Ingested(plain, found), lake)
    decreases |found|
  {
    if found != [] {
      IngestFollows(cards, plain, lake, found[..|found| - 1]);
    }
  }

  lemma StepFollows(s: State, t: State, e: Event)
    requires s.lake == t.lake && Follows(s.cards, t.cards, s.lake)
    ensures var s', t' := Step(s, e), if e.Fill? then t else Step(t, e);
            s'.lake == t'.lake && Follows(s'.cards, t'.cards, s'.lake)
  {
    match e
    case Ingest(found) =>
      IngestFollows(s.cards, t.cards, s.lake, found);
    case Fill =>
      forall key | key in s.cards
        ensures RowFollows(FillRow(s.cards[key], s.lake), t.cards[key], s.lake)
      {
        FillFollows(s.cards[key], t.cards[key], s.lake);
      }
    case Grow(days) =>
      forall key | key in s.cards ensures RowFollows(s.cards[key], t.cards[key], s.lake + days) {
        GrowFollows(s.cards[key], t.cards[key], s.lake, s.lake + days);
      }
  }

  lemma {:induction false} RunFollows(s: State, t: State, events: seq<Event>)
    requires s.lake == t.lake && Follows(s.cards, t.cards, s.lake)
    ensures var s', t' := Run(s, events), Run(t, WithoutFills(events));
            s'.lake == t'.lake && Follows(s'.cards, t'.cards, s'.lake)
    decreases |events|
  {
    if events != [] {
      var e, rest := events[0], events[1..];
      StepFollows(s, t, e);
      RunFollows(Step(s, e), if e.Fill? then t else Step(t, e), rest);
      if !e.Fill? {
        assert WithoutFills(events)[0] == e && WithoutFills(events)[1..] == WithoutFills(rest);
      } else {
        assert WithoutFills(events) == WithoutFills(rest);
      }
    }
  }

  /** However ingests, fills and new trading days interleave, a last fill leaves every row with the
      maturity, the status and the gap that one single fill on the final lake gives it. */
  lemma NightlyFillsAreOneFill(lake: Lake, events: seq<Event>)
    ensures var nightly := Step(Run(State(map[], lake), events), Fill).cards;
            var once := Step(Run(State(map[], lake), WithoutFills(events)), Fill).cards;
            nightly.Keys == once.Keys && forall key | key in nightly :: Agree(nightly[key], once[key])
  {
    var s, t := Run(State(map[], lake), events), Run(State(map[], lake), WithoutFills(events));
    RunFollows(State(map[], lake), State(map[], lake), events);
    forall key | key in s.cards ensures Agree(FillRow(s.cards[key], s.lake), FillRow(t.cards[key], s.lake)) {
      FillFollows(s.cards[key], t.cards[key], s.lake);
    }
  }

  /** A matured row never changes again, forward returns included. */
  lemma {:induction false} MaturedRowsNeverChange(s: State, events: seq<Event>, key: Key)
    requires key in s.cards && s.cards[key].matured
    ensures key in Run(s, events).cards && Run(s, events).cards[key] == s.cards[key]
    decreases |events|
  {
    if events != [] {
      if events[0].Ingest? {
        IngestOnlyAdds(s.cards, events[0].found);
      }
      MaturedRowsNeverChange(Step(s, events[0]), events[1..], key);
    }
  }

  lemma {:induction false} RunLake(s: State, events: seq<Event>)
    ensures s.lake <= Run(s, events).lake
    decreases |events|
  {
    if events != [] {
      RunLake(Step(s, events[0]), events[1..]);
    }
  }

  lemma ForwardsAgree(lake: Lake, later: Lake, code: Code, i: nat, n: nat)
    requires lake <= later && i + 1 < |lake|
    ensures ForwardOf(lake, code, i, n) == ForwardOf(later, code, i, n)
        <==> i + n < |lake| || ForwardOf(later, code, i, n).None?
  {
    assert later[i + 1] == lake[i + 1];
    assert i + n < |lake| ==> later[i + n] == lake[i + n];
  }

  /** A full card that matures tonight reports, after any later run, the forward return that one fill on the final
      lake would give it if and only if D+n is already in tonight, or the final lake gives it none. */
  lemma NightlyForwardAgreesExactlyWhen(s: State, events: seq<Event>, key: Key, n: nat)
    requires key in s.cards && s.cards[key].card.full && n in {5, 10, 20}
    requires !s.cards[key].matured && StatusOf(s.cards[key].card, s.lake) == Matured
    ensures var card, t := s.cards[key].card, Run(Step(s, Fill), events);
            var i := Position(s.lake, card.date.value);
            key in t.cards && i + 2 < |t.lake|
            && (ForwardAt(t.cards[key].outcome, n) == ForwardAt(FillRow(s.cards[key], t.lake).outcome, n)
                <==> i + n < |s.lake| || ForwardOf(t.lake, card.code.value, i, n).None?)
  {
    var card, t := s.cards[key].card, Run(Step(s, Fill), events);
    var i := Position(s.lake, card.date.value);
    StatusIs(card, s.lake);
    MaturedRowsNeverChange(Step(s, Fill), events, key);
    RunLake(Step(s, Fill), events);
    MaturedStays(card, s.lake, t.lake);
    ForwardFrom(card, s.lake, s.lake, i, n);
    ForwardFrom(card, s.lake, t.lake, i, n);
    ForwardsAgree(s.lake, t.lake, card.code.value, i, n);
  }

  // ---------- what a fill writes ----------

  /** A filled row: a matured one stays as it is; another one gets its status, and when that is matured the gap, and
      only a full card the three forward returns. The card stays as it is. */
  lemma FilledRowIs(row: Row, lake: Lake)
    ensures var after := FillRow(row, lake);
            && after.card == row.card
            && (row.matured ==> after == row)
            && (!row.matured ==> after.status == StatusOf(row.card, lake)
                                 && (after.matured <==> after.status == Matured))
            && (!row.matured && after.status != Matured ==> after.outcome == row.outcome)
            && (!row.matured && after.status == Matured ==>
                  var i, code := Position(lake, row.card.date.value), row.card.code.value;
                  && after.outcome.gap == Return(OpenOf(lake[i + 2].bars, code), CloseOf(lake[i + 1].bars, code))
                  && after.outcome.fwd5 == (if row.card.full then ForwardOf(lake, code, i, 5) else None)
                  && after.outcome.fwd10 == (if row.card.full then ForwardOf(lake, code, i, 10) else None)
                  && after.outcome.fwd20 == (if row.card.full then ForwardOf(lake, code, i, 20) else None))
  {
    hide MarketReturns, Reading;
    StatusIs(row.card, lake);
    if StatusOf(row.card, lake) == Matured {
      ReturnsAre(row.card, lake);
    }
  }
}
