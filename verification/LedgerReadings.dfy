/** What one fill writes into a row of the ledger (autoresearch/analyze/ledger.py, `fill`), read off the bars of the
    lake: for every card and every lake one answer. */
module LedgerReadings {
  import opened Wrappers
  import opened OutcomeLedger
  import opened LedgerRuns

  /** Some code has an opening price on the k-th day of the lake, or a closing price. */
  predicate SomeOpen(lake: Lake, k: nat)
    requires k < |lake|
  {
    exists c :: c in lake[k].bars && lake[k].bars[c].open != None
  }

  predicate SomeClose(lake: Lake, k: nat)
    requires k < |lake|
  {
    exists c :: c in lake[k].bars && lake[k].bars[c].close != None
  }

  /** The code itself has one on that day. */
  predicate Opens(lake: Lake, k: nat, code: Code) {
    k < |lake| && code in lake[k].bars && lake[k].bars[code].open != None
  }

  predicate Closes(lake: Lake, k: nat, code: Code) {
    k < |lake| && code in lake[k].bars && lake[k].bars[code].close != None
  }

  function OpenAt(lake: Lake, k: nat, code: Code): real
    requires Opens(lake, k, code)
  {
    lake[k].bars[code].open.value
  }

  function CloseAt(lake: Lake, k: nat, code: Code): (price: real)
    requires Closes(lake, k, code)
  {
    lake[k].bars[code].close.value
  }

  lemma PositionIs(lake: Lake, i: nat)
    requires Sorted(lake) && i < |lake|
    ensures OnCalendar(lake, OnDay(lake[i].day)) && Position(lake, OnDay(lake[i].day)) == i
  {
    var j := Position(lake, OnDay(lake[i].day));
    assert !(i < j) && !(j < i);
  }

  /** A card that names no code, no date, or a date that is no day of the lake. */
  lemma UnmeasurableCards(row: Row, lake: Lake)
    requires !row.matured
    ensures row.card.code == None ==> FillRow(row, lake) == row.(status := NaMarket)
    ensures row.card.code != None && row.card.date == None ==> FillRow(row, lake) == row.(status := NaNonTradingDay)
    ensures row.card.code != None && row.card.date != None
            && (row.card.date.value.NotADay? || forall i | 0 <= i < |lake| :: lake[i].day != row.card.date.value.day)
            ==> FillRow(row, lake) == row.(status := NaNonTradingDay)
  {
  }

  /** A card of the i-th day: it waits until the two days after it are in with prices; it matures when its code closed
      on the first and opened on the second; otherwise the lake has no row for it. */
  lemma CardsOfADay(row: Row, lake: Lake, i: nat)
    requires !row.matured && Sorted(lake) && i < |lake| && row.card.code != None
    requires row.card.date == Some(OnDay(lake[i].day))
    ensures var after, code := FillRow(row, lake), row.card.code.value;
            if i + 2 >= |lake| || !SomeOpen(lake, i + 1) || !SomeClose(lake, i + 1) || !SomeOpen(lake, i + 2)
            then after == row.(status := PendingD2)
            else if Closes(lake, i + 1, code) && Opens(lake, i + 2, code)
            then after.matured && after.status == Matured && after.card == row.card
            else after == row.(status := NaNoLakeRow)
  {
    hide MarketReturns, Reading;
    PositionIs(lake, i);
    StatusIs(row.card, lake);
    var after := FillRow(row, lake);
    FilledRowIs(row, lake);
    if i + 2 < |lake| {
      SomePrices(lake, i + 1);
      SomePrices(lake, i + 2);
      GapIs(lake, row.card.code.value, i);
    }
    assert after.status != Matured ==> after == row.(status := after.status) by { OnlyStatus(row, lake); }
  }

  lemma OnlyStatus(row: Row, lake: Lake)
    requires !row.matured
    ensures FillRow(row, lake).status != Matured ==> FillRow(row, lake) == row.(status := FillRow(row, lake).status)
  {
    hide Reading;
  }

  lemma SomePrices(lake: Lake, k: nat)
    requires k < |lake|
    ensures SomeOpen(lake, k) <==> HasOpen(lake[k].bars)
    ensures SomeClose(lake, k) <==> HasClose(lake[k].bars)
  {
  }

  lemma GapIs(lake: Lake, code: Code, i: nat)
    requires i + 2 < |lake|
    ensures HasGap(lake, code, i) <==> Closes(lake, i + 1, code) && Opens(lake, i + 2, code)
  {
  }

  /** The gap is the second day's open over the first day's close. */
  lemma GapOfADay(row: Row, lake: Lake, i: nat)
    requires !row.matured && Sorted(lake) && i < |lake| && row.card.code != None
    requires row.card.date == Some(OnDay(lake[i].day)) && FillRow(row, lake).matured
    ensures var code := row.card.code.value;
            && Closes(lake, i + 1, code) && Opens(lake, i + 2, code) && CloseAt(lake, i + 1, code) > 0.0
            && FillRow(row, lake).outcome.gap
               == Some(OpenAt(lake, i + 2, code) / CloseAt(lake, i + 1, code) - 1.0)
  {
    hide MarketReturns, Reading;
    PositionIs(lake, i);
    FilledRowIs(row, lake);
  }

  /** The forward return over n days is the n-th day's close over the first day's open, for full cards, and blank where
      one of the prices is missing. */
  lemma ForwardOfADay(row: Row, lake: Lake, i: nat, n: nat)
    requires !row.matured && Sorted(lake) && i < |lake| && row.card.code != None && n in {5, 10, 20}
    requires row.card.date == Some(OnDay(lake[i].day)) && FillRow(row, lake).matured
    ensures var code, outcome := row.card.code.value, FillRow(row, lake).outcome;
            var forward := if n == 5 then outcome.fwd5 else if n == 10 then outcome.fwd10 else outcome.fwd20;
            if row.card.full && Opens(lake, i + 1, code) && Closes(lake, i + n, code)
            then && OpenAt(lake, i + 1, code) > 0.0
                 && forward == Some(CloseAt(lake, i + n, code) / OpenAt(lake, i + 1, code) - 1.0)
            else forward == None
  {
    hide MarketReturns, Reading;
    PositionIs(lake, i);
    FilledRowIs(row, lake);
  }

  /** A row that is there stays, and one that comes in is blank. */
  lemma NewRowsAreBlank(cards: Cards, found: seq<Artifact>, key: Key)
    requires key in Ingested(cards, found) && key !in cards
    ensures var row := Ingested(cards, found)[key];
            !row.matured && row.status == Unfilled && row.outcome == Returns(None, None, None, None)
  {
    IngestOnlyAdds(cards, found);
    var i: nat :| FirstCard(found, key, i);
  }
}
