/** The outcome ledger (autoresearch/analyze/ledger.py): cards are ingested once, and a nightly fill
    reads their market outcome from a lake that gains one trading day after another. */
module OutcomeLedger {
  import opened Wrappers

  type Day = nat
  type Code = string
  type Key = (string, string)
  type Price = x: real | 0.0 < x witness 1.0

  datatype Bar = Bar(open: Option<Price>, close: Option<Price>)
  type Bars = map<Code, Bar>

  /** One trading day of the lake. A day whose file is empty or unreadable has no bars. */
  datatype Session = Session(day: Day, bars: Bars)
  type Lake = seq<Session>

  datatype Status = Unfilled | Matured | PendingD2 | NaNonTradingDay | NaMarket | NaNoLakeRow

  /** The text of an analysis date, without its dashes: the digits of some day, or text no trading day can have. */
  datatype DateText = OnDay(day: Day) | NotADay(text: string)

  /** What a card says about itself; `code` is `None` when no six-digit code can be read from its ticker
      and `date` when it carries no analysis date. */
  datatype Card = Card(full: bool, code: Option<Code>, date: Option<DateText>)

  datatype Row = Row(card: Card, matured: bool, status: Status, outcome: Returns)

  /** Returns read from the lake; `None` is a blank cell. */
  datatype Returns = Returns(gap: Option<real>, fwd5: Option<real>, fwd10: Option<real>, fwd20: Option<real>)

  const BLANK := Returns(None, None, None, None)

  type Cards = map<Key, Row>

  function BlankRow(card: Card): Row { Row(card, false, Unfilled, BLANK) }

  predicate Sorted(lake: Lake) {
    forall i, j | 0 <= i < j < |lake| :: lake[i].day < lake[j].day
  }

  /** A lake that only gained later days. */
  predicate Extends(lake: Lake, later: Lake) { lake <= later && Sorted(later) }

  // ---------- market returns ----------

  predicate OnCalendar(lake: Lake, date: DateText) {
    date.OnDay? && exists i :: 0 <= i < |lake| && lake[i].day == date.day
  }

  function Position(lake: Lake, date: DateText): (i: nat)
    requires OnCalendar(lake, date)
    ensures i < |lake| && lake[i].day == date.day
    ensures forall j | 0 <= j < i :: lake[j].day != date.day
  {
    if lake[0].day == date.day then 0
    else
      assert forall i | 1 <= i < |lake| :: lake[i] == lake[1..][i - 1];
      1 + Position(lake[1..], date)
  }

  predicate HasOpen(bars: Bars) { exists code :: code in bars && bars[code].open.Some? }

  predicate HasClose(bars: Bars) { exists code :: code in bars && bars[code].close.Some? }

  function OpenOf(bars: Bars, code: Code): Option<Price> {
    if code in bars then bars[code].open else None
  }

  function CloseOf(bars: Bars, code: Code): Option<Price> {
    if code in bars then bars[code].close else None
  }

  function Return(to: Option<Price>, from: Option<Price>): Option<real> {
    if to.Some? && from.Some? then Some(to.value / from.value - 1.0) else None
  }

  /** The twenty days after the analysis date, or as many as the lake has. */
  function Window(lake: Lake, i: nat): seq<Session>
    requires i < |lake|
  {
    lake[i + 1..if |lake| < i + 21 then |lake| else i + 21]
  }

  /** The codes with an opening price somewhere in the window. */
  function Listed(window: seq<Session>): set<Code> {
    if window == [] then {}
    else (set code | code in window[0].bars && window[0].bars[code].open.Some?) + Listed(window[1..])
  }

  /** Close of the n-th day of the window over the open of its first. */
  function Forward(window: seq<Session>, code: Code, n: nat): Option<real>
    requires window != [] && n > 0
  {
    if n <= |window| then Return(CloseOf(window[n - 1].bars, code), OpenOf(window[0].bars, code)) else None
  }

  function ReturnsOf(window: seq<Session>, code: Code): Returns
    requires |window| >= 2
  {
    Returns(Return(OpenOf(window[1].bars, code), CloseOf(window[0].bars, code)),
            Forward(window, code, 5), Forward(window, code, 10), Forward(window, code, 20))
  }

  datatype Market = NoFrame(status: Status) | Frame(rows: map<Code, Returns>)

  /** `_market_returns` */
  function MarketReturns(lake: Lake, date: DateText): Market {
    if !OnCalendar(lake, date) then NoFrame(NaNonTradingDay)
    else
      var i := Position(lake, date);
      if i + 2 >= |lake| then NoFrame(PendingD2)
      else
        var window := Window(lake, i);
        if !HasOpen(window[0].bars) || !HasClose(window[0].bars) || !HasOpen(window[1].bars) then NoFrame(PendingD2)
        else Frame(map code | code in Listed(window) :: ReturnsOf(window, code))
  }

  // ---------- one row ----------

  /** The status and the returns a fill reads for a card. */
  function Reading(card: Card, lake: Lake): (Status, Returns) {
    if card.code.None? then (NaMarket, BLANK)
    else if card.date.None? then (NaNonTradingDay, BLANK)
    else
      match MarketReturns(lake, card.date.value)
      case NoFrame(status) => (status, BLANK)
      case Frame(rows) =>
        if card.code.value !in rows || rows[card.code.value].gap.None? then (NaNoLakeRow, BLANK)
        else (Matured, rows[card.code.value])
  }

  function Kept(full: bool, r: Returns): Returns {
    if full then r else Returns(r.gap, None, None, None)
  }

  /** A fill of one row. */
  function FillRow(row: Row, lake: Lake): Row {
    if row.matured then row
    else
      var (status, r) := Reading(row.card, lake);
      if status == Matured then Row(row.card, true, Matured, Kept(row.card.full, r))
      else row.(status := status)
  }

  function FillCards(cards: Cards, lake: Lake): Cards {
    map key | key in cards :: FillRow(cards[key], lake)
  }

  // ---------- the ledger ----------

  /** A scanned file with the card read from it, if one could be read. */
  datatype Artifact = Artifact(key: Key, card: Option<Card>)

  function Ingested(cards: Cards, found: seq<Artifact>): Cards {
    if found == [] then cards
    else
      var last := found[|found| - 1];
      var before := Ingested(cards, found[..|found| - 1]);
      if last.card.Some? && last.key !in before then before[last.key := BlankRow(last.card.value)] else before
  }

  /** The first scanned file under a key from which a card could be read. */
  predicate FirstCard(found: seq<Artifact>, key: Key, i: nat) {
    && i < |found| && found[i].key == key && found[i].card.Some?
    && forall j | 0 <= j < i :: found[j].key == key ==> found[j].card.None?
  }

  /** Ingesting only adds: it never touches a row that is there, and a new key takes the first card
      read for it. */
  lemma {:induction false} IngestOnlyAdds(cards: Cards, found: seq<Artifact>)
    ensures forall key | key in cards :: key in Ingested(cards, found) && Ingested(cards, found)[key] == cards[key]
    ensures forall a | a in found && a.card.Some? :: a.key in Ingested(cards, found)
    ensures forall key, i: nat | key !in cards && FirstCard(found, key, i) ::
              key in Ingested(cards, found) && Ingested(cards, found)[key] == BlankRow(found[i].card.value)
    ensures forall key | key in Ingested(cards, found) && key !in cards :: exists i: nat :: FirstCard(found, key, i)
    decreases |found|
  {
    if found != [] {
      var n := |found| - 1;
      var before := found[..n];
      IngestOnlyAdds(cards, before);
      assert found == before + [found[n]];
      forall key, i: nat | key !in cards && FirstCard(found, key, i)
        ensures key in Ingested(cards, found) && Ingested(cards, found)[key] == BlankRow(found[i].card.value)
      {
        if i < n {
          assert FirstCard(before, key, i);
        } else {
          forall j: nat ensures !FirstCard(before, key, j) {
            if j < n {
              assert before[j] == found[j];
            }
          }
        }
      }
      forall key | key in Ingested(cards, found) && key !in cards ensures exists i: nat :: FirstCard(found, key, i) {
        if key in Ingested(cards, before) {
          var i: nat :| FirstCard(before, key, i);
          assert FirstCard(found, key, i);
        } else {
          forall j | 0 <= j < n && found[j].key == key ensures found[j].card.None? {
            assert found[j] in before;
          }
          assert FirstCard(found, key, n);
        }
      }
    }
  }

  /** What a fill reports about a row: it matured now, it is still unmatured, or it is unmatured for a
      given reason. */
  datatype Report = MaturedNow | Unmatured | Because(status: Status)

  predicate Reports(before: Row, after: Row, report: Report) {
    match report
    case MaturedNow => after.matured && !before.matured
    case Unmatured => !after.matured
    case Because(status) => !after.matured && after.status == status
  }

  function Reported(before: Cards, after: Cards, done: set<Key>, report: Report): set<Key> {
    set key | key in done && key in before && key in after && Reports(before[key], after[key], report)
  }

  datatype Counters = Counters(filled: nat, skipped: nat, reasons: map<Status, nat>)

  function Tally(reasons: map<Status, nat>, status: Status): nat {
    if status in reasons then reasons[status] else 0
  }

  /** The counters after one more row. */
  function Recount(c: Counters, before: Row, after: Row): Counters {
    if after.matured then (if before.matured then c else c.(filled := c.filled + 1))
    else Counters(c.filled, c.skipped + 1, c.reasons[after.status := Tally(c.reasons, after.status) + 1])
  }

  /** The counters of a fill that has dealt with `done`. */
  ghost predicate Counted(before: Cards, after: Cards, done: set<Key>, c: Counters) {
    && c.filled == |Reported(before, after, done, MaturedNow)|
    && c.skipped == |Reported(before, after, done, Unmatured)|
    && forall status :: Tally(c.reasons, status) == |Reported(before, after, done, Because(status))|
  }

  lemma NothingCounted(cards: Cards)
    ensures Counted(cards, cards, {}, Counters(0, 0, map[]))
  {
    forall report ensures Reported(cards, cards, {}, report) == {} {
    }
  }

  lemma ReportedOneMore(before: Cards, was: Cards, rows: Cards, done: set<Key>, key: Key, report: Report)
    requires key !in done && key in before && key in rows && rows == was[key := rows[key]]
    ensures Reported(before, rows, done + {key}, report)
         == Reported(before, was, done, report) + if Reports(before[key], rows[key], report) then {key} else {}
  {
    hide Reports;
    assert forall k | k in done :: (k in rows <==> k in was) && (k in rows ==> rows[k] == was[k]);
  }

  lemma ReportMoves(before: Cards, was: Cards, rows: Cards, done: set<Key>, key: Key, report: Report)
    requires key !in done && key in before && key in rows && rows == was[key := rows[key]]
    ensures |Reported(before, rows, done + {key}, report)|
         == |Reported(before, was, done, report)| + if Reports(before[key], rows[key], report) then 1 else 0
  {
    hide Reports;
    ReportedOneMore(before, was, rows, done, key, report);
    assert key !in Reported(before, was, done, report);
  }

  predicate PartlyFilled(before: Cards, rows: Cards, target: Cards, done: set<Key>) {
    && rows.Keys == before.Keys == target.Keys
    && forall key | key in before :: rows[key] == if key in done then target[key] else before[key]
  }

  lemma OneMoreFilled(before: Cards, rows: Cards, target: Cards, done: set<Key>, key: Key, rows': Cards)
    requires PartlyFilled(before, rows, target, done) && key in before && key !in done
    requires rows' == rows[key := target[key]]
    ensures PartlyFilled(before, rows', target, done + {key})
  {
  }

  /** What one more row does to the counters. */
  lemma CountsMove(before: Cards, was: Cards, rows: Cards, done: set<Key>, key: Key, c: Counters)
    requires key !in done && key in before && key in rows && rows == was[key := rows[key]]
    requires Counted(before, was, done, c)
    ensures Counted(before, rows, done + {key}, Recount(c, before[key], rows[key]))
  {
    ReportMoves(before, was, rows, done, key, MaturedNow);
    ReportMoves(before, was, rows, done, key, Unmatured);
    var reasons := Recount(c, before[key], rows[key]).reasons;
    forall status ensures Tally(reasons, status) == |Reported(before, rows, done + {key}, Because(status))| {
      ReportMoves(before, was, rows, done, key, Because(status));
    }
  }

  class Ledger {
    var cards: Cards

    constructor ()
      ensures cards == map[]
    {
      cards := map[];
    }

    /** `ingest` */
    method Ingest(found: seq<Artifact>) returns (scanned: nat, added: nat)
      modifies this
      ensures cards == Ingested(old(cards), found)
      ensures scanned == |found| && |cards| == |old(cards)| + added
    {
      var existing := cards;
      scanned, added := 0, 0;
      while scanned < |found|
        invariant 0 <= scanned <= |found|
        invariant existing == Ingested(old(cards), found[..scanned])
        invariant |existing| == |old(cards)| + added
        invariant cards == old(cards)
      {
        var a := found[scanned];
        assert found[..scanned + 1] == found[..scanned] + [a];
        scanned := scanned + 1;
        if a.card.Some? && a.key !in existing {
          existing := existing[a.key := BlankRow(a.card.value)];
          added := added + 1;
        }
      }
      assert found[..scanned] == found;
      cards := existing;
    }

    /** One row of a fill. Market returns are computed once for each analysis date. */
    method FillOne(row: Row, lake: Lake, cache: map<DateText, Market>)
      returns (row': Row, cache': map<DateText, Market>)
      requires !row.matured
      requires forall date | date in cache :: cache[date] == MarketReturns(lake, date)
      ensures forall date | date in cache' :: cache'[date] == MarketReturns(lake, date)
      ensures row' == FillRow(row, lake)
    {
      cache' := cache;
      if row.card.code.None? {
        return row.(status := NaMarket), cache';
      }
      if row.card.date.None? {
        return row.(status := NaNonTradingDay), cache';
      }
      var code, date := row.card.code.value, row.card.date.value;
      if date !in cache' {
        cache' := cache'[date := MarketReturns(lake, date)];
      }
      match cache'[date] {
        case NoFrame(why) =>
          return row.(status := why), cache';
        case Frame(rows) =>
          if code !in rows || rows[code].gap.None? {
            return row.(status := NaNoLakeRow), cache';
          }
          return Row(row.card, true, Matured, Kept(row.card.full, rows[code])), cache';
      }
    }

    /** `fill` */
    method Fill(lake: Lake) returns (counters: Counters)
      modifies this
      ensures cards == FillCards(old(cards), lake)
      ensures Counted(old(cards), cards, cards.Keys, counters)
    {
      hide Counted, Recount, MarketReturns, Reading;
      var before := cards;
      ghost var target, done: set<Key> := FillCards(before, lake), {};
      var rows, todo := before, before.Keys;
      var cache: map<DateText, Market> := map[];
      counters := Counters(0, 0, map[]);
      NothingCounted(before);
      while todo != {}
        invariant todo !! done && todo + done == before.Keys
        invariant PartlyFilled(before, rows, target, done)
        invariant forall date | date in cache :: cache[date] == MarketReturns(lake, date)
        invariant Counted(before, rows, done, counters)
        decreases |todo|
      {
        var key :| key in todo;
        var was := rows[key];
        var row := was;
        todo := todo - {key};
        if !was.matured {
          row, cache := FillOne(was, lake, cache);
        }
        ghost var rows0 := rows;
        rows := rows[key := row];
        OneMoreFilled(before, rows0, target, done, key, rows);
        CountsMove(before, rows0, rows, done, key, counters);
        counters := Recount(counters, was, row);
        done := done + {key};
      }
      assert rows == target && done == rows.Keys;
      cards := rows;
    }
  }
}
