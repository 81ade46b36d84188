/** The merge as a deterministic rebuild (autoresearch/broker/store.py, `merge`): the raw rows decide every row of
    `trades.csv` and its place, whatever order the sources are read in. */
module MergeRebuild {
  import opened Strings
  import opened BrokerSchema
  import opened RawStore
  import opened BrokerMerge
  import opened StableSort

  /** Each source has the same rows in the same order; how they lie between each other's does not matter. */
  ghost predicate SameBySource(rows: seq<Row>, other: seq<Row>) {
    forall source :: OfSource(rows, source) == OfSource(other, source)
  }

  // ---------- groups ----------

  lemma OfKeyOneMore(rows: seq<Row>, last: Row, key: string)
    ensures OfKey(WithKeys(rows + [last]), key)
         == OfKey(WithKeys(rows), key) + if MergeKey(last) == key then [last] else []
  {
    var all := WithKeys(rows + [last]);
    assert all[..|rows|] == WithKeys(rows) && all[|rows|] == Keyed(MergeKey(last), last);
  }

  lemma OfSourceOneMore(rows: seq<Row>, last: Row, source: string)
    ensures OfSource(rows + [last], source) == OfSource(rows, source) + if Kind(last) == source then [last] else []
  {
    assert (rows + [last])[..|rows|] == rows;
  }

  /** A source's rows of a group are the group of the source's rows. */
  lemma {:induction false} SourceOfGroup(rows: seq<Row>, key: string, source: string)
    ensures OfSource(OfKey(WithKeys(rows), key), source) == OfKey(WithKeys(OfSource(rows, source)), key)
    decreases |rows|
  {
    if rows != [] {
      var rest, last := rows[..|rows| - 1], rows[|rows| - 1];
      var group, own := OfKey(WithKeys(rest), key), OfSource(rest, source);
      assert rows == rest + [last] && group + [] == group && own + [] == own;
      SourceOfGroup(rest, key, source);
      hide OfKey, OfSource, WithKeys;
      OfKeyOneMore(rest, last, key);
      OfSourceOneMore(rest, last, source);
      OfSourceOneMore(group, last, source);
      OfKeyOneMore(own, last, key);
      assert OfSource(group, source) + [] == OfSource(group, source);
    }
  }

  lemma SameGroups(rows: seq<Row>, other: seq<Row>, key: string)
    requires SameBySource(rows, other)
    ensures SameBySource(OfKey(WithKeys(rows), key), OfKey(WithKeys(other), key))
  {
    forall source
      ensures OfSource(OfKey(WithKeys(rows), key), source) == OfSource(OfKey(WithKeys(other), key), source)
    {
      SourceOfGroup(rows, key, source);
      SourceOfGroup(other, key, source);
    }
  }

  lemma SameSources(group: seq<Row>, other: seq<Row>)
    requires SameBySource(group, other)
    ensures Sources(group) == Sources(other)
  {
    SourcesAreBestFirst(group);
    SourcesAreBestFirst(other);
    SourcesAreOrdered();
    forall s ensures s in Sources(group) <==> s in Sources(other) {
      SomeRowOf(group, s);
      SomeRowOf(other, s);
    }
    AscendingIsUnique(Sources(group), Sources(other), SourceBefore);
  }

  lemma SomeRowOf(group: seq<Row>, source: string)
    ensures source in Sources(group) <==> OfSource(group, source) != []
  {
    SourcesAreBestFirst(group);
    OfSourceHolds(group, source);
    if OfSource(group, source) != [] {
      assert OfSource(group, source)[0] in OfSource(group, source);
    }
  }

  lemma {:induction false} SameLayers(group: seq<Row>, other: seq<Row>, order: seq<string>, i: nat)
    requires SameBySource(group, other)
    ensures Layer(group, order, i) == Layer(other, order, i) && Depth(group, order) == Depth(other, order)
    decreases |order|
  {
    if order != [] {
      assert From(group, order[0]) == From(other, order[0]);
      SameLayers(group, other, order[1..], i);
    }
  }

  lemma {:induction false} SameTrades(key: string, group: seq<Row>, other: seq<Row>, order: seq<string>, n: nat)
    requires SameBySource(group, other) && n <= Depth(group, order) && n <= Depth(other, order)
    ensures GroupTrades(key, group, order, n) == GroupTrades(key, other, order, n)
  {
    hide Merged;
    if n > 0 {
      SameTrades(key, group, other, order, n - 1);
      LastGroupTrade(key, group, order, n);
      LastGroupTrade(key, other, order, n);
      SameLayers(group, other, order, n - 1);
    }
  }

  lemma SameGroupSameTrades(key: string, group: seq<Row>, other: seq<Row>)
    requires SameBySource(group, other)
    ensures TradesOfGroup(key, group) == TradesOfGroup(key, other)
  {
    SameSources(group, other);
    SameLayers(group, other, Sources(group), 0);
    SameTrades(key, group, other, Sources(group), Depth(group, Sources(group)));
  }

  // ---------- all trades ----------

  lemma {:induction false} CountOfKey(trades: seq<Trade>, t: Trade)
    ensures multiset(trades)[t] == multiset(TradesOf(trades, t.nk))[t]
    decreases |trades|
  {
    if trades != [] {
      var n := |trades| - 1;
      CountOfKey(trades[..n], t);
      assert trades == trades[..n] + [trades[n]];
    }
  }

  /** Ties of the order of the groups are trades of one key. */
  lemma {:induction false} TiedIsOfKey(trades: seq<Trade>, t: Trade)
    ensures TiedWith(trades, t, KeyBefore) == TradesOf(trades, t.nk)
    decreases |trades|
  {
    if trades != [] {
      var n := |trades| - 1;
      TiedIsOfKey(trades[..n], t);
      StringLessTotal(trades[n].nk, t.nk);
      StringLessIrreflexive(t.nk);
    }
  }

  lemma KeyIsAnOrder()
    ensures WeakOrder(KeyBefore)
  {
    forall a: Trade, b: Trade | KeyBefore(a, b) ensures !KeyBefore(b, a) {
      StringLessIrreflexive(a.nk);
      if KeyBefore(b, a) {
        StringLessTransitive(a.nk, b.nk, a.nk);
      }
    }
    forall a: Trade, b: Trade, c: Trade | !KeyBefore(a, b) && !KeyBefore(b, c) ensures !KeyBefore(a, c) {
      StringLessTotal(a.nk, b.nk);
      StringLessTotal(b.nk, c.nk);
      if KeyBefore(a, c) && b.nk != a.nk {
        StringLessTransitive(b.nk, a.nk, c.nk);
      }
    }
  }

  /** The groups by key are one list. */
  lemma BuiltIsUnique(a: seq<Trade>, b: seq<Trade>)
    requires InOrder(a, KeyBefore) && InOrder(b, KeyBefore) && forall key :: TradesOf(a, key) == TradesOf(b, key)
    ensures a == b
  {
    KeyIsAnOrder();
    forall t ensures multiset(a)[t] == multiset(b)[t] {
      CountOfKey(a, t);
      CountOfKey(b, t);
    }
    assert multiset(a) == multiset(b);
    forall t ensures TiedWith(a, t, KeyBefore) == TiedWith(b, t, KeyBefore) {
      TiedIsOfKey(a, t);
      TiedIsOfKey(b, t);
    }
    SortedAlike(a, b, KeyBefore);
  }

  /** Raw rows that agree source by source give one `trades.csv`, row by row. */
  lemma MergeIgnoresTheOrderOfSources(trades: seq<Trade>, built: seq<Trade>, rows: seq<Row>,
                                      trades': seq<Trade>, built': seq<Trade>, rows': seq<Row>)
    requires Merges(trades, built, rows) && Merges(trades', built', rows') && SameBySource(rows, rows')
    ensures trades == trades' && built == built'
  {
    hide TradesOfGroup, WeakOrder, StablySorted, InOrder;
    forall key ensures TradesOf(built, key) == TradesOf(built', key) {
      SameGroups(rows, rows', key);
      SameGroupSameTrades(key, OfKey(WithKeys(rows), key), OfKey(WithKeys(rows'), key));
    }
    BuiltIsUnique(built, built');
    DisplayIsAnOrder();
    StableOrderIsUnique(trades, trades', built, DisplayBefore);
  }

  // ---------- which source a trade is taken from ----------

  const BROKERS := {"gtht", "tpy"}

  /** The broker's own export stands before the clearing house, that before a screenshot, and that before anything
      else; within one rank the names decide. */
  predicate StandsBefore(a: string, b: string) {
    || (a in BROKERS && b !in BROKERS)
    || (a == "chinaclear" && b !in BROKERS + {"chinaclear"})
    || (a == "screenshot" && b !in BROKERS + {"chinaclear", "screenshot"})
    || ((a in BROKERS <==> b in BROKERS) && a !in {"chinaclear", "screenshot"} && b !in {"chinaclear", "screenshot"}
        && TextBefore(a, b))
  }

  lemma SourceBeforeIsStandsBefore(a: string, b: string)
    ensures SourceBefore(a, b) <==> StandsBefore(a, b)
  {
    StringLessIsBefore(a, b);
    StringLessIrreflexive(a);
  }

  /** The rows of one position, best source first: the trade is the first one's, and the others only fill in. */
  lemma {:induction false} LayerIsBestFirst(group: seq<Row>, order: seq<string>, i: nat)
    requires BestFirst(order)
    ensures forall j, k | 0 <= j < k < |Layer(group, order, i)| ::
              StandsBefore(Kind(Layer(group, order, i)[j]), Kind(Layer(group, order, i)[k]))
    decreases |order|
  {
    if order != [] {
      FirstIsLeast(order, SourceBefore);
      LayerIsBestFirst(group, order[1..], i);
      LayerHolds(group, order[1..], i);
      var rest := Layer(group, order[1..], i);
      if i < |From(group, order[0])| {
        FromHolds(group, order[0]);
        forall k | 0 <= k < |rest| ensures StandsBefore(order[0], Kind(rest[k])) {
          assert rest[k] in rest;
          SourceBeforeIsStandsBefore(order[0], Kind(rest[k]));
        }
      }
    }
  }

  /** The first row of a trade is that of the best source that has one at its position. */
  lemma TradesAreTheBestSources(group: seq<Row>, i: nat)
    ensures var layer := Layer(group, Sources(group), i);
            forall row | row in layer :: row == layer[0] || StandsBefore(Kind(layer[0]), Kind(row))
  {
    SourcesAreBestFirst(group);
    LayerIsBestFirst(group, Sources(group), i);
  }
}
