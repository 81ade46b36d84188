/** The reconciliation of two sources (autoresearch/broker/reconcile.py, `compare`) and the merge: when they count the
    same trades. */
module BrokerReconcile {
  import opened Strings
  import opened BrokerSchema
  import opened RawStore
  import opened BrokerMerge
  import opened MergeRebuild
  import opened StableSort

  predicate Trading(row: Row) { Raw(Get(row, Side)) in ["BUY", "SELL"] }

  function IfTrading(row: Row): multiset<Key> { if Trading(row) then multiset{NaturalKey(row)} else multiset{} }

  /** `_keys`: the natural keys of the BUY and SELL rows, counted. */
  function Keys(rows: seq<Row>): multiset<Key> {
    if rows == [] then multiset{} else Keys(rows[..|rows| - 1]) + IfTrading(rows[|rows| - 1])
  }

  datatype Comparison = Comparison(both: multiset<Key>, onlyA: multiset<Key>, onlyB: multiset<Key>)

  /** The three buckets of `compare`, of which it reports the sizes. */
  function Compare(a: seq<Row>, b: seq<Row>): Comparison {
    Comparison(Keys(a) * Keys(b), Keys(a) - Keys(b), Keys(b) - Keys(a))
  }

  /** The natural keys of the BUY and SELL trades. */
  function TradeKeys(trades: seq<Trade>): multiset<Key> {
    if trades == [] then multiset{} else TradeKeys(trades[..|trades| - 1]) + IfTrading(trades[|trades| - 1].row)
  }

  function Trades(trades: seq<Trade>): seq<Trade> {
    if trades == [] then []
    else
      var n := |trades| - 1;
      Trades(trades[..n]) + if Trading(trades[n].row) then [trades[n]] else []
  }

  function IfDouble(trade: Trade): seq<Trade> { if |trade.sources| >= 2 then [trade] else [] }

  function DoubleSourced(trades: seq<Trade>): seq<Trade> {
    if trades == [] then []
    else DoubleSourced(trades[..|trades| - 1]) + IfDouble(trades[|trades| - 1])
  }

  /** The keys of the double-sourced BUY and SELL trades. */
  function DoubleKeys(trades: seq<Trade>): multiset<Key> { TradeKeys(DoubleSourced(trades)) }

  /** The merge and the comparison count the same trades: the merged keys are the three buckets together, and those of
      the double-sourced rows the first. */
  predicate Agree(trades: seq<Trade>, c: Comparison) {
    TradeKeys(trades) == c.both + c.onlyA + c.onlyB && DoubleKeys(trades) == c.both
  }

  function Min(x: nat, y: nat): nat { if x <= y then x else y }

  function Max(x: nat, y: nat): nat { if x <= y then y else x }

  /** The rows of a group that are paired with a row of the other source carry the same BUY and SELL keys in both. */
  predicate PairedAlike(group: seq<Row>, a: string, b: string) {
    var ra, rb := From(group, a), From(group, b);
    var n := Min(|ra|, |rb|);
    Keys(ra[..n]) == Keys(rb[..n])
  }

  ghost predicate AllPairedAlike(rows: seq<Row>, a: string, b: string) {
    forall nk :: PairedAlike(OfKey(WithKeys(rows), nk), a, b)
  }

  predicate OnlyFrom(rows: seq<Row>, a: string, b: string) {
    forall row | row in rows :: Kind(row) == a || Kind(row) == b
  }

  // ---------- counting ----------

  lemma KeysOneMore(rows: seq<Row>, last: Row)
    ensures Keys(rows + [last]) == Keys(rows) + IfTrading(last)
  {
    assert (rows + [last])[..|rows|] == rows;
  }

  lemma TradeKeysOneMore(trades: seq<Trade>, last: Trade)
    ensures TradeKeys(trades + [last]) == TradeKeys(trades) + IfTrading(last.row)
  {
    assert (trades + [last])[..|trades|] == trades;
  }

  lemma DoublesOneMore(trades: seq<Trade>, last: Trade)
    ensures DoubleSourced(trades + [last]) == DoubleSourced(trades) + IfDouble(last)
  {
    assert (trades + [last])[..|trades|] == trades;
  }

  lemma {:induction false} KeysConcat(a: seq<Row>, b: seq<Row>)
    ensures Keys(a + b) == Keys(a) + Keys(b)
    decreases |b|
  {
    if b == [] {
      assert a + b == a;
    } else {
      var n := |b| - 1;
      assert a + b == (a + b[..n]) + [b[n]] && b == b[..n] + [b[n]];
      KeysConcat(a, b[..n]);
      KeysOneMore(a + b[..n], b[n]);
      KeysOneMore(b[..n], b[n]);
    }
  }

  lemma {:induction false} KeysOfInsertion(sorted: seq<Row>, row: Row)
    ensures Keys(Insert(sorted, row, SeqBefore)) == Keys(sorted) + IfTrading(row)
    decreases |sorted|
  {
    if sorted == [] || !SeqBefore(row, sorted[|sorted| - 1]) {
      KeysOneMore(sorted, row);
    } else {
      var n := |sorted| - 1;
      KeysOfInsertion(sorted[..n], row);
      KeysOneMore(Insert(sorted[..n], row, SeqBefore), sorted[n]);
    }
  }

  lemma {:induction false} KeysOfSorted(rows: seq<Row>)
    ensures Keys(Sort(rows, SeqBefore)) == Keys(rows)
    decreases |rows|
  {
    if rows != [] {
      KeysOfSorted(rows[..|rows| - 1]);
      KeysOfInsertion(Sort(rows[..|rows| - 1], SeqBefore), rows[|rows| - 1]);
    }
  }

  lemma {:induction false} TradeKeysCount(trades: seq<Trade>)
    ensures |TradeKeys(trades)| == |Trades(trades)|
    decreases |trades|
  {
    if trades != [] {
      TradeKeysCount(trades[..|trades| - 1]);
    }
  }

  lemma KeyDecidesSide(a: Row, b: Row)
    requires NaturalKey(a) == NaturalKey(b)
    ensures IfTrading(a) == IfTrading(b)
  {
    assert NaturalKey(a).side == NaturalKey(b).side;
  }

  // ---------- the trades of one group ----------

  /** The best row at each position: those of the best source, and then what the other one has more. */
  function Firsts(p: seq<Row>, q: seq<Row>): seq<Row> { p + q[Min(|p|, |q|)..] }

  /** Which of two sources is best in a group; one without rows there may be either. */
  function Best(group: seq<Row>, a: string, b: string): string { if Sources(group) in [[b], [b, a]] then b else a }

  function OtherOf(group: seq<Row>, a: string, b: string): string { if Best(group, a, b) == a then b else a }

  /** The trades that a best source with rows p and another one with rows q make. */
  predicate PairTrades(trades: seq<Trade>, p: seq<Row>, q: seq<Row>) {
    && |trades| == |Firsts(p, q)|
    && (forall i | 0 <= i < |trades| :: NaturalKey(trades[i].row) == NaturalKey(Firsts(p, q)[i]))
    && (forall i | 0 <= i < |trades| :: |trades[i].sources| >= 2 <==> i < Min(|p|, |q|))
  }

  lemma {:induction false} KeysOfTrades(trades: seq<Trade>, rows: seq<Row>)
    requires |trades| == |rows|
    requires forall i | 0 <= i < |trades| :: NaturalKey(trades[i].row) == NaturalKey(rows[i])
    ensures TradeKeys(trades) == Keys(rows)
    decreases |trades|
  {
    if trades != [] {
      var n := |trades| - 1;
      KeysOfTrades(trades[..n], rows[..n]);
      KeyDecidesSide(trades[n].row, rows[n]);
    }
  }

  lemma {:induction false} DoublesComeFirst(trades: seq<Trade>, n: nat)
    requires n <= |trades| && forall i | 0 <= i < |trades| :: |trades[i].sources| >= 2 <==> i < n
    ensures DoubleSourced(trades) == trades[..n]
    decreases |trades|
  {
    if trades != [] {
      var front, last := trades[..|trades| - 1], trades[|trades| - 1];
      assert trades == front + [last];
      forall i | 0 <= i < |front| ensures |front[i].sources| >= 2 <==> i < Min(n, |front|) {
        assert front[i] == trades[i];
      }
      assert |trades[|front|].sources| >= 2 <==> |front| < n;
      DoublesComeFirst(front, Min(n, |front|));
      OneMoreComesFirst(front, last, n);
    }
  }

  lemma OneMoreComesFirst(front: seq<Trade>, last: Trade, n: nat)
    requires n <= |front| + 1 && DoubleSourced(front) == front[..Min(n, |front|)]
    requires |last.sources| >= 2 <==> |front| < n
    ensures DoubleSourced(front + [last]) == (front + [last])[..n]
  {
    hide DoubleSourced;
    DoublesOneMore(front, last);
    if n <= |front| {
      assert (front + [last])[..n] == front[..n] + [];
    } else {
      assert front[..|front|] == front && (front + [last])[..n] == front + [last];
    }
  }

  lemma KeysOfPairTrades(trades: seq<Trade>, p: seq<Row>, q: seq<Row>)
    requires PairTrades(trades, p, q)
    ensures var n := Min(|p|, |q|);
            && TradeKeys(trades) == Keys(p) + Keys(q[n..])
            && DoubleKeys(trades) == Keys(p[..n])
  {
    var n := Min(|p|, |q|);
    KeysOfTrades(trades, Firsts(p, q));
    KeysConcat(p, q[n..]);
    DoublesComeFirst(trades, n);
    assert Firsts(p, q)[..n] == p[..n];
    KeysOfTrades(trades[..n], p[..n]);
  }

  lemma NoRowsFrom(group: seq<Row>, source: string)
    ensures source !in Sources(group) ==> From(group, source) == []
  {
    SomeRowOf(group, source);
    FromHolds(group, source);
  }

  /** The order of a group with rows from two sources. */
  lemma TwoSourceOrder(group: seq<Row>, a: string, b: string)
    requires a != b && OnlyFrom(group, a, b)
    ensures Sources(group) in [[], [a], [b], [a, b], [b, a]]
    ensures a !in Sources(group) ==> From(group, a) == []
    ensures b !in Sources(group) ==> From(group, b) == []
  {
    var order := Sources(group);
    SourcesAreBestFirst(group);
    SourcesAreOrdered();
    forall i | 0 <= i < |order| ensures order[i] == a || order[i] == b {
      assert order[i] in order;
    }
    AtMostTwo(order, a, b);
    if |order| == 1 {
      assert order == [order[0]];
    } else if |order| == 2 {
      assert order == [order[0], order[1]];
    }
    NoRowsFrom(group, a);
    NoRowsFrom(group, b);
  }

  function At(order: seq<string>, i: nat): string { if i < |order| then order[i] else "" }

  lemma AtMostTwo(order: seq<string>, a: string, b: string)
    requires BestFirst(order) && !SourceBefore(a, a) && !SourceBefore(b, b)
    requires forall i | 0 <= i < |order| :: order[i] == a || order[i] == b
    ensures |order| <= 2
    ensures |order| == 2 ==> order[0] != order[1]
  {
    forall i, j | 0 <= i < j < |order| ensures order[i] != order[j] {
      assert SourceBefore(order[i], order[j]);
    }
    var first, second, third := At(order, 0), At(order, 1), At(order, 2);
    assert |order| > 2 ==> first != second && second != third && first != third;
  }

  /** What a position of a pair of sources holds. */
  function PairAt(p: seq<Row>, q: seq<Row>, i: nat): seq<Row> {
    (if i < |p| then [p[i]] else []) + if i < |q| then [q[i]] else []
  }

  lemma NoLayers(group: seq<Row>, i: nat)
    ensures Layer(group, [], i) == [] && Depth(group, []) == 0
  {
  }

  lemma OneSourceLayers(group: seq<Row>, s: string, i: nat)
    ensures Layer(group, [s], i) == if i < |From(group, s)| then [From(group, s)[i]] else []
    ensures Depth(group, [s]) == |From(group, s)|
  {
    assert [s][1..] == [];
  }

  lemma PairLayers(group: seq<Row>, s: string, t: string, i: nat)
    ensures Layer(group, [s, t], i) == PairAt(From(group, s), From(group, t), i)
    ensures Depth(group, [s, t]) == Max(|From(group, s)|, |From(group, t)|)
  {
    assert [s, t][1..] == [t];
    OneSourceLayers(group, t, i);
  }

  lemma TwoSourceLayers(group: seq<Row>, a: string, b: string, i: nat)
    requires a != b && OnlyFrom(group, a, b)
    ensures var p, q := From(group, Best(group, a, b)), From(group, OtherOf(group, a, b));
            Layer(group, Sources(group), i) == PairAt(p, q, i) && Depth(group, Sources(group)) == Max(|p|, |q|)
  {
    hide From, Sources, Layer, Depth;
    TwoSourceOrder(group, a, b);
    NoLayers(group, i);
    OneSourceLayers(group, a, i);
    OneSourceLayers(group, b, i);
    PairLayers(group, a, b, i);
    PairLayers(group, b, a, i);
  }

  lemma GroupMakesPairTrades(nk: string, group: seq<Row>, a: string, b: string)
    requires a != b && OnlyFrom(group, a, b)
    ensures PairTrades(TradesOfGroup(nk, group), From(group, Best(group, a, b)), From(group, OtherOf(group, a, b)))
  {
    hide From, Sources, Best, OtherOf, GroupTrades, NaturalKey;
    var trades := TradesOfGroup(nk, group);
    var p, q := From(group, Best(group, a, b)), From(group, OtherOf(group, a, b));
    TwoSourceLayers(group, a, b, 0);
    assert |trades| == |Firsts(p, q)|;
    forall i | 0 <= i < |trades|
      ensures NaturalKey(trades[i].row) == NaturalKey(Firsts(p, q)[i])
      ensures |trades[i].sources| >= 2 <==> i < Min(|p|, |q|)
    {
      PairTradeAt(nk, group, a, b, i);
    }
  }

  lemma PairTradeAt(nk: string, group: seq<Row>, a: string, b: string, i: nat)
    requires a != b && OnlyFrom(group, a, b) && i < |TradesOfGroup(nk, group)|
    ensures var p, q := From(group, Best(group, a, b)), From(group, OtherOf(group, a, b));
            && i < |Firsts(p, q)|
            && NaturalKey(TradesOfGroup(nk, group)[i].row) == NaturalKey(Firsts(p, q)[i])
            && (|TradesOfGroup(nk, group)[i].sources| >= 2 <==> i < Min(|p|, |q|))
  {
    hide From, Sources, Best, OtherOf, GroupTrades, NaturalKey, OnlyFrom, Layer, Depth;
    var p, q := From(group, Best(group, a, b)), From(group, OtherOf(group, a, b));
    TwoSourceLayers(group, a, b, i);
    TradeAt(nk, group, Sources(group), Depth(group, Sources(group)), i);
    FirstOfPair(p, q, i);
  }

  lemma FirstOfPair(p: seq<Row>, q: seq<Row>, i: nat)
    requires i < Max(|p|, |q|)
    ensures i < |Firsts(p, q)| && PairAt(p, q, i) != [] && PairAt(p, q, i)[0] == Firsts(p, q)[i]
    ensures |PairAt(p, q, i)| >= 2 <==> i < Min(|p|, |q|)
  {
  }

  lemma TradeAt(nk: string, group: seq<Row>, order: seq<string>, n: nat, i: nat)
    requires i < n <= Depth(group, order)
    ensures Layer(group, order, i) != []
    ensures var trade := GroupTrades(nk, group, order, n)[i];
            && NaturalKey(trade.row) == NaturalKey(Layer(group, order, i)[0])
            && |trade.sources| == |Layer(group, order, i)|
  {
    GroupTradesAt(nk, group, order, n, i);
    MergedIsMerge(nk, Layer(group, order, i));
    MergedSources(nk, Layer(group, order, i));
    MergeKeepsKey(Merged(nk, Layer(group, order, i)).row, Layer(group, order, i)[0]);
  }

  // ---------- one key ----------

  lemma {:induction false} KeysOfKey(rows: seq<Row>, key: Key)
    ensures Keys(OfKey(WithKeys(rows), Joined(key)))[key] == Keys(rows)[key]
    decreases |rows|
  {
    if rows != [] {
      var rest, last := rows[..|rows| - 1], rows[|rows| - 1];
      var own := OfKey(WithKeys(rest), Joined(key));
      assert rows == rest + [last] && own + [] == own;
      KeysOfKey(rest, key);
      hide Keys, OfKey, WithKeys, Joined;
      OfKeyOneMore(rest, last, Joined(key));
      KeysOneMore(own, last);
      KeysOneMore(rest, last);
    }
  }

  /** A source's rows under a key are all in the group of the joined key. */
  lemma KeysOfSource(rows: seq<Row>, source: string, key: Key)
    ensures Keys(OfSource(rows, source))[key] == Keys(From(OfKey(WithKeys(rows), Joined(key)), source))[key]
  {
    SourceOfGroup(rows, Joined(key), source);
    KeysOfSorted(OfSource(OfKey(WithKeys(rows), Joined(key)), source));
    KeysOfKey(OfSource(rows, source), key);
  }

  predicate FiledByKey(trades: seq<Trade>) {
    forall t | t in trades :: t.nk == Joined(NaturalKey(t.row))
  }

  lemma {:induction false} TradesOfHolds(trades: seq<Trade>, nk: string)
    ensures forall t | t in trades && t.nk == nk :: t in TradesOf(trades, nk)
    decreases |trades|
  {
    if trades != [] {
      var n := |trades| - 1;
      TradesOfHolds(trades[..n], nk);
      assert trades == trades[..n] + [trades[n]];
    }
  }

  /** A trade is filed under the joined key of its own row. */
  lemma TradesAreFiledByKey(built: seq<Trade>, rows: seq<Row>)
    requires MergesAll(built, rows)
    ensures FiledByKey(built)
  {
    forall t | t in built ensures t.nk == Joined(NaturalKey(t.row)) {
      TradesOfHolds(built, t.nk);
      var i :| 0 <= i < |TradesOf(built, t.nk)| && TradesOf(built, t.nk)[i] == t;
      TradesOfKey(built, rows, t.nk, i);
      var group := OfKey(WithKeys(rows), t.nk);
      var row := Layer(group, Sources(group), i)[0];
      assert row in Layer(group, Sources(group), i) && MergeKey(row) == t.nk;
    }
  }

  lemma TradesOfOneMore(trades: seq<Trade>, last: Trade, nk: string)
    ensures TradesOf(trades + [last], nk) == TradesOf(trades, nk) + if last.nk == nk then [last] else []
  {
    assert (trades + [last])[..|trades|] == trades;
  }

  lemma {:induction false} TradesUnderAKey(trades: seq<Trade>, key: Key)
    requires FiledByKey(trades)
    ensures TradeKeys(trades)[key] == TradeKeys(TradesOf(trades, Joined(key)))[key]
    ensures DoubleKeys(trades)[key] == DoubleKeys(TradesOf(trades, Joined(key)))[key]
    decreases |trades|
  {
    if trades != [] {
      var rest, last := trades[..|trades| - 1], trades[|trades| - 1];
      assert trades == rest + [last] && last in trades;
      TradesUnderAKey(rest, key);
      OneMoreUnderAKey(rest, last, key);
    }
  }

  lemma OneMoreUnderAKey(rest: seq<Trade>, last: Trade, key: Key)
    requires last.nk == Joined(NaturalKey(last.row))
    requires TradeKeys(rest)[key] == TradeKeys(TradesOf(rest, Joined(key)))[key]
    requires DoubleKeys(rest)[key] == DoubleKeys(TradesOf(rest, Joined(key)))[key]
    ensures TradeKeys(rest + [last])[key] == TradeKeys(TradesOf(rest + [last], Joined(key)))[key]
    ensures DoubleKeys(rest + [last])[key] == DoubleKeys(TradesOf(rest + [last], Joined(key)))[key]
  {
    hide TradeKeys, DoubleKeys, TradesOf, Joined, IfTrading, IfDoubleKey, NaturalKey;
    var own := TradesOf(rest, Joined(key));
    TradesOfOneMore(rest, last, Joined(key));
    TradeKeysOneMore(rest, last);
    DoubleKeysOneMore(rest, last);
    if last.nk == Joined(key) {
      TradeKeysOneMore(own, last);
      DoubleKeysOneMore(own, last);
    } else {
      OtherKey(last, key);
      assert own + [] == own;
    }
  }

  lemma OtherKey(t: Trade, key: Key)
    requires t.nk == Joined(NaturalKey(t.row))
    ensures t.nk != Joined(key) ==> IfTrading(t.row)[key] == 0 && IfDoubleKey(t)[key] == 0
  {
  }

  function IfDoubleKey(trade: Trade): multiset<Key> {
    if |trade.sources| >= 2 then IfTrading(trade.row) else multiset{}
  }

  lemma DoubleKeysOneMore(trades: seq<Trade>, last: Trade)
    ensures DoubleKeys(trades + [last]) == DoubleKeys(trades) + IfDoubleKey(last)
  {
    hide TradeKeys, DoubleSourced, IfTrading;
    DoublesOneMore(trades, last);
    TradeKeysOneMore(DoubleSourced(trades), last);
    assert DoubleSourced(trades) + [] == DoubleSourced(trades);
  }

  /** For one key the merge counts what the comparison counts exactly when as many of the paired rows are under it in
      one source as in the other. */
  lemma OneKeyAgrees(p: seq<Row>, q: seq<Row>, key: Key)
    ensures var n := Min(|p|, |q|);
            (Keys(p)[key] + Keys(q[n..])[key] == Max(Keys(p)[key], Keys(q)[key])
             && Keys(p[..n])[key] == Min(Keys(p)[key], Keys(q)[key]))
            <==> Keys(p[..n])[key] == Keys(q[..n])[key]
  {
    var n := Min(|p|, |q|);
    KeysSplit(p, n);
    KeysSplit(q, n);
    hide Keys;
    assert n == |p| || n == |q|;
  }

  lemma KeysSplit(rows: seq<Row>, n: nat)
    requires n <= |rows|
    ensures Keys(rows) == Keys(rows[..n]) + Keys(rows[n..])
    ensures n == |rows| ==> Keys(rows[n..]) == multiset{}
  {
    hide Keys;
    KeysConcat(rows[..n], rows[n..]);
    assert rows == rows[..n] + rows[n..];
    NoKeys(rows[n..]);
  }

  lemma NoKeys(rows: seq<Row>)
    ensures rows == [] ==> Keys(rows) == multiset{}
  {
  }

  lemma GroupIsOnlyFrom(rows: seq<Row>, nk: string, a: string, b: string)
    requires OnlyFrom(rows, a, b)
    ensures OnlyFrom(OfKey(WithKeys(rows), nk), a, b)
  {
    forall row | row in OfKey(WithKeys(rows), nk) ensures Kind(row) == a || Kind(row) == b {
      KeyedRowsKnowTheirKey(rows, nk, row);
    }
  }

  /** How many of the paired rows of a source are under a key. */
  function Paired(rows: seq<Row>, source: string, other: string, key: Key): nat {
    var group := OfKey(WithKeys(rows), Joined(key));
    Keys(From(group, source)[..Min(|From(group, source)|, |From(group, other)|)])[key]
  }

  /** As many trades under the key as the source with more rows of it has, and as many double-sourced ones as the other
      source. */
  predicate KeyAgrees(trades: seq<Trade>, a: seq<Row>, b: seq<Row>, key: Key) {
    && TradeKeys(trades)[key] == Max(Keys(a)[key], Keys(b)[key])
    && DoubleKeys(trades)[key] == Min(Keys(a)[key], Keys(b)[key])
  }

  lemma CountsOfGroup(built: seq<Trade>, rows: seq<Row>, a: string, b: string, key: Key)
    requires MergesAll(built, rows) && OnlyFrom(rows, a, b) && a != b
    ensures var group := OfKey(WithKeys(rows), Joined(key));
            var p, q := From(group, Best(group, a, b)), From(group, OtherOf(group, a, b));
            var n := Min(|p|, |q|);
            && TradeKeys(built)[key] == Keys(p)[key] + Keys(q[n..])[key]
            && DoubleKeys(built)[key] == Keys(p[..n])[key]
  {
    hide MergesAll, TradesOfGroup, From, Keys, Sources, Joined, TradeKeys, DoubleKeys, PairTrades, Best, OtherOf;
    var nk := Joined(key);
    var group := OfKey(WithKeys(rows), nk);
    TradesAreFiledByKey(built, rows);
    TradesUnderAKey(built, key);
    MergedGroup(built, rows, nk);
    GroupIsOnlyFrom(rows, nk, a, b);
    GroupMakesPairTrades(nk, group, a, b);
    KeysOfPairTrades(TradesOfGroup(nk, group), From(group, Best(group, a, b)), From(group, OtherOf(group, a, b)));
  }

  lemma KeyAgreesExactlyWhen(built: seq<Trade>, rows: seq<Row>, a: string, b: string, key: Key)
    requires MergesAll(built, rows) && OnlyFrom(rows, a, b) && a != b
    ensures KeyAgrees(built, OfSource(rows, a), OfSource(rows, b), key)
        <==> Paired(rows, a, b, key) == Paired(rows, b, a, key)
  {
    hide MergesAll, From, Keys, Sources, Joined, TradeKeys, DoubleKeys, OnlyFrom, OfKey, OfSource;
    var group := OfKey(WithKeys(rows), Joined(key));
    CountsOfGroup(built, rows, a, b, key);
    KeysOfSource(rows, a, key);
    KeysOfSource(rows, b, key);
    OneKeyAgrees(From(group, Best(group, a, b)), From(group, OtherOf(group, a, b)), key);
  }

  lemma MergedGroup(built: seq<Trade>, rows: seq<Row>, nk: string)
    requires MergesAll(built, rows)
    ensures TradesOf(built, nk) == TradesOfGroup(nk, OfKey(WithKeys(rows), nk))
  {
  }

  // ---------- all keys ----------

  lemma {:induction false} NoOtherKeys(rows: seq<Row>, nk: string, key: Key)
    requires Joined(key) != nk && forall row | row in rows :: MergeKey(row) == nk
    ensures Keys(rows)[key] == 0
    decreases |rows|
  {
    if rows != [] {
      var n := |rows| - 1;
      assert rows[n] in rows;
      NoOtherKeys(rows[..n], nk, key);
    }
  }

  lemma PartHasItsKey(rows: seq<Row>, nk: string, source: string, n: nat)
    requires n <= |From(OfKey(WithKeys(rows), nk), source)|
    ensures forall row | row in From(OfKey(WithKeys(rows), nk), source)[..n] :: MergeKey(row) == nk
  {
    var group := OfKey(WithKeys(rows), nk);
    FromHolds(group, source);
    forall row | row in From(group, source)[..n] ensures MergeKey(row) == nk {
      assert row in From(group, source);
      KeyedRowsKnowTheirKey(rows, nk, row);
    }
  }

  /** Every group is paired alike when every key is. */
  lemma PairedAlikeByKey(rows: seq<Row>, a: string, b: string)
    ensures AllPairedAlike(rows, a, b) <==> forall key :: Paired(rows, a, b, key) == Paired(rows, b, a, key)
  {
    if forall key :: Paired(rows, a, b, key) == Paired(rows, b, a, key) {
      forall nk ensures PairedAlike(OfKey(WithKeys(rows), nk), a, b) {
        GroupPairedAlike(rows, nk, a, b);
      }
    }
    if AllPairedAlike(rows, a, b) {
      forall key ensures Paired(rows, a, b, key) == Paired(rows, b, a, key) {
        assert PairedAlike(OfKey(WithKeys(rows), Joined(key)), a, b);
      }
    }
  }

  lemma GroupPairedAlike(rows: seq<Row>, nk: string, a: string, b: string)
    requires forall key :: Paired(rows, a, b, key) == Paired(rows, b, a, key)
    ensures PairedAlike(OfKey(WithKeys(rows), nk), a, b)
  {
    hide From, Joined;
    var group := OfKey(WithKeys(rows), nk);
    var ra, rb := From(group, a), From(group, b);
    var n := Min(|ra|, |rb|);
    forall key ensures Keys(ra[..n])[key] == Keys(rb[..n])[key] {
      if Joined(key) == nk {
        assert Paired(rows, a, b, key) == Paired(rows, b, a, key);
      } else {
        PartHasItsKey(rows, nk, a, n);
        PartHasItsKey(rows, nk, b, n);
        NoOtherKeys(ra[..n], nk, key);
        NoOtherKeys(rb[..n], nk, key);
      }
    }
    assert Keys(ra[..n]) == Keys(rb[..n]);
  }

  lemma AgreeByKey(trades: seq<Trade>, a: seq<Row>, b: seq<Row>)
    ensures Agree(trades, Compare(a, b)) <==> forall key :: KeyAgrees(trades, a, b, key)
  {
    hide TradeKeys, DoubleKeys, Keys;
    var c := Compare(a, b);
    assert forall key :: (c.both + c.onlyA + c.onlyB)[key] == Max(Keys(a)[key], Keys(b)[key]);
    assert forall key :: c.both[key] == Min(Keys(a)[key], Keys(b)[key]);
    SameCounts(TradeKeys(trades), c.both + c.onlyA + c.onlyB);
    SameCounts(DoubleKeys(trades), c.both);
    assert forall key :: KeyAgrees(trades, a, b, key)
                         <==> TradeKeys(trades)[key] == (c.both + c.onlyA + c.onlyB)[key]
                              && DoubleKeys(trades)[key] == c.both[key];
  }

  lemma SameCounts(a: multiset<Key>, b: multiset<Key>)
    ensures a == b <==> forall key :: a[key] == b[key]
  {
  }

  lemma BuiltAgreesExactlyWhen(built: seq<Trade>, rows: seq<Row>, a: string, b: string)
    requires MergesAll(built, rows) && OnlyFrom(rows, a, b) && a != b
    ensures Agree(built, Compare(OfSource(rows, a), OfSource(rows, b))) <==> AllPairedAlike(rows, a, b)
  {
    hide MergesAll, Agree, AllPairedAlike, Paired, KeyAgrees, OnlyFrom, Compare;
    AgreeByKey(built, OfSource(rows, a), OfSource(rows, b));
    PairedAlikeByKey(rows, a, b);
    forall key
      ensures KeyAgrees(built, OfSource(rows, a), OfSource(rows, b), key)
          <==> Paired(rows, a, b, key) == Paired(rows, b, a, key)
    {
      KeyAgreesExactlyWhen(built, rows, a, b, key);
    }
  }

  // ---------- the display order does not matter ----------

  lemma {:induction false} KeysOfInserted(sorted: seq<Trade>, t: Trade)
    ensures TradeKeys(Insert(sorted, t, DisplayBefore)) == TradeKeys(sorted) + IfTrading(t.row)
    ensures DoubleKeys(Insert(sorted, t, DisplayBefore)) == DoubleKeys(sorted) + IfDoubleKey(t)
    decreases |sorted|
  {
    hide TradeKeys, DoubleKeys, IfTrading, IfDoubleKey, TupleLess, SortKeys;
    TradeKeysOneMore(sorted, t);
    DoubleKeysOneMore(sorted, t);
    if sorted != [] && DisplayBefore(t, sorted[|sorted| - 1]) {
      var rest, last := sorted[..|sorted| - 1], sorted[|sorted| - 1];
      assert sorted == rest + [last];
      assert Insert(sorted, t, DisplayBefore) == Insert(rest, t, DisplayBefore) + [last];
      KeysOfInserted(rest, t);
      TradeKeysOneMore(Insert(rest, t, DisplayBefore), last);
      DoubleKeysOneMore(Insert(rest, t, DisplayBefore), last);
      TradeKeysOneMore(rest, last);
      DoubleKeysOneMore(rest, last);
    } else {
      assert Insert(sorted, t, DisplayBefore) == sorted + [t];
    }
  }

  lemma {:induction false} KeysOfDisplayed(built: seq<Trade>)
    ensures TradeKeys(Sort(built, DisplayBefore)) == TradeKeys(built)
    ensures DoubleKeys(Sort(built, DisplayBefore)) == DoubleKeys(built)
    decreases |built|
  {
    if built != [] {
      var rest, last := built[..|built| - 1], built[|built| - 1];
      assert built == rest + [last];
      KeysOfDisplayed(rest);
      KeysOfInserted(Sort(rest, DisplayBefore), last);
      TradeKeysOneMore(rest, last);
      DoubleKeysOneMore(rest, last);
    }
  }

  lemma DisplayKeepsKeys(trades: seq<Trade>, built: seq<Trade>)
    requires StablySorted(trades, built, DisplayBefore)
    ensures TradeKeys(trades) == TradeKeys(built) && DoubleKeys(trades) == DoubleKeys(built)
  {
    DisplayIsAnOrder();
    SortIsStablySorted(built, DisplayBefore);
    StableOrderIsUnique(trades, Sort(built, DisplayBefore), built, DisplayBefore);
    KeysOfDisplayed(built);
  }

  // ---------- merge and compare agree ----------

  /** The BUY and SELL rows of `trades.csv` are what `compare` counts, key by key, if and only if the rows that the
      merge pairs carry the same keys in both sources. */
  lemma MergeAgreesExactlyWhenPairedAlike(trades: seq<Trade>, built: seq<Trade>, rows: seq<Row>, a: string, b: string)
    requires Merges(trades, built, rows) && OnlyFrom(rows, a, b) && a != b
    ensures Agree(trades, Compare(OfSource(rows, a), OfSource(rows, b))) <==> AllPairedAlike(rows, a, b)
  {
    hide MergesAll, StablySorted, Compare, AllPairedAlike, OnlyFrom;
    DisplayKeepsKeys(trades, built);
    BuiltAgreesExactlyWhen(built, rows, a, b);
  }

  /** In numbers, as `compare` reports them. */
  lemma AgreeInNumbers(trades: seq<Trade>, c: Comparison)
    requires Agree(trades, c)
    ensures |Trades(trades)| == |c.both| + |c.onlyA| + |c.onlyB| && |Trades(DoubleSourced(trades))| == |c.both|
  {
    TradeKeysCount(trades);
    TradeKeysCount(DoubleSourced(trades));
  }

  // ---------- validated rows ----------

  /** The joined key of a trading row is the joined key of no other trade. */
  predicate KeysApart(rows: seq<Row>) {
    forall x, r | x in rows && r in rows && Trading(r) && MergeKey(x) == MergeKey(r) :: NaturalKey(x) == NaturalKey(r)
  }

  lemma CheckedKeysAreApart(rows: seq<Row>)
    requires forall row | row in rows :: Checked(row)
    ensures KeysApart(rows)
  {
    forall x, r | x in rows && r in rows && Trading(r) && MergeKey(x) == MergeKey(r)
      ensures NaturalKey(x) == NaturalKey(r)
    {
      CheckedRowsJoinInjectively(x, r);
    }
  }

  function Times(key: multiset<Key>, n: nat): multiset<Key> {
    if n == 0 then multiset{} else Times(key, n - 1) + key
  }

  lemma {:induction false} AllOfOneKey(rows: seq<Row>, one: multiset<Key>)
    requires forall row | row in rows :: IfTrading(row) == one
    ensures Keys(rows) == Times(one, |rows|)
    decreases |rows|
  {
    if rows != [] {
      var n := |rows| - 1;
      assert rows[n] in rows;
      AllOfOneKey(rows[..n], one);
    }
  }

  /** Validated rows are paired alike, so the merge and the comparison agree on them. */
  lemma CheckedRowsArePairedAlike(rows: seq<Row>, a: string, b: string)
    requires forall row | row in rows :: Checked(row)
    ensures AllPairedAlike(rows, a, b)
  {
    CheckedKeysAreApart(rows);
    forall nk ensures PairedAlike(OfKey(WithKeys(rows), nk), a, b) {
      ApartIsPairedAlike(rows, nk, a, b);
    }
  }

  lemma ApartIsPairedAlike(rows: seq<Row>, nk: string, a: string, b: string)
    requires KeysApart(rows)
    ensures PairedAlike(OfKey(WithKeys(rows), nk), a, b)
  {
    var group := OfKey(WithKeys(rows), nk);
    var ra, rb := From(group, a), From(group, b);
    var n := Min(|ra|, |rb|);
    if n > 0 {
      var one := IfTrading(ra[0]);
      FromHolds(group, a);
      FromHolds(group, b);
      forall row | row in group ensures IfTrading(row) == one {
        assert ra[0] in group;
        KeyedRowsKnowTheirKey(rows, nk, row);
        KeyedRowsKnowTheirKey(rows, nk, ra[0]);
        OneKeyOneSide(rows, row, ra[0]);
      }
      AllOfOneKey(ra[..n], one);
      AllOfOneKey(rb[..n], one);
    }
  }

  lemma OneKeyOneSide(rows: seq<Row>, x: Row, y: Row)
    requires KeysApart(rows) && x in rows && y in rows && MergeKey(x) == MergeKey(y)
    ensures IfTrading(x) == IfTrading(y)
  {
    if Trading(x) || Trading(y) {
      KeyDecidesSide(x, y);
    }
  }

  // ---------- two trades under one joined key ----------

  /** One trade in each of two sources, with different natural keys that are joined alike: the merge makes one trade of
      them, and `compare` counts two. */
  lemma TwoTradesBecomeOne(x: Row, y: Row, a: string, b: string)
    requires Kind(x) == a && Kind(y) == b && a != b && Trading(x) && Trading(y)
    requires MergeKey(x) == MergeKey(y) && NaturalKey(x) != NaturalKey(y)
    ensures !AllPairedAlike([x, y], a, b)
  {
    hide NaturalKey, MergeKey, Kind, Trading;
    GroupOfTwo(x, y, a, b);
    assert !PairedAlike(OfKey(WithKeys([x, y]), MergeKey(x)), a, b) by {
      KeysOneMore([], x);
      KeysOneMore([], y);
      assert [x][..1] == [] + [x] && [y][..1] == [] + [y];
      assert NaturalKey(x) in IfTrading(x) && NaturalKey(x) !in IfTrading(y);
    }
  }

  lemma GroupOfTwo(x: Row, y: Row, a: string, b: string)
    requires Kind(x) == a && Kind(y) == b && a != b && MergeKey(x) == MergeKey(y)
    ensures var group := OfKey(WithKeys([x, y]), MergeKey(x)); From(group, a) == [x] && From(group, b) == [y]
  {
    hide MergeKey, Kind;
    assert [x, y] == [] + [x] + [y];
    OfKeyOneMore([], x, MergeKey(x));
    OfKeyOneMore([x], y, MergeKey(x));
    assert OfKey(WithKeys([]), MergeKey(x)) == [];
    assert OfKey(WithKeys([x, y]), MergeKey(x)) == [x, y];
    OfSourceOneMore([], x, a);
    OfSourceOneMore([x], y, a);
    OfSourceOneMore([], x, b);
    OfSourceOneMore([x], y, b);
    assert OfSource([x, y], a) == [x] && OfSource([x, y], b) == [y];
    assert Sort([x], SeqBefore) == [x] && Sort([y], SeqBefore) == [y];
  }

  function Bought(account: string, date: string, source: string): Row {
    map[Account := Text(account), TradeDate := Text(date), Code := Text("600519"), Side := Text("BUY"),
        Price := Number(1.0), Qty := Number(100.0), SourceKind := Text(source)]
  }

  const BOUGHT_PARTS := ["600519", "BUY", FormatNumber(Number(1.0)), FormatNumber(Number(100.0)), ""]

  lemma BoughtParts(account: string, date: string, source: string)
    ensures var row := Bought(account, date, source);
            && Parts(NaturalKey(row)) == [account, date] + BOUGHT_PARTS && Kind(row) == source && Trading(row)
  {
  }

  /** A separator inside a key column brings two such trades about. */
  lemma ASeparatorJoinsTwoTrades()
    ensures var x, y := Bought("x|y", "z", "gtht"), Bought("x", "y|z", "chinaclear");
            && NaturalKey(x) != NaturalKey(y) && MergeKey(x) == MergeKey(y)
            && !AllPairedAlike([x, y], "gtht", "chinaclear")
  {
    hide NaturalKey, Kind, Trading, AllPairedAlike, Bought, Join, FormatNumber;
    var x, y := Bought("x|y", "z", "gtht"), Bought("x", "y|z", "chinaclear");
    BoughtParts("x|y", "z", "gtht");
    BoughtParts("x", "y|z", "chinaclear");
    SeparatorMoves("x", "y", "z", BOUGHT_PARTS);
    assert "x" + "|" + "y" == "x|y" && "y" + "|" + "z" == "y|z";
    assert Parts(NaturalKey(x))[0] != Parts(NaturalKey(y))[0];
    TwoTradesBecomeOne(x, y, "gtht", "chinaclear");
  }

  lemma SeparatorMoves(a: string, b: string, c: string, rest: seq<string>)
    requires rest != []
    ensures Join([a + "|" + b, c] + rest) == Join([a, b + "|" + c] + rest)
  {
    assert ([a + "|" + b, c] + rest)[1..] == [c] + rest && ([a, b + "|" + c] + rest)[1..] == [b + "|" + c] + rest;
    assert ([c] + rest)[1..] == rest && ([b + "|" + c] + rest)[1..] == rest;
  }
}
