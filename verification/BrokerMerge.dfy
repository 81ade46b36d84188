/** The cross-source merge (autoresearch/broker/store.py, `merge`): rows with one natural key are paired by
    position across sources, and lower-priority sources fill in what is blank. */
module BrokerMerge {
  import opened Wrappers
  import opened Strings
  import opened BrokerSchema
  import opened RawStore
  import opened StableSort

  /** A raw row with its joined natural key. */
  datatype Keyed = Keyed(nk: string, row: Row)

  /** A row of `trades.csv`: the key it was merged under, the merged cells, and the sources they come from,
      best first. */
  datatype Trade = Trade(nk: string, row: Row, sources: seq<string>)

  // ---------- rows by key and by source ----------

  function MergeKey(row: Row): string { Joined(NaturalKey(row)) }

  /** `allr["_nk"]` */
  function WithKeys(rows: seq<Row>): (keyed: seq<Keyed>)
    ensures |keyed| == |rows|
  {
    seq(|rows|, i requires 0 <= i < |rows| => Keyed(MergeKey(rows[i]), rows[i]))
  }

  /** The rows of one natural key, in file order. */
  function OfKey(rows: seq<Keyed>, key: string): seq<Row> {
    if rows == [] then []
    else
      var n := |rows| - 1;
      OfKey(rows[..n], key) + if rows[n].nk == key then [rows[n].row] else []
  }

  function OfSource(rows: seq<Row>, source: string): seq<Row> {
    if rows == [] then []
    else
      var n := |rows| - 1;
      OfSource(rows[..n], source) + if Kind(rows[n]) == source then [rows[n]] else []
  }

  function SeqNo(row: Row): real { if Get(row, Seq).Number? then Get(row, Seq).number else 0.0 }

  predicate SeqBefore(a: Row, b: Row) { SeqNo(a) < SeqNo(b) }

  /** What one source has of a group, by sequence number. */
  function From(group: seq<Row>, source: string): seq<Row> { Sort(OfSource(group, source), SeqBefore) }

  lemma {:induction false} OfSourceHolds(rows: seq<Row>, source: string)
    ensures forall row :: row in OfSource(rows, source) <==> row in rows && Kind(row) == source
    decreases |rows|
  {
    if rows != [] {
      var n := |rows| - 1;
      OfSourceHolds(rows[..n], source);
      assert rows == rows[..n] + [rows[n]];
    }
  }

  lemma {:induction false} OfKeyHolds(rows: seq<Keyed>, key: string)
    ensures forall row :: row in OfKey(rows, key) <==> Keyed(key, row) in rows
    decreases |rows|
  {
    if rows != [] {
      var n := |rows| - 1;
      OfKeyHolds(rows[..n], key);
      assert rows == rows[..n] + [rows[n]];
    }
  }

  lemma FromHolds(group: seq<Row>, source: string)
    ensures forall row | row in From(group, source) :: row in group && Kind(row) == source
    ensures |From(group, source)| == |OfSource(group, source)|
  {
    OfSourceHolds(group, source);
    SortKeeps(OfSource(group, source), SeqBefore);
    forall row | row in From(group, source) ensures row in group && Kind(row) == source {
      assert row in multiset(From(group, source));
    }
  }

  // ---------- source priority ----------

  function Priority(source: string): nat {
    if source == "gtht" || source == "tpy" then 0
    else if source == "chinaclear" then 1
    else if source == "screenshot" then 2
    else 3
  }

  predicate SourceBefore(a: string, b: string) {
    Priority(a) < Priority(b) || (Priority(a) == Priority(b) && StringLess(a, b))
  }

  /** The sources of a group, best first. */
  function Sources(group: seq<Row>): seq<string> {
    if group == [] then [] else InsertOnce(Sources(group[..|group| - 1]), Kind(group[|group| - 1]), SourceBefore)
  }

  predicate BestFirst(order: seq<string>) { Ascending(order, SourceBefore) }

  lemma SourceBeforeTransitive(a: string, b: string, c: string)
    requires SourceBefore(a, b) && SourceBefore(b, c)
    ensures SourceBefore(a, c)
  {
    if Priority(a) == Priority(b) == Priority(c) {
      StringLessTransitive(a, b, c);
    }
  }

  lemma SourcesAreOrdered()
    ensures TotalOrder(SourceBefore)
  {
    forall a ensures !SourceBefore(a, a) {
      StringLessIrreflexive(a);
    }
    forall a, b, c | SourceBefore(a, b) && SourceBefore(b, c) ensures SourceBefore(a, c) {
      SourceBeforeTransitive(a, b, c);
    }
    forall a, b ensures a == b || SourceBefore(a, b) || SourceBefore(b, a) {
      StringLessTotal(a, b);
    }
  }

  /** The order names every source of the group once, best first. */
  lemma {:induction false} SourcesAreBestFirst(group: seq<Row>)
    ensures BestFirst(Sources(group))
    ensures forall s :: s in Sources(group) <==> exists row :: row in group && Kind(row) == s
    decreases |group|
  {
    if group != [] {
      var n := |group| - 1;
      SourcesAreBestFirst(group[..n]);
      SourcesAreOrdered();
      InsertOnceKeeps(Sources(group[..n]), Kind(group[n]), SourceBefore);
      assert group == group[..n] + [group[n]];
      forall s ensures s in Sources(group) <==> exists row :: row in group && Kind(row) == s {
        if s == Kind(group[n]) {
          assert group[n] in group;
        } else if exists row :: row in group && Kind(row) == s {
          var row :| row in group && Kind(row) == s;
          assert row in group[..n];
        }
      }
    }
  }

  // ---------- layers ----------

  /** The rows at position i of each source that has one, best source first. */
  function Layer(group: seq<Row>, order: seq<string>, i: nat): seq<Row> {
    if order == [] then []
    else
      (if i < |From(group, order[0])| then [From(group, order[0])[i]] else []) + Layer(group, order[1..], i)
  }

  /** How many positions a group has: the most rows any source has of it. */
  function Depth(group: seq<Row>, order: seq<string>): nat {
    if order == [] then 0
    else
      var here, rest := |From(group, order[0])|, Depth(group, order[1..]);
      if here < rest then rest else here
  }

  /** The row is the one its source has at a position. */
  predicate TakenAt(group: seq<Row>, row: Row, i: nat) {
    i < |From(group, Kind(row))| && From(group, Kind(row))[i] == row
  }

  lemma {:induction false} LayerHolds(group: seq<Row>, order: seq<string>, i: nat)
    ensures forall row | row in Layer(group, order, i) :: row in group && Kind(row) in order
    ensures forall row | row in Layer(group, order, i) :: TakenAt(group, row, i)
    ensures Layer(group, order, i) != [] <==> i < Depth(group, order)
    decreases |order|
  {
    if order != [] {
      FromHolds(group, order[0]);
      LayerHolds(group, order[1..], i);
    }
  }

  function Kinds(layer: seq<Row>): (kinds: seq<string>)
    ensures |kinds| == |layer|
  {
    seq(|layer|, i requires 0 <= i < |layer| => Kind(layer[i]))
  }

  // ---------- merging one layer ----------

  /** The first row with something in a column. */
  predicate FirstAt(layer: seq<Row>, column: Column, j: nat) {
    && j < |layer| && !IsBlank(Get(layer[j], column))
    && forall k | 0 <= k < j :: IsBlank(Get(layer[k], column))
  }

  /** The first cell of a column that is not blank; the first row's when all are blank. */
  predicate IsFirstFilled(layer: seq<Row>, column: Column, cell: Cell)
    requires layer != []
  {
    if IsBlank(cell) then cell == Get(layer[0], column) && forall j | 0 <= j < |layer| :: IsBlank(Get(layer[j], column))
    else exists j :: 0 <= j < |layer| && FirstAt(layer, column, j) && cell == Get(layer[j], column)
  }

  predicate IsHashId(id: string) { "h:" <= id }

  function TradeIdOf(row: Row): string { Raw(Get(row, TradeId)) }

  /** The first row's trade id, unless that is a hash and a later row has a real one. */
  predicate IsBestId(layer: seq<Row>, id: string)
    requires layer != []
  {
    if IsHashId(TradeIdOf(layer[0])) && exists j :: 1 <= j < |layer| && RealId(layer[j]) then
      exists j :: 1 <= j < |layer| && RealId(layer[j]) && id == TradeIdOf(layer[j])
               && forall k | 1 <= k < j :: !RealId(layer[k])
    else id == TradeIdOf(layer[0])
  }

  predicate RealId(row: Row) { TradeIdOf(row) != "" && !IsHashId(TradeIdOf(row)) }

  /** When a row was first ingested; a blank stamp counts as the latest. */
  function IngestedWhen(row: Row): string {
    if Raw(Get(row, IngestedAt)) == "" then "~" else Raw(Get(row, IngestedAt))
  }

  predicate IsEarliest(layer: seq<Row>, stamp: string) {
    && (exists j :: 0 <= j < |layer| && stamp == IngestedWhen(layer[j]))
    && forall j | 0 <= j < |layer| :: !StringLess(IngestedWhen(layer[j]), stamp)
  }

  predicate Fills(row: Row, layer: seq<Row>)
    requires layer != []
  {
    forall column | column in FILLABLE :: IsFirstFilled(layer, column, Get(row, column))
  }

  /** Whatever is not filled in, chosen or stamped is the primary's, the natural key included. */
  predicate Keeps(row: Row, primary: Row) {
    forall column | column !in FILLABLE && column != TradeId && column != IngestedAt ::
      Get(row, column) == Get(primary, column)
  }

  /** The merge of the rows at one position, primary first. */
  predicate IsMerge(trade: Trade, layer: seq<Row>)
    requires layer != []
  {
    && Fills(trade.row, layer)
    && IsBestId(layer, TradeIdOf(trade.row))
    && (if |layer| == 1 then Get(trade.row, IngestedAt) == Get(layer[0], IngestedAt)
        else IsEarliest(layer, Raw(Get(trade.row, IngestedAt))))
    && Keeps(trade.row, layer[0])
    && trade.sources == Kinds(layer)
  }

  function FilledCell(primary: Row, other: Row, column: Column): Cell {
    if column in FILLABLE && IsBlank(Get(primary, column)) && !IsBlank(Get(other, column)) then Get(other, column)
    else Get(primary, column)
  }

  /** A row whose first n fillable columns were filled in from another. */
  function Filled(primary: Row, other: Row, n: nat): Row
    requires n <= |FILLABLE|
  {
    if n == 0 then primary
    else
      var row, column := Filled(primary, other, n - 1), FILLABLE[n - 1];
      if IsBlank(Get(row, column)) && !IsBlank(Get(other, column)) then row[column := Get(other, column)] else row
  }

  lemma {:induction false} FilledCells(primary: Row, other: Row, n: nat, column: Column)
    requires n <= |FILLABLE|
    ensures Get(Filled(primary, other, n), column)
         == if column in FILLABLE[..n] then FilledCell(primary, other, column) else Get(primary, column)
  {
    hide IsBlank;
    if n > 0 {
      FilledCells(primary, other, n - 1, column);
      FilledCells(primary, other, n - 1, FILLABLE[n - 1]);
      FillableOnce(n - 1);
      assert FILLABLE[..n] == FILLABLE[..n - 1] + [FILLABLE[n - 1]];
    }
  }

  lemma FillableOnce(n: nat)
    requires n < |FILLABLE|
    ensures FILLABLE[n] !in FILLABLE[..n]
  {
    assert forall i, j | 0 <= i < j < |FILLABLE| :: FILLABLE[i] != FILLABLE[j];
  }

  lemma FirstFilledStep(layer: seq<Row>, n: nat, column: Column, primary: Row)
    requires 0 < n < |layer| && column in FILLABLE && IsFirstFilled(layer[..n], column, Get(primary, column))
    ensures IsFirstFilled(layer[..n + 1], column, FilledCell(primary, layer[n], column))
  {
    hide IsBlank;
    var before, after, cell := layer[..n], layer[..n + 1], Get(primary, column);
    if !IsBlank(cell) {
      var j :| 0 <= j < n && FirstAt(before, column, j) && cell == Get(before[j], column);
      assert FirstAt(after, column, j);
    } else if !IsBlank(Get(layer[n], column)) {
      assert forall j | 0 <= j < n :: after[j] == before[j];
      assert FirstAt(after, column, n);
    }
  }

  lemma FillsStep(layer: seq<Row>, n: nat, primary: Row, next: Row)
    requires 0 < n < |layer| && Fills(primary, layer[..n])
    requires forall column | column in FILLABLE :: Get(next, column) == FilledCell(primary, layer[n], column)
    ensures Fills(next, layer[..n + 1])
  {
    forall column | column in FILLABLE ensures IsFirstFilled(layer[..n + 1], column, Get(next, column)) {
      FirstFilledStep(layer, n, column, primary);
    }
  }

  /** The trade id after one more row. */
  function BetterId(id: string, other: Row): string {
    if IsHashId(id) && RealId(other) then TradeIdOf(other) else id
  }

  lemma BestIdStep(layer: seq<Row>, n: nat, id: string)
    requires 0 < n < |layer| && IsBestId(layer[..n], id)
    ensures IsBestId(layer[..n + 1], BetterId(id, layer[n]))
  {
    hide TradeIdOf;
    var before, after := layer[..n], layer[..n + 1];
    assert forall j | 0 <= j < n :: after[j] == before[j];
    assert after[n] == layer[n];
    if IsHashId(TradeIdOf(layer[0])) && exists j :: 1 <= j < n && RealId(before[j]) {
      var j :| 1 <= j < n && RealId(before[j]) && id == TradeIdOf(before[j])
               && forall k | 1 <= k < j :: !RealId(before[k]);
      assert RealId(after[j]);
    }
  }

  function EarlierStamp(stamp: string, other: string): string {
    if StringLess(other, stamp) then other else stamp
  }

  lemma EarliestStep(layer: seq<Row>, n: nat, stamp: string)
    requires 0 < n < |layer| && IsEarliest(layer[..n], stamp)
    ensures IsEarliest(layer[..n + 1], EarlierStamp(stamp, IngestedWhen(layer[n])))
  {
    var before, after := layer[..n], layer[..n + 1];
    var other := IngestedWhen(layer[n]);
    assert forall j | 0 <= j < n :: after[j] == before[j];
    assert after[n] == layer[n];
    StringLessIrreflexive(other);
    var j :| 0 <= j < n && stamp == IngestedWhen(before[j]);
    assert IngestedWhen(after[j]) == stamp;
    forall k | 0 <= k < n + 1 ensures !StringLess(IngestedWhen(after[k]), EarlierStamp(stamp, other)) {
      if k < n && StringLess(other, stamp) && StringLess(IngestedWhen(before[k]), other) {
        StringLessTransitive(IngestedWhen(before[k]), other, stamp);
      }
    }
  }

  /** The primary row when the first n rows of a position have been merged. */
  predicate MergedSoFar(primary: Row, layer: seq<Row>, n: nat)
    requires 0 < n <= |layer|
  {
    && Fills(primary, layer[..n]) && Keeps(primary, layer[0])
    && IsBestId(layer[..n], TradeIdOf(primary))
    && IsEarliest(layer[..n], IngestedWhen(primary))
    && (n == 1 ==> primary == layer[0])
    && (n > 1 ==> Raw(Get(primary, IngestedAt)) == IngestedWhen(primary))
  }

  lemma FirstRowMerged(layer: seq<Row>)
    requires layer != []
    ensures MergedSoFar(layer[0], layer, 1)
  {
    StringLessIrreflexive(IngestedWhen(layer[0]));
    var one := layer[..1];
    assert one[0] == layer[0];
    forall column | column in FILLABLE ensures IsFirstFilled(one, column, Get(layer[0], column)) {
      if !IsBlank(Get(layer[0], column)) {
        assert FirstAt(one, column, 0);
      }
    }
  }

  /** The trade id and the first ingestion, from one more row. */
  function Stamped(filled: Row, other: Row): Row {
    var named :=
      if IsHashId(TradeIdOf(filled)) && RealId(other) then filled[TradeId := Text(TradeIdOf(other))] else filled;
    named[IngestedAt := Text(EarlierStamp(IngestedWhen(named), IngestedWhen(other)))]
  }

  /** The primary after one more row of its position. */
  function MergeRow(primary: Row, other: Row): Row {
    Stamped(Filled(primary, other, |FILLABLE|), other)
  }

  /** How the next primary is made of the primary and one more row. */
  predicate Follows(primary: Row, other: Row, next: Row) {
    && (forall column | column in FILLABLE :: Get(next, column) == FilledCell(primary, other, column))
    && Keeps(next, primary)
    && TradeIdOf(next) == BetterId(TradeIdOf(primary), other)
    && Raw(Get(next, IngestedAt)) == EarlierStamp(IngestedWhen(primary), IngestedWhen(other))
  }

  predicate IsFilled(primary: Row, other: Row, filled: Row) {
    forall column :: Get(filled, column) == FilledCell(primary, other, column)
  }

  lemma StampedElsewhere(filled: Row, other: Row, column: Column)
    requires column != TradeId && column != IngestedAt
    ensures Get(Stamped(filled, other), column) == Get(filled, column)
  {
  }

  lemma StampedHere(filled: Row, other: Row)
    ensures TradeIdOf(Stamped(filled, other)) == BetterId(TradeIdOf(filled), other)
    ensures Raw(Get(Stamped(filled, other), IngestedAt)) == EarlierStamp(IngestedWhen(filled), IngestedWhen(other))
  {
  }

  lemma StampedFollows(primary: Row, other: Row, filled: Row)
    requires IsFilled(primary, other, filled)
    ensures Follows(primary, other, Stamped(filled, other))
  {
    hide Stamped, BetterId, EarlierStamp, IsBlank;
    assert Get(filled, TradeId) == FilledCell(primary, other, TradeId);
    assert Get(filled, IngestedAt) == FilledCell(primary, other, IngestedAt);
    StampedHere(filled, other);
    forall column | column != TradeId && column != IngestedAt
      ensures Get(Stamped(filled, other), column) == FilledCell(primary, other, column)
    {
      StampedElsewhere(filled, other, column);
    }
  }

  lemma MergeRowFollows(primary: Row, other: Row)
    ensures Follows(primary, other, MergeRow(primary, other))
  {
    var filled := Filled(primary, other, |FILLABLE|);
    forall column ensures Get(filled, column) == FilledCell(primary, other, column) {
      AllFilled(primary, other, column);
    }
    StampedFollows(primary, other, filled);
  }

  lemma AllFilled(primary: Row, other: Row, column: Column)
    ensures Get(Filled(primary, other, |FILLABLE|), column) == FilledCell(primary, other, column)
  {
    FilledCells(primary, other, |FILLABLE|, column);
    assert FILLABLE[..|FILLABLE|] == FILLABLE;
  }

  lemma NextRowMerged(layer: seq<Row>, n: nat, primary: Row)
    requires 0 < n < |layer| && MergedSoFar(primary, layer, n)
    ensures MergedSoFar(MergeRow(primary, layer[n]), layer, n + 1)
  {
    MergeRowFollows(primary, layer[n]);
    FillsStep(layer, n, primary, MergeRow(primary, layer[n]));
    BestIdStep(layer, n, TradeIdOf(primary));
    EarliestStep(layer, n, IngestedWhen(primary));
  }

  /** The primary after the first n rows of a position. */
  function MergeRows(layer: seq<Row>, n: nat): Row
    requires 0 < n <= |layer|
  {
    if n == 1 then layer[0] else MergeRow(MergeRows(layer, n - 1), layer[n - 1])
  }

  /** What holds of the first row and is kept by every further one holds of the merged rows. */
  lemma {:induction false} MergeRowsKeep(layer: seq<Row>, n: nat, holds: (Row, nat) -> bool)
    requires 0 < n <= |layer| && holds(layer[0], 1)
    requires forall primary: Row, k: nat | 0 < k < |layer| && holds(primary, k) ::
      holds(MergeRow(primary, layer[k]), k + 1)
    ensures holds(MergeRows(layer, n), n)
  {
    if n > 1 {
      MergeRowsKeep(layer, n - 1, holds);
      assert holds(MergeRow(MergeRows(layer, n - 1), layer[n - 1]), n - 1 + 1);
    }
  }

  lemma RowsAreMerged(layer: seq<Row>, n: nat)
    requires 0 < n <= |layer|
    ensures MergedSoFar(MergeRows(layer, n), layer, n)
  {
    hide MergeRow, MergedSoFar;
    var holds := (primary: Row, k: nat) => 0 < k <= |layer| && MergedSoFar(primary, layer, k);
    FirstRowMerged(layer);
    forall primary: Row, k: nat | 0 < k < |layer| && holds(primary, k)
      ensures holds(MergeRow(primary, layer[k]), k + 1)
    {
      NextRowMerged(layer, k, primary);
    }
    MergeRowsKeep(layer, n, holds);
  }

  /** The trade of one position. */
  function Merged(nk: string, layer: seq<Row>): Trade
    requires layer != []
  {
    Trade(nk, MergeRows(layer, |layer|), Kinds(layer))
  }

  lemma MergedIsMerge(nk: string, layer: seq<Row>)
    requires layer != []
    ensures IsMerge(Merged(nk, layer), layer)
  {
    RowsAreMerged(layer, |layer|);
    assert layer[..|layer|] == layer;
  }

  lemma MergedSources(nk: string, layer: seq<Row>)
    requires layer != []
    ensures |Merged(nk, layer).sources| == |layer|
  {
  }

  /** The inner loops of `merge`: one position. */
  method MergeLayer(nk: string, layer: seq<Row>) returns (trade: Trade)
    requires layer != []
    ensures trade == Merged(nk, layer)
  {
    hide IngestedWhen;
    var primary := layer[0];
    for n := 1 to |layer|
      invariant primary == MergeRows(layer, n)
    {
      var other := layer[n];
      var filled := primary;
      for c := 0 to |FILLABLE|
        invariant filled == Filled(primary, other, c)
      {
        if IsBlank(Get(filled, FILLABLE[c])) && !IsBlank(Get(other, FILLABLE[c])) {
          filled := filled[FILLABLE[c] := Get(other, FILLABLE[c])];
        }
      }
      if IsHashId(TradeIdOf(filled)) && RealId(other) {
        filled := filled[TradeId := Text(TradeIdOf(other))];
      }
      primary := filled[IngestedAt := Text(EarlierStamp(IngestedWhen(filled), IngestedWhen(other)))];
    }
    trade := Trade(nk, primary, Kinds(layer));
  }

  // ---------- the merge ----------

  /** Trades of one natural key, in the order they were made. */
  function TradesOf(trades: seq<Trade>, key: string): seq<Trade> {
    if trades == [] then []
    else
      var n := |trades| - 1;
      TradesOf(trades[..n], key) + if trades[n].nk == key then [trades[n]] else []
  }

  /** The trades of the first n positions of a group: one for each, the merge of its layer. */
  function GroupTrades(key: string, group: seq<Row>, order: seq<string>, n: nat): (trades: seq<Trade>)
    requires n <= Depth(group, order)
    ensures |trades| == n
  {
    if n == 0 then []
    else
      LayerHolds(group, order, n - 1);
      GroupTrades(key, group, order, n - 1) + [Merged(key, Layer(group, order, n - 1))]
  }

  function TradesOfGroup(key: string, group: seq<Row>): seq<Trade> {
    var order := Sources(group);
    GroupTrades(key, group, order, Depth(group, order))
  }

  /** What the loops of `merge` make of the raw rows, but for the order of the groups. */
  ghost predicate MergesAll(trades: seq<Trade>, rows: seq<Row>) {
    forall key :: TradesOf(trades, key) == TradesOfGroup(key, OfKey(WithKeys(rows), key))
  }

  method MergeGroup(key: string, group: seq<Row>) returns (trades: seq<Trade>)
    ensures trades == TradesOfGroup(key, group)
  {
    var order := Sources(group);
    trades := [];
    for i := 0 to Depth(group, order)
      invariant trades == GroupTrades(key, group, order, i)
    {
      LayerHolds(group, order, i);
      var trade := MergeLayer(key, Layer(group, order, i));
      trades := trades + [trade];
    }
  }

  lemma {:induction false} TradesOfAppend(a: seq<Trade>, b: seq<Trade>, key: string)
    ensures TradesOf(a + b, key) == TradesOf(a, key) + TradesOf(b, key)
    decreases |b|
  {
    if b == [] {
      assert a + b == a;
    } else {
      var n := |b| - 1;
      TradesOfAppend(a, b[..n], key);
      assert (a + b)[..|a + b| - 1] == a + b[..n];
    }
  }

  lemma {:induction false} AllOrNone(trades: seq<Trade>, own: string, key: string)
    requires forall i | 0 <= i < |trades| :: trades[i].nk == own
    ensures TradesOf(trades, key) == if key == own then trades else []
    decreases |trades|
  {
    if trades != [] {
      AllOrNone(trades[..|trades| - 1], own, key);
    }
  }

  lemma {:induction false} GroupTradesAt(key: string, group: seq<Row>, order: seq<string>, n: nat, i: nat)
    requires i < n <= Depth(group, order)
    ensures Layer(group, order, i) != []
    ensures GroupTrades(key, group, order, n)[i] == Merged(key, Layer(group, order, i))
  {
    LastGroupTrade(key, group, order, n);
    if i < n - 1 {
      GroupTradesAt(key, group, order, n - 1, i);
    }
  }

  lemma LastGroupTrade(key: string, group: seq<Row>, order: seq<string>, n: nat)
    requires 0 < n <= Depth(group, order)
    ensures Layer(group, order, n - 1) != []
    ensures GroupTrades(key, group, order, n)
         == GroupTrades(key, group, order, n - 1) + [Merged(key, Layer(group, order, n - 1))]
  {
    LayerHolds(group, order, n - 1);
  }

  lemma GroupHasItsKey(key: string, group: seq<Row>)
    ensures forall i | 0 <= i < |TradesOfGroup(key, group)| :: TradesOfGroup(key, group)[i].nk == key
  {
    var order := Sources(group);
    var more := GroupTrades(key, group, order, Depth(group, order));
    forall i: nat | i < |more| ensures more[i].nk == key {
      GroupTradesAt(key, group, order, |more|, i);
    }
  }

  lemma OneMoreGroup(trades: seq<Trade>, key: string, group: seq<Row>, k: string)
    requires TradesOf(trades, key) == []
    ensures TradesOf(trades + TradesOfGroup(key, group), k)
         == if k == key then TradesOfGroup(key, group) else TradesOf(trades, k)
  {
    hide TradesOfGroup;
    GroupHasItsKey(key, group);
    TradesOfAppend(trades, TradesOfGroup(key, group), k);
    AllOrNone(TradesOfGroup(key, group), key, k);
  }

  /** The keys of the groups, in order. */
  function GroupKeys(rows: seq<Keyed>): seq<string> {
    if rows == [] then [] else InsertOnce(GroupKeys(rows[..|rows| - 1]), rows[|rows| - 1].nk, StringLess)
  }

  lemma TextIsOrdered()
    ensures TotalOrder(StringLess)
  {
    forall a ensures !StringLess(a, a) {
      StringLessIrreflexive(a);
    }
    forall a, b, c | StringLess(a, b) && StringLess(b, c) ensures StringLess(a, c) {
      StringLessTransitive(a, b, c);
    }
    forall a, b ensures a == b || StringLess(a, b) || StringLess(b, a) {
      StringLessTotal(a, b);
    }
  }

  lemma {:induction false} GroupKeysAscend(rows: seq<Keyed>)
    ensures Ascending(GroupKeys(rows), StringLess)
    ensures forall row | row in rows :: row.nk in GroupKeys(rows)
    decreases |rows|
  {
    if rows != [] {
      var n := |rows| - 1;
      GroupKeysAscend(rows[..n]);
      TextIsOrdered();
      InsertOnceKeeps(GroupKeys(rows[..n]), rows[n].nk, StringLess);
      assert rows == rows[..n] + [rows[n]];
    }
  }

  lemma {:induction false} NoGroup(rows: seq<Keyed>, key: string)
    requires forall row | row in rows :: row.nk != key
    ensures OfKey(rows, key) == []
    decreases |rows|
  {
    if rows != [] {
      NoGroup(rows[..|rows| - 1], key);
    }
  }

  /** The groups of these keys, and no others, have been merged. */
  ghost predicate MergedFor(trades: seq<Trade>, rows: seq<Keyed>, done: seq<string>) {
    && (forall k :: TradesOf(trades, k) == if k in done then TradesOfGroup(k, OfKey(rows, k)) else [])
    && (forall t | t in trades :: t.nk in done)
  }

  lemma OneMoreKey(trades: seq<Trade>, rows: seq<Keyed>, done: seq<string>, key: string)
    requires MergedFor(trades, rows, done) && key !in done
    ensures MergedFor(trades + TradesOfGroup(key, OfKey(rows, key)), rows, done + [key])
  {
    hide TradesOfGroup, TradesOf, OfKey;
    var more := TradesOfGroup(key, OfKey(rows, key));
    forall k
      ensures TradesOf(trades + more, k) == if k in done + [key] then TradesOfGroup(k, OfKey(rows, k)) else []
    {
      OneMoreGroup(trades, key, OfKey(rows, key), k);
    }
    GroupHasItsKey(key, OfKey(rows, key));
  }

  lemma EveryKeyMerged(trades: seq<Trade>, rows: seq<Row>)
    requires MergedFor(trades, WithKeys(rows), GroupKeys(WithKeys(rows)))
    ensures MergesAll(trades, rows)
  {
    var keyed := WithKeys(rows);
    GroupKeysAscend(keyed);
    forall k ensures TradesOf(trades, k) == TradesOfGroup(k, OfKey(keyed, k)) {
      if k !in GroupKeys(keyed) {
        NoGroup(keyed, k);
      }
    }
  }

  predicate KeyBefore(a: Trade, b: Trade) { StringLess(a.nk, b.nk) }

  /** A group behind groups of smaller keys. */
  lemma GroupsInOrder(trades: seq<Trade>, more: seq<Trade>, done: seq<string>, key: string)
    requires InOrder(trades, KeyBefore) && forall t | t in trades :: t.nk in done
    requires forall t | t in more :: t.nk == key
    requires forall k | k in done :: !StringLess(key, k)
    ensures InOrder(trades + more, KeyBefore)
  {
    var all := trades + more;
    StringLessIrreflexive(key);
    forall i, j | 0 <= i < j < |all| ensures !KeyBefore(all[j], all[i]) {
      if j < |trades| {
        assert !KeyBefore(trades[j], trades[i]);
      } else {
        assert all[j] in more && (i < |trades| ==> all[i] in trades) && (i >= |trades| ==> all[i] in more);
      }
    }
  }

  lemma LargestSoFar(keys: seq<string>, n: nat)
    requires Ascending(keys, StringLess) && n < |keys|
    ensures keys[n] !in keys[..n] && forall k | k in keys[..n] :: !StringLess(keys[n], k)
  {
    forall i | 0 <= i < n ensures keys[i] != keys[n] && !StringLess(keys[n], keys[i]) {
      assert StringLess(keys[i], keys[n]);
      StringLessIrreflexive(keys[i]);
      if StringLess(keys[n], keys[i]) {
        StringLessTransitive(keys[i], keys[n], keys[i]);
      }
    }
  }

  /** The groups of the first n keys have been merged, in order. */
  ghost predicate MergedUpTo(trades: seq<Trade>, rows: seq<Keyed>, keys: seq<string>, n: nat)
    requires n <= |keys|
  {
    MergedFor(trades, rows, keys[..n]) && InOrder(trades, KeyBefore)
  }

  lemma NothingMerged(rows: seq<Keyed>, keys: seq<string>)
    ensures MergedUpTo([], rows, keys, 0)
  {
  }

  lemma NextGroup(trades: seq<Trade>, rows: seq<Keyed>, keys: seq<string>, n: nat)
    requires Ascending(keys, StringLess) && n < |keys| && MergedUpTo(trades, rows, keys, n)
    ensures MergedUpTo(trades + TradesOfGroup(keys[n], OfKey(rows, keys[n])), rows, keys, n + 1)
  {
    hide TradesOfGroup, TradesOf, Ascending;
    LargestSoFar(keys, n);
    OneMoreKey(trades, rows, keys[..n], keys[n]);
    GroupHasItsKey(keys[n], OfKey(rows, keys[n]));
    GroupsInOrder(trades, TradesOfGroup(keys[n], OfKey(rows, keys[n])), keys[..n], keys[n]);
    assert keys[..n + 1] == keys[..n] + [keys[n]];
  }

  method MergeKeyed(rows: seq<Keyed>) returns (trades: seq<Trade>)
    ensures MergedFor(trades, rows, GroupKeys(rows)) && InOrder(trades, KeyBefore)
  {
    var keys := GroupKeys(rows);
    GroupKeysAscend(rows);
    hide TradesOfGroup, GroupKeys, MergedFor, InOrder, Ascending, OfKey;
    trades := [];
    NothingMerged(rows, keys);
    for n := 0 to |keys|
      invariant MergedUpTo(trades, rows, keys, n)
    {
      var more := MergeGroup(keys[n], OfKey(rows, keys[n]));
      NextGroup(trades, rows, keys, n);
      trades := trades + more;
    }
    assert keys[..|keys|] == keys;
  }

  // ---------- the display order ----------

  /** `_SORT_KEYS` */
  function SortKeys(row: Row): seq<string> {
    [Raw(Get(row, Account)), Raw(Get(row, TradeDate)), Raw(Get(row, TradeTime)), Raw(Get(row, Code)),
     Raw(Get(row, Side)), Raw(Get(row, TradeId))]
  }

  predicate DisplayBefore(a: Trade, b: Trade) { TupleLess(SortKeys(a.row), SortKeys(b.row)) }

  lemma DisplayIsAnOrder()
    ensures WeakOrder(DisplayBefore)
  {
    forall a: Trade, b: Trade | DisplayBefore(a, b) ensures !DisplayBefore(b, a) {
      if DisplayBefore(b, a) {
        TupleLessTransitive(SortKeys(a.row), SortKeys(b.row), SortKeys(a.row));
      }
      TupleLessIrreflexive(SortKeys(a.row));
    }
    forall a: Trade, b: Trade, c: Trade | !DisplayBefore(a, b) && !DisplayBefore(b, c) ensures !DisplayBefore(a, c) {
      NotBeforeIsTransitive(SortKeys(a.row), SortKeys(b.row), SortKeys(c.row));
    }
  }

  lemma NotBeforeIsTransitive(a: seq<string>, b: seq<string>, c: seq<string>)
    requires !TupleLess(a, b) && !TupleLess(b, c)
    ensures !TupleLess(a, c)
  {
    TupleLessTotal(a, b);
    TupleLessTotal(b, c);
    TupleLessIrreflexive(c);
    if TupleLess(a, c) && b != a && b != c {
      TupleLessTransitive(a, c, b);
      TupleLessTransitive(a, b, a);
      TupleLessIrreflexive(a);
    }
  }

  /** `merge`: the groups by key, one after another, and then a stable sort of all trades for display. */
  ghost predicate Merges(trades: seq<Trade>, built: seq<Trade>, rows: seq<Row>) {
    MergesAll(built, rows) && InOrder(built, KeyBefore) && StablySorted(trades, built, DisplayBefore)
  }

  method Merge(rows: seq<Row>) returns (trades: seq<Trade>)
    ensures exists built :: Merges(trades, built, rows)
  {
    var groups := MergeKeyed(WithKeys(rows));
    EveryKeyMerged(groups, rows);
    DisplayIsAnOrder();
    SortIsStablySorted(groups, DisplayBefore);
    trades := Sort(groups, DisplayBefore);
    assert Merges(trades, groups, rows);
  }

  // ---------- what a merge keeps ----------

  /** Filling and stamping never move a row to another natural key. */
  lemma MergeKeepsKey(row: Row, primary: Row)
    requires Keeps(row, primary)
    ensures NaturalKey(row) == NaturalKey(primary)
  {
    assert forall column | column in {Account, TradeDate, Code, Side, Price, Qty, Amount} ::
        Get(row, column) == Get(primary, column);
  }

  lemma KeyedRowsKnowTheirKey(rows: seq<Row>, key: string, row: Row)
    requires row in OfKey(WithKeys(rows), key)
    ensures row in rows && MergeKey(row) == key
  {
    OfKeyHolds(WithKeys(rows), key);
    var i :| 0 <= i < |rows| && WithKeys(rows)[i] == Keyed(key, row);
  }

  /** The trades of a key: one for each position, merged from the rows of that key at that position, the best
      source first, and still of that key. Positions follow the sequence numbers, and between rows of one number
      the order of the file. */
  lemma TradesOfKey(trades: seq<Trade>, rows: seq<Row>, key: string, i: nat)
    requires MergesAll(trades, rows) && i < |TradesOf(trades, key)|
    ensures var group := OfKey(WithKeys(rows), key);
            var layer := Layer(group, Sources(group), i);
            && layer != [] && (forall row | row in layer :: row in rows && MergeKey(row) == key)
            && (forall row | row in layer :: TakenAt(group, row, i))
            && (forall source :: StablySorted(From(group, source), OfSource(group, source), SeqBefore))
            && IsMerge(TradesOf(trades, key)[i], layer)
            && NaturalKey(TradesOf(trades, key)[i].row) == NaturalKey(layer[0])
  {
    hide IsMerge, StablySorted, TakenAt, Merged, GroupTrades, Layer, Sources, From, OfKey, NaturalKey;
    var group := OfKey(WithKeys(rows), key);
    var order := Sources(group);
    var layer := Layer(group, order, i);
    GroupTradesAt(key, group, order, Depth(group, order), i);
    MergedIsMerge(key, layer);
    LayerHolds(group, order, i);
    MergedKeepsKey(key, layer);
    forall source ensures StablySorted(From(group, source), OfSource(group, source), SeqBefore) {
      FromIsSorted(group, source);
    }
    forall row | row in layer ensures row in rows && MergeKey(row) == key {
      KeyedRowsKnowTheirKey(rows, key, row);
    }
  }

  lemma MergedKeepsKey(key: string, layer: seq<Row>)
    requires layer != []
    ensures NaturalKey(Merged(key, layer).row) == NaturalKey(layer[0])
  {
    MergedIsMerge(key, layer);
    hide Merged;
    MergeKeepsKey(Merged(key, layer).row, layer[0]);
  }

  lemma FromIsSorted(group: seq<Row>, source: string)
    ensures StablySorted(From(group, source), OfSource(group, source), SeqBefore)
  {
    hide StablySorted;
    SortIsStablySorted(OfSource(group, source), SeqBefore);
  }
}
