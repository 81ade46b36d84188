/** The merge neither loses a raw row nor uses one twice (autoresearch/broker/store.py, `merge`). */
module MergeConservation {
  import opened Strings
  import opened BrokerSchema
  import opened RawStore
  import opened BrokerMerge
  import opened StableSort

  function SumTo<T>(f: nat -> multiset<T>, n: nat): multiset<T> {
    if n == 0 then multiset{} else SumTo(f, n - 1) + f(n - 1)
  }

  lemma {:induction false} SumSplits<T>(f: nat -> multiset<T>, g: nat -> multiset<T>, h: nat -> multiset<T>, n: nat)
    requires forall i: nat | i < n :: f(i) == g(i) + h(i)
    ensures SumTo(f, n) == SumTo(g, n) + SumTo(h, n)
  {
    if n > 0 {
      SumSplits(f, g, h, n - 1);
    }
  }

  function LayerAt(group: seq<Row>, order: seq<string>): nat -> multiset<Row> {
    (i: nat) => multiset(Layer(group, order, i))
  }

  /** The rows of the first n positions of a group. */
  function LayerRows(group: seq<Row>, order: seq<string>, n: nat): multiset<Row> { SumTo(LayerAt(group, order), n) }

  function SourceRows(group: seq<Row>, order: seq<string>): multiset<Row> {
    if order == [] then multiset{} else multiset(From(group, order[0])) + SourceRows(group, order[1..])
  }

  function PlaceOf<T>(rows: seq<T>): nat -> multiset<T> {
    (i: nat) => if i < |rows| then multiset{rows[i]} else multiset{}
  }

  function Taken<T>(rows: seq<T>, n: nat): multiset<T> {
    multiset(rows[..if n <= |rows| then n else |rows|])
  }

  lemma TakeOneMore<T>(rows: seq<T>, n: nat)
    ensures Taken(rows, n + 1) == Taken(rows, n) + PlaceOf(rows)(n)
  {
    if n < |rows| {
      assert rows[..n + 1] == rows[..n] + [rows[n]];
    }
  }

  lemma {:induction false} PlacesAreRows<T>(rows: seq<T>, n: nat)
    ensures SumTo(PlaceOf(rows), n) == Taken(rows, n)
  {
    if n > 0 {
      PlacesAreRows(rows, n - 1);
      TakeOneMore(rows, n - 1);
    }
  }

  lemma LayerPeels(group: seq<Row>, order: seq<string>, i: nat)
    requires order != []
    ensures LayerAt(group, order)(i) == PlaceOf(From(group, order[0]))(i) + LayerAt(group, order[1..])(i)
  {
  }

  lemma PeelSource(group: seq<Row>, order: seq<string>, n: nat)
    requires order != [] && |From(group, order[0])| <= n
    ensures LayerRows(group, order, n) == multiset(From(group, order[0])) + LayerRows(group, order[1..], n)
  {
    var rows := From(group, order[0]);
    forall i: nat | i < n ensures LayerAt(group, order)(i) == PlaceOf(rows)(i) + LayerAt(group, order[1..])(i) {
      LayerPeels(group, order, i);
    }
    SumSplits(LayerAt(group, order), PlaceOf(rows), LayerAt(group, order[1..]), n);
    PlacesAreRows(rows, n);
    assert rows[..|rows|] == rows;
  }

  lemma {:induction false} NoSourceNoRows(group: seq<Row>, n: nat)
    ensures LayerRows(group, [], n) == multiset{}
  {
    if n > 0 {
      NoSourceNoRows(group, n - 1);
    }
  }

  lemma {:induction false} LayersAreSources(group: seq<Row>, order: seq<string>, n: nat)
    requires Depth(group, order) <= n
    ensures LayerRows(group, order, n) == SourceRows(group, order)
    decreases |order|
  {
    if order == [] {
      NoSourceNoRows(group, n);
    } else {
      PeelSource(group, order, n);
      LayersAreSources(group, order[1..], n);
    }
  }

  lemma {:induction false} OfSourceCount(group: seq<Row>, source: string, row: Row)
    ensures multiset(OfSource(group, source))[row] == if Kind(row) == source then multiset(group)[row] else 0
    decreases |group|
  {
    if group != [] {
      var n := |group| - 1;
      OfSourceCount(group[..n], source, row);
      LastCount(group, row);
      if Kind(group[n]) == source {
        LastCount(OfSource(group, source), row);
      } else {
        assert OfSource(group, source) == OfSource(group[..n], source);
      }
    }
  }

  lemma LastCount<T>(s: seq<T>, x: T)
    requires s != []
    ensures multiset(s)[x] == multiset(s[..|s| - 1])[x] + if s[|s| - 1] == x then 1 else 0
  {
    assert s == s[..|s| - 1] + [s[|s| - 1]];
  }

  lemma FromCount(group: seq<Row>, source: string, row: Row)
    ensures multiset(From(group, source))[row] == if Kind(row) == source then multiset(group)[row] else 0
  {
    SortKeeps(OfSource(group, source), SeqBefore);
    OfSourceCount(group, source, row);
  }

  lemma HeadOnce(order: seq<string>, s: string)
    requires order != [] && forall i, j | 0 <= i < j < |order| :: order[i] != order[j]
    ensures s in order <==> s == order[0] || s in order[1..]
    ensures !(s == order[0] && s in order[1..])
  {
    assert order == [order[0]] + order[1..];
  }

  lemma {:induction false} SourceRowsCount(group: seq<Row>, order: seq<string>, row: Row)
    requires forall i, j | 0 <= i < j < |order| :: order[i] != order[j]
    ensures SourceRows(group, order)[row] == if Kind(row) in order then multiset(group)[row] else 0
    decreases |order|
  {
    if order != [] {
      SourceRowsCount(group, order[1..], row);
      FromCount(group, order[0], row);
      HeadOnce(order, Kind(row));
    }
  }

  lemma SourcesAreDistinct(group: seq<Row>)
    ensures forall i, j | 0 <= i < j < |Sources(group)| :: Sources(group)[i] != Sources(group)[j]
  {
    var order := Sources(group);
    SourcesAreBestFirst(group);
    forall i, j | 0 <= i < j < |order| ensures order[i] != order[j] {
      assert SourceBefore(order[i], order[j]);
      StringLessIrreflexive(order[i]);
    }
  }

  /** Every raw row of a group goes into exactly one of its trades. */
  lemma EveryRowIsMergedOnce(group: seq<Row>)
    ensures LayerRows(group, Sources(group), Depth(group, Sources(group))) == multiset(group)
  {
    var order := Sources(group);
    LayersAreSources(group, order, Depth(group, order));
    SourcesAreDistinct(group);
    SourcesAreBestFirst(group);
    forall row ensures SourceRows(group, order)[row] == multiset(group)[row] {
      SourceRowsCount(group, order, row);
    }
  }

  /** A group has as many trades as the source with the most rows of it. */
  lemma {:induction false} DepthIsLargestCount(group: seq<Row>, order: seq<string>)
    ensures forall s | s in order :: |OfSource(group, s)| <= Depth(group, order)
    ensures order != [] ==> exists s :: s in order && |OfSource(group, s)| == Depth(group, order)
    decreases |order|
  {
    if order != [] {
      DepthIsLargestCount(group, order[1..]);
      FromHolds(group, order[0]);
      assert order == [order[0]] + order[1..];
    }
  }
}
