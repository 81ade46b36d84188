/** The numbering loop of `normalize` (autoresearch/broker/schema.py): sort the batch, count within each
    group, then make one identity a row. */
module BrokerNumbering {
  import opened Strings
  import opened BrokerSchema
  import opened BrokerIdentity

  // ---------- the sorted order ----------

  /** The order of the stable sort: by time and trade id, and by place in the file between equals. */
  predicate Precedes(rows: seq<Row>, j: nat, i: nat)
    requires j < |rows| && i < |rows|
  {
    Earlier(rows[j], rows[i]) || (Time(rows[j]) == Time(rows[i]) && Id(rows[j]) == Id(rows[i]) && j < i)
  }

  predicate Places(order: seq<nat>, rows: seq<Row>) { forall k | 0 <= k < |order| :: order[k] < |rows| }

  function Insert(order: seq<nat>, rows: seq<Row>, i: nat): (r: seq<nat>)
    requires Places(order, rows) && i < |rows|
    ensures Places(r, rows) && |r| == |order| + 1
  {
    if order == [] || Earlier(rows[i], rows[order[0]]) then [i] + order
    else [order[0]] + Insert(order[1..], rows, i)
  }

  /** `sort_values(["trade_time", "trade_id"], kind="stable")`, as places in the file. */
  function StableOrder(rows: seq<Row>, n: nat): (order: seq<nat>)
    requires n <= |rows|
    ensures Places(order, rows) && |order| == n
  {
    if n == 0 then [] else Insert(StableOrder(rows, n - 1), rows, n - 1)
  }

  predicate Ordered(order: seq<nat>, rows: seq<Row>)
    requires Places(order, rows)
  {
    forall a, b | 0 <= a < b < |order| :: Precedes(rows, order[a], order[b])
  }

  lemma EarlierTransitive(a: Row, b: Row, c: Row)
    requires Earlier(a, b) && Earlier(b, c)
    ensures Earlier(a, c)
  {
    if Time(a) == Time(b) == Time(c) {
      StringLessTransitive(Id(a), Id(b), Id(c));
    } else if Time(a) != Time(b) && Time(b) != Time(c) {
      StringLessTransitive(Time(a), Time(b), Time(c));
      StringLessIrreflexive(Time(a));
    }
  }

  lemma EarlierTotal(a: Row, b: Row)
    ensures Earlier(a, b) || Earlier(b, a) || (Time(a) == Time(b) && Id(a) == Id(b))
    ensures !Earlier(a, a)
  {
    StringLessTotal(Time(a), Time(b));
    StringLessTotal(Id(a), Id(b));
    StringLessIrreflexive(Id(a));
  }

  lemma PrecedesTransitive(rows: seq<Row>, i: nat, j: nat, k: nat)
    requires i < |rows| && j < |rows| && k < |rows| && Precedes(rows, i, j) && Precedes(rows, j, k)
    ensures Precedes(rows, i, k)
  {
    if Earlier(rows[i], rows[j]) && Earlier(rows[j], rows[k]) {
      EarlierTransitive(rows[i], rows[j], rows[k]);
    }
  }

  lemma PrecedesAsymmetric(rows: seq<Row>, i: nat, j: nat)
    requires i < |rows| && j < |rows| && Precedes(rows, i, j)
    ensures !Precedes(rows, j, i)
  {
    if Earlier(rows[i], rows[j]) && Earlier(rows[j], rows[i]) {
      EarlierTransitive(rows[i], rows[j], rows[i]);
    }
    EarlierTotal(rows[i], rows[i]);
    EarlierTotal(rows[j], rows[j]);
  }

  /** Inserting a later place keeps the order. */
  lemma {:induction false} InsertKeepsOrder(order: seq<nat>, rows: seq<Row>, i: nat)
    requires Places(order, rows) && i < |rows| && Ordered(order, rows)
    requires forall k | 0 <= k < |order| :: order[k] < i
    ensures Ordered(Insert(order, rows, i), rows)
    ensures forall k | 0 <= k < |order| + 1 :: Insert(order, rows, i)[k] in order || Insert(order, rows, i)[k] == i
    decreases |order|
  {
    if order == [] {
    } else if Earlier(rows[i], rows[order[0]]) {
      var r := [i] + order;
      forall b | 1 <= b < |r| ensures Precedes(rows, i, r[b]) {
        if b > 1 {
          PrecedesTransitive(rows, i, order[0], order[b - 1]);
        }
      }
    } else {
      var rest := Insert(order[1..], rows, i);
      InsertKeepsOrder(order[1..], rows, i);
      EarlierTotal(rows[i], rows[order[0]]);
      forall b | 0 <= b < |rest| ensures Precedes(rows, order[0], rest[b]) {
        if rest[b] != i {
          var c :| 0 <= c < |order[1..]| && order[1..][c] == rest[b];
          assert order[c + 1] == rest[b];
        }
      }
    }
  }

  lemma {:induction false} StableOrderIsOrdered(rows: seq<Row>, n: nat)
    requires n <= |rows|
    ensures Ordered(StableOrder(rows, n), rows)
    ensures forall k | 0 <= k < n :: StableOrder(rows, n)[k] < n
  {
    hide Insert;
    if n > 0 {
      StableOrderIsOrdered(rows, n - 1);
      InsertKeepsOrder(StableOrder(rows, n - 1), rows, n - 1);
    }
  }

  lemma {:induction false} InsertHolds(order: seq<nat>, rows: seq<Row>, i: nat)
    requires Places(order, rows) && i < |rows|
    ensures i in Insert(order, rows, i) && forall j | j in order :: j in Insert(order, rows, i)
    decreases |order|
  {
    if order != [] && !Earlier(rows[i], rows[order[0]]) {
      InsertHolds(order[1..], rows, i);
      assert order == [order[0]] + order[1..];
    }
  }

  lemma {:induction false} EveryPlace(rows: seq<Row>, n: nat)
    requires n <= |rows|
    ensures forall i: nat | i < n :: i in StableOrder(rows, n)
  {
    if n > 0 {
      EveryPlace(rows, n - 1);
      InsertHolds(StableOrder(rows, n - 1), rows, n - 1);
    }
  }

  // ---------- counting within a group ----------

  /** `cumcount`: how many rows of a group are among these places. */
  function InGroup(order: seq<nat>, rows: seq<Row>, group: seq<Cell>): nat
    requires Places(order, rows)
  {
    if order == [] then 0
    else
      var n := |order| - 1;
      InGroup(order[..n], rows, group) + if Group(rows[order[n]]) == group then 1 else 0
  }

  predicate Counts(rows: seq<Row>, j: nat, i: nat)
    requires j < |rows| && i < |rows|
  {
    Group(rows[j]) == Group(rows[i]) && Precedes(rows, j, i)
  }

  /** The places before the i-th row in its group, among these. */
  function Before(order: seq<nat>, rows: seq<Row>, i: nat): nat
    requires Places(order, rows) && i < |rows|
  {
    if order == [] then 0
    else (if Counts(rows, order[0], i) then 1 else 0) + Before(order[1..], rows, i)
  }

  lemma {:induction false} InsertCounts(order: seq<nat>, rows: seq<Row>, j: nat, i: nat)
    requires Places(order, rows) && j < |rows| && i < |rows|
    ensures Before(Insert(order, rows, j), rows, i) == Before(order, rows, i) + if Counts(rows, j, i) then 1 else 0
    decreases |order|
  {
    if order == [] || Earlier(rows[j], rows[order[0]]) {
      assert ([j] + order)[1..] == order;
    } else {
      InsertCounts(order[1..], rows, j, i);
      assert ([order[0]] + Insert(order[1..], rows, j))[1..] == Insert(order[1..], rows, j);
    }
  }

  function AheadOf(rows: seq<Row>, n: nat, i: nat): nat
    requires n <= |rows| && i < |rows|
  {
    Ahead(rows[..n], rows[i])
  }

  function TiedBefore(rows: seq<Row>, n: nat, i: nat): nat
    requires n <= |rows| && i < |rows|
  {
    TiedIn(rows[..if n <= i then n else i], rows[i])
  }

  lemma OneMorePlace(rows: seq<Row>, n: nat, i: nat)
    requires n < |rows| && i < |rows|
    ensures AheadOf(rows, n + 1, i)
         == AheadOf(rows, n, i) + if Group(rows[n]) == Group(rows[i]) && Earlier(rows[n], rows[i]) then 1 else 0
    ensures TiedBefore(rows, n + 1, i) == TiedBefore(rows, n, i) + if n < i && Tied(rows[n], rows[i]) then 1 else 0
  {
    assert rows[..n + 1] == rows[..n] + [rows[n]];
    AheadAppend(rows[..n], [rows[n]], rows[i]);
    TiedAppend(rows[..n], [rows[n]], rows[i]);
  }

  /** A row counts when it sorts earlier, or ties and stands earlier, never both. */
  lemma CountsOnce(rows: seq<Row>, j: nat, i: nat)
    requires j < |rows| && i < |rows|
    ensures Counts(rows, j, i)
        <==> (Group(rows[j]) == Group(rows[i]) && Earlier(rows[j], rows[i])) || (j < i && Tied(rows[j], rows[i]))
    ensures !(Earlier(rows[j], rows[i]) && Tied(rows[j], rows[i]))
  {
    StringLessIrreflexive(Id(rows[j]));
  }

  /** Over the first n places the count is what `SeqOf` adds up. */
  lemma {:induction false} BeforeIsSeq(rows: seq<Row>, n: nat, i: nat)
    requires n <= |rows| && i < |rows|
    ensures Before(StableOrder(rows, n), rows, i) == AheadOf(rows, n, i) + TiedBefore(rows, n, i)
  {
    hide Group, Earlier, Time, Id;
    if n > 0 {
      BeforeIsSeq(rows, n - 1, i);
      InsertCounts(StableOrder(rows, n - 1), rows, n - 1, i);
      OneMorePlace(rows, n - 1, i);
      CountsOnce(rows, n - 1, i);
    }
  }

  lemma {:induction false} BeforeAppend(a: seq<nat>, b: seq<nat>, rows: seq<Row>, i: nat)
    requires Places(a, rows) && Places(b, rows) && Places(a + b, rows) && i < |rows|
    ensures Before(a + b, rows, i) == Before(a, rows, i) + Before(b, rows, i)
    decreases |a|
  {
    if a == [] {
      assert a + b == b;
    } else {
      assert (a + b)[1..] == a[1..] + b;
      BeforeAppend(a[1..], b, rows, i);
    }
  }

  lemma {:induction false} AllBefore(a: seq<nat>, rows: seq<Row>, i: nat)
    requires Places(a, rows) && i < |rows|
    requires forall k | 0 <= k < |a| :: Precedes(rows, a[k], i)
    ensures Before(a, rows, i) == InGroup(a, rows, Group(rows[i]))
    decreases |a|
  {
    if a != [] {
      var n := |a| - 1;
      AllBefore(a[..n], rows, i);
      assert a == a[..n] + [a[n]];
      BeforeAppend(a[..n], [a[n]], rows, i);
    }
  }

  lemma {:induction false} NoneBefore(a: seq<nat>, rows: seq<Row>, i: nat)
    requires Places(a, rows) && i < |rows|
    requires forall k | 0 <= k < |a| :: !Precedes(rows, a[k], i)
    ensures Before(a, rows, i) == 0
    decreases |a|
  {
    if a != [] {
      NoneBefore(a[1..], rows, i);
    }
  }

  lemma CountAtTurn(order: seq<nat>, rows: seq<Row>, k: nat)
    requires Places(order, rows) && Ordered(order, rows) && k < |order|
    ensures Before(order, rows, order[k]) == InGroup(order[..k], rows, Group(rows[order[k]]))
  {
    var i, rest := order[k], order[k..];
    AllBefore(order[..k], rows, i);
    forall b | 0 <= b < |rest| ensures !Precedes(rows, rest[b], i) {
      NotAfterTurn(order, rows, k, k + b);
    }
    NoneBefore(rest, rows, i);
    assert order == order[..k] + rest;
    BeforeAppend(order[..k], rest, rows, i);
  }

  lemma NotAfterTurn(order: seq<nat>, rows: seq<Row>, k: nat, b: nat)
    requires Places(order, rows) && Ordered(order, rows) && k <= b < |order|
    ensures !Precedes(rows, order[b], order[k])
  {
    if b == k {
      EarlierTotal(rows[order[k]], rows[order[k]]);
    } else {
      PrecedesAsymmetric(rows, order[k], order[b]);
    }
  }

  /** The running count at a row's turn in the sorted order is its sequence number. */
  lemma CumcountIsSeq(rows: seq<Row>, order: seq<nat>, k: nat)
    requires order == StableOrder(rows, |rows|) && k < |rows|
    ensures InGroup(order[..k], rows, Group(rows[order[k]])) == SeqOf(rows, order[k])
  {
    StableOrderIsOrdered(rows, |rows|);
    CountAtTurn(order, rows, k);
    BeforeIsSeq(rows, |rows|, order[k]);
    assert rows[..|rows|] == rows;
  }

  // ---------- the loops ----------

  function CountOf(counts: map<seq<Cell>, nat>, group: seq<Cell>): nat {
    if group in counts then counts[group] else 0
  }

  ghost predicate Counted(counts: map<seq<Cell>, nat>, order: seq<nat>, rows: seq<Row>)
    requires Places(order, rows)
  {
    forall group :: CountOf(counts, group) == InGroup(order, rows, group)
  }

  lemma LastInGroup(order: seq<nat>, rows: seq<Row>, i: nat, group: seq<Cell>)
    requires Places(order, rows) && i < |rows|
    ensures Places(order + [i], rows)
    ensures InGroup(order + [i], rows, group) == InGroup(order, rows, group) + if Group(rows[i]) == group then 1 else 0
  {
    assert (order + [i])[..|order|] == order;
  }

  lemma CountOneMore(counts: map<seq<Cell>, nat>, order: seq<nat>, rows: seq<Row>, i: nat, group: seq<Cell>)
    requires Places(order, rows) && i < |rows| && group == Group(rows[i])
    requires Counted(counts, order, rows)
    ensures Places(order + [i], rows)
    ensures Counted(counts[group := CountOf(counts, group) + 1], order + [i], rows)
  {
    var counts' := counts[group := CountOf(counts, group) + 1];
    forall g ensures CountOf(counts', g) == InGroup(order + [i], rows, g) {
      LastInGroup(order, rows, i, g);
      assert CountOf(counts, g) == InGroup(order, rows, g);
    }
  }

  predicate Turn(order: seq<nat>, rows: seq<Row>, k: nat, n: nat)
    requires Places(order, rows) && k < |order|
  {
    InGroup(order[..k], rows, Group(rows[order[k]])) == n
  }

  /** The places already counted, with their numbers. */
  predicate Numbered(seqs: map<nat, nat>, order: seq<nat>, numbers: seq<nat>, k: nat)
    requires k <= |order|
  {
    && (forall j | 0 <= j < k :: order[j] in seqs)
    && (forall i | i in seqs :: i < |numbers| && seqs[i] == numbers[i])
  }

  lemma NumberedNext(seqs: map<nat, nat>, order: seq<nat>, numbers: seq<nat>, k: nat)
    requires k < |order| && order[k] < |numbers| && Numbered(seqs, order, numbers, k)
    ensures Numbered(seqs[order[k] := numbers[order[k]]], order, numbers, k + 1)
  {
  }

  /** `groupby(...).cumcount()` over the sorted batch, by place in the file. */
  method Cumcount(rows: seq<Row>, order: seq<nat>, ghost numbers: seq<nat>) returns (seqs: map<nat, nat>)
    requires Places(order, rows) && |numbers| == |rows|
    requires forall k | 0 <= k < |order| :: Turn(order, rows, k, numbers[order[k]])
    ensures Numbered(seqs, order, numbers, |order|)
  {
    var counts: map<seq<Cell>, nat> := map[];
    seqs := map[];
    var k := 0;
    while k < |order|
      invariant 0 <= k <= |order|
      invariant Counted(counts, order[..k], rows)
      invariant Numbered(seqs, order, numbers, k)
    {
      var i := order[k];
      var group := Group(rows[i]);
      var count := CountOf(counts, group);
      assert Turn(order, rows, k, numbers[i]);
      CountOneMore(counts, order[..k], rows, i, group);
      NumberedNext(seqs, order, numbers, k);
      assert order[..k + 1] == order[..k] + [i];
      seqs := seqs[i := count];
      counts := counts[group := count + 1];
      k := k + 1;
    }
  }

  function Numbers(rows: seq<Row>): (numbers: seq<nat>)
    ensures |numbers| == |rows|
    ensures forall i | 0 <= i < |rows| :: numbers[i] == SeqOf(rows, i)
  {
    seq(|rows|, i requires 0 <= i < |rows| => SeqOf(rows, i))
  }

  /** The loop over the rows of the numbered batch. */
  method MakeIdentities(rows: seq<Row>, source: string, seqs: map<nat, nat>, ghost numbers: seq<nat>)
    returns (ids: seq<Identity>)
    requires |numbers| == |rows| && forall i: nat | i < |rows| :: i in seqs && seqs[i] == numbers[i]
    ensures |ids| == |rows|
    ensures forall i | 0 <= i < |rows| :: ids[i] == IdentityOf(rows[i], source, numbers[i])
  {
    ids := [];
    for i := 0 to |rows|
      invariant |ids| == i && forall k | 0 <= k < i :: ids[k] == IdentityOf(rows[k], source, numbers[k])
    {
      ids := ids + [IdentityOf(rows[i], source, seqs[i])];
    }
  }

  /** The numbering and the identities of `normalize`. */
  method Normalize(rows: seq<Row>, source: string) returns (ids: seq<Identity>)
    ensures ids == Identities(rows, source)
  {
    var order := StableOrder(rows, |rows|);
    forall k | 0 <= k < |order| ensures Turn(order, rows, k, Numbers(rows)[order[k]]) {
      CumcountIsSeq(rows, order, k);
    }
    var seqs := Cumcount(rows, order, Numbers(rows));
    EveryPlace(rows, |rows|);
    forall i: nat | i < |rows| ensures i in seqs {
      assert i in order;
    }
    ids := MakeIdentities(rows, source, seqs, Numbers(rows));
  }
}
