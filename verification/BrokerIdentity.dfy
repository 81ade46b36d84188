/** Sequence numbers and row identities of one normalised batch (autoresearch/broker/schema.py, `normalize`). */
module BrokerIdentity {
  import opened Strings
  import opened Permutations
  import opened BrokerSchema

  // ---------- sequence numbers ----------

  /** The group within which rows are numbered. */
  function Group(row: Row): seq<Cell> {
    [Get(row, Account), Get(row, TradeDate), Get(row, Code), Get(row, Side), Get(row, Price), Get(row, Qty)]
  }

  function Time(row: Row): string { Raw(Get(row, TradeTime)) }

  function Id(row: Row): string { Raw(Get(row, TradeId)) }

  /** The sort key of the numbering: time, then trade id. */
  predicate Earlier(a: Row, b: Row) {
    if Time(a) != Time(b) then StringLess(Time(a), Time(b)) else StringLess(Id(a), Id(b))
  }

  /** Two rows the numbering can only tell apart by their place in the file. */
  predicate Tied(a: Row, b: Row) { Group(a) == Group(b) && Time(a) == Time(b) && Id(a) == Id(b) }

  /** The rows of the same group that sort before a row. */
  function Ahead(rows: seq<Row>, row: Row): nat {
    if rows == [] then 0
    else (if Group(rows[0]) == Group(row) && Earlier(rows[0], row) then 1 else 0) + Ahead(rows[1..], row)
  }

  function TiedIn(rows: seq<Row>, row: Row): nat {
    if rows == [] then 0 else (if Tied(rows[0], row) then 1 else 0) + TiedIn(rows[1..], row)
  }

  /** The place of the i-th row in its group, after a stable sort. */
  function SeqOf(rows: seq<Row>, i: nat): nat
    requires i < |rows|
  {
    Ahead(rows, rows[i]) + TiedIn(rows[..i], rows[i])
  }

  // ---------- identities ----------

  /** What is hashed into `row_hash`. */
  datatype Identity =
    | ById(source: string, account: string, date: string, id: string)
    | ByContent(account: string, date: string, time: string, code: string, side: string,
                price: string, qty: string, amount: string, seqNo: nat)

  function IdentityOf(row: Row, source: string, seqNo: nat): Identity {
    if Id(row) != "" then ById(source, Raw(Get(row, Account)), Raw(Get(row, TradeDate)), Id(row))
    else ByContent(Raw(Get(row, Account)), Raw(Get(row, TradeDate)), Time(row), Raw(Get(row, Code)),
                   Raw(Get(row, Side)), FormatNumber(Get(row, Price)), FormatNumber(Get(row, Qty)),
                   FormatNumber(Get(row, Amount)), seqNo)
  }

  function Identities(rows: seq<Row>, source: string): (ids: seq<Identity>)
    ensures |ids| == |rows|
  {
    seq(|rows|, i requires 0 <= i < |rows| => IdentityOf(rows[i], source, SeqOf(rows, i)))
  }

  // ---------- counting ----------

  lemma {:induction false} AheadAppend(a: seq<Row>, b: seq<Row>, row: Row)
    ensures Ahead(a + b, row) == Ahead(a, row) + Ahead(b, row)
    decreases |a|
  {
    if a == [] {
      assert a + b == b;
    } else {
      AheadAppend(a[1..], b, row);
      assert (a + b)[1..] == a[1..] + b;
    }
  }

  lemma {:induction false} TiedAppend(a: seq<Row>, b: seq<Row>, row: Row)
    ensures TiedIn(a + b, row) == TiedIn(a, row) + TiedIn(b, row)
    decreases |a|
  {
    if a == [] {
      assert a + b == b;
    } else {
      TiedAppend(a[1..], b, row);
      assert (a + b)[1..] == a[1..] + b;
    }
  }

  lemma AheadPair(x: Row, y: Row, row: Row)
    ensures Ahead([x, y], row) == Ahead([x], row) + Ahead([y], row)
    ensures TiedIn([x, y], row) == TiedIn([x], row) + TiedIn([y], row)
  {
    assert [x, y][1..] == [y];
  }

  // ---------- two neighbours change places ----------

  /** A row outside the swapped pair keeps its number. */
  lemma SwapKeepsOthers(p: seq<Row>, x: Row, y: Row, q: seq<Row>, i: nat)
    requires i < |p| + 2 + |q| && i != |p| && i != |p| + 1
    ensures (p + [x, y] + q)[i] == (p + [y, x] + q)[i]
    ensures SeqOf(p + [x, y] + q, i) == SeqOf(p + [y, x] + q, i)
  {
    var r, r' := p + [x, y] + q, p + [y, x] + q;
    SwapAhead(p, x, y, q, r[i]);
    if i < |p| {
      assert r[..i] == p[..i] == r'[..i];
    } else {
      var k := i - |p| - 2;
      assert r[..i] == p + [x, y] + q[..k] && r'[..i] == p + [y, x] + q[..k];
      SwapTied(p, x, y, q[..k], r[i]);
    }
  }

  lemma SwapAhead(p: seq<Row>, x: Row, y: Row, q: seq<Row>, row: Row)
    ensures Ahead(p + [x, y] + q, row) == Ahead(p + [y, x] + q, row)
  {
    AheadAppend(p + [x, y], q, row);
    AheadAppend(p + [y, x], q, row);
    AheadAppend(p, [x, y], row);
    AheadAppend(p, [y, x], row);
    AheadPair(x, y, row);
    AheadPair(y, x, row);
  }

  lemma SwapTied(p: seq<Row>, x: Row, y: Row, q: seq<Row>, row: Row)
    ensures TiedIn(p + [x, y] + q, row) == TiedIn(p + [y, x] + q, row)
  {
    TiedAppend(p + [x, y], q, row);
    TiedAppend(p + [y, x], q, row);
    TiedAppend(p, [x, y], row);
    TiedAppend(p, [y, x], row);
    AheadPair(x, y, row);
    AheadPair(y, x, row);
  }

  /** The numbers of the swapped pair. */
  lemma SwapNumbers(p: seq<Row>, x: Row, y: Row, q: seq<Row>)
    ensures var r := p + [x, y] + q;
            && r[|p|] == x && r[|p| + 1] == y
            && SeqOf(r, |p|) == Ahead(r, x) + TiedIn(p, x)
            && SeqOf(r, |p| + 1) == Ahead(r, y) + TiedIn(p, y) + if Tied(x, y) then 1 else 0
  {
    var r := p + [x, y] + q;
    assert r[..|p|] == p && r[..|p| + 1] == p + [x];
    TiedAppend(p, [x], y);
  }

  /** Tied rows are counted alike. */
  lemma {:induction false} TiedRowsCountAlike(rows: seq<Row>, x: Row, y: Row)
    requires Tied(x, y)
    ensures Ahead(rows, x) == Ahead(rows, y) && TiedIn(rows, x) == TiedIn(rows, y)
  {
    if rows != [] {
      TiedRowsCountAlike(rows[1..], x, y);
    }
  }

  /** Tied rows without a trade id whose amounts differ: nothing but the file order numbers them. */
  predicate Ambiguous(x: Row, y: Row) {
    Tied(x, y) && Id(x) == "" && FormatNumber(Get(x, Amount)) != FormatNumber(Get(y, Amount))
  }

  lemma SameMultiset<T>(a: seq<T>, b: seq<T>, k: nat)
    requires |a| == |b| && k + 1 < |a|
    requires forall i | 0 <= i < |a| && i != k && i != k + 1 :: a[i] == b[i]
    requires (a[k] == b[k] && a[k + 1] == b[k + 1]) || (a[k] == b[k + 1] && a[k + 1] == b[k])
    ensures multiset(a) == multiset(b)
  {
    assert a == a[..k] + [a[k], a[k + 1]] + a[k + 2..];
    assert b == a[..k] + [b[k], b[k + 1]] + a[k + 2..];
  }

  /** The identities of a swapped pair swap too, or are the same as before. */
  lemma PairIdentities(p: seq<Row>, x: Row, y: Row, q: seq<Row>, source: string)
    requires !Ambiguous(x, y)
    ensures var r, r', n := p + [x, y] + q, p + [y, x] + q, |p|;
            var a, b := IdentityOf(x, source, SeqOf(r, n)), IdentityOf(y, source, SeqOf(r, n + 1));
            var a', b' := IdentityOf(y, source, SeqOf(r', n)), IdentityOf(x, source, SeqOf(r', n + 1));
            (a == a' && b == b') || (a == b' && b == a')
  {
    var r := p + [x, y] + q;
    SwapNumbers(p, x, y, q);
    SwapNumbers(p, y, x, q);
    SwapAhead(p, x, y, q, x);
    SwapAhead(p, x, y, q, y);
    if Tied(x, y) && Id(x) == "" {
      TiedRowsCountAlike(p, x, y);
      TiedRowsCountAlike(r, x, y);
      TiedIdentitiesAgree(x, y, source, SeqOf(r, |p|));
      TiedIdentitiesAgree(x, y, source, SeqOf(r, |p| + 1));
    }
  }

  lemma SwapKeepsIdentities(p: seq<Row>, x: Row, y: Row, q: seq<Row>, source: string)
    requires !Ambiguous(x, y)
    ensures multiset(Identities(p + [x, y] + q, source)) == multiset(Identities(p + [y, x] + q, source))
  {
    var a, b := Identities(p + [x, y] + q, source), Identities(p + [y, x] + q, source);
    PairIdentities(p, x, y, q, source);
    forall i | 0 <= i < |a| && i != |p| && i != |p| + 1 ensures a[i] == b[i] {
      SwapKeepsOthers(p, x, y, q, i);
    }
    SameMultiset(a, b, |p|);
  }

  lemma TiedIdentitiesAgree(x: Row, y: Row, source: string, n: nat)
    requires Tied(x, y) && FormatNumber(Get(x, Amount)) == FormatNumber(Get(y, Amount))
    ensures IdentityOf(x, source, n) == IdentityOf(y, source, n)
  {
    assert forall k | 0 <= k < 6 :: Group(x)[k] == Group(y)[k];
  }

  // ---------- any order of the file ----------

  predicate TiesShareAmount(rows: seq<Row>) { forall x, y | x in rows && y in rows :: !Ambiguous(x, y) }

  function Swapped<T>(s: seq<T>, k: nat): (r: seq<T>)
    requires 0 < k < |s|
    ensures |r| == |s|
  {
    s[k - 1 := s[k]][k := s[k - 1]]
  }

  lemma SwappedParts<T>(s: seq<T>, k: nat)
    requires 0 < k < |s|
    ensures Swapped(s, k) == s[..k - 1] + [s[k], s[k - 1]] + s[k + 1..]
    ensures Without(Swapped(s, k), k - 1) == Without(s, k)
  {
  }

  lemma SwapInBatch(p: seq<Row>, rows: seq<Row>, k: nat, source: string)
    requires 0 < k < |rows| && !Ambiguous(rows[k - 1], rows[k])
    ensures multiset(Identities(p + rows, source)) == multiset(Identities(p + Swapped(rows, k), source))
  {
    var front, x, y, q := p + rows[..k - 1], rows[k - 1], rows[k], rows[k + 1..];
    SwappedParts(rows, k);
    assert p + rows == front + [x, y] + q;
    assert p + Swapped(rows, k) == front + [y, x] + q;
    SwapKeepsIdentities(front, x, y, q, source);
  }

  lemma {:induction false} MoveToFront(p: seq<Row>, rows: seq<Row>, k: nat, source: string)
    requires k < |rows| && forall i | 0 <= i < k :: !Ambiguous(rows[i], rows[k])
    ensures multiset(Identities(p + rows, source)) == multiset(Identities(p + ([rows[k]] + Without(rows, k)), source))
    decreases k
  {
    if k == 0 {
      assert [rows[0]] + Without(rows, 0) == rows;
    } else {
      SwapInBatch(p, rows, k, source);
      SwappedParts(rows, k);
      MoveToFront(p, Swapped(rows, k), k - 1, source);
    }
  }

  lemma {:induction false} PermutationKeepsIdentities(p: seq<Row>, a: seq<Row>, b: seq<Row>, source: string)
    requires multiset(a) == multiset(b) && TiesShareAmount(a)
    ensures multiset(Identities(p + a, source)) == multiset(Identities(p + b, source))
    decreases |a|
  {
    if a == [] {
      assert |multiset(b)| == 0;
    } else {
      var k := FindFirst(a, b);
      NoAmbiguity(a, b, k);
      MoveToFront(p, b, k, source);
      PermutationKeepsIdentities(p + [a[0]], a[1..], Without(b, k), source);
      assert p + a == p + [a[0]] + a[1..];
      assert p + ([b[k]] + Without(b, k)) == p + [a[0]] + Without(b, k);
    }
  }

  lemma NoAmbiguity(a: seq<Row>, b: seq<Row>, k: nat)
    requires multiset(a) == multiset(b) && TiesShareAmount(a) && k < |b|
    ensures forall i | 0 <= i < k :: !Ambiguous(b[i], b[k])
    ensures a != [] ==> TiesShareAmount(a[1..])
  {
    SameMembers(a, b);
  }

  /** Whatever order the rows of a batch come in, the same identities are made. */
  ghost predicate OrderFree(rows: seq<Row>, source: string) {
    forall rows' | multiset(rows') == multiset(rows) ::
      multiset(Identities(rows', source)) == multiset(Identities(rows, source))
  }

  /** The last two identities, when the last two rows are an ambiguous pair. */
  lemma AmbiguousIdentities(rest: seq<Row>, x: Row, y: Row, source: string)
    requires Ambiguous(x, y)
    ensures var r, r', n := rest + [x, y], rest + [y, x], |rest|;
            var first := IdentityOf(x, source, SeqOf(r, n));
            first != IdentityOf(y, source, SeqOf(r', n)) && first != IdentityOf(x, source, SeqOf(r', n + 1))
  {
    var r, r' := rest + [x, y], rest + [y, x];
    assert r + [] == r && r' + [] == r';
    SwapNumbers(rest, x, y, []);
    SwapNumbers(rest, y, x, []);
    SwapAhead(rest, x, y, [], x);
  }

  lemma SwapKeepsEarlier(rest: seq<Row>, x: Row, y: Row, i: nat)
    requires i < |rest|
    ensures (rest + [x, y])[i] == (rest + [y, x])[i]
    ensures SeqOf(rest + [x, y], i) == SeqOf(rest + [y, x], i)
  {
    assert rest + [x, y] + [] == rest + [x, y] && rest + [y, x] + [] == rest + [y, x];
    SwapKeepsOthers(rest, x, y, [], i);
  }

  lemma AmbiguousPairDiffers(rest: seq<Row>, x: Row, y: Row, source: string)
    requires Ambiguous(x, y)
    ensures multiset(Identities(rest + [x, y], source)) != multiset(Identities(rest + [y, x], source))
  {
    var a, b, n := Identities(rest + [x, y], source), Identities(rest + [y, x], source), |rest|;
    AmbiguousIdentities(rest, x, y, source);
    forall i | 0 <= i < n ensures a[i] == b[i] {
      SwapKeepsEarlier(rest, x, y, i);
    }
    LastTwoDiffer(a, b, n);
  }

  lemma LastTwoDiffer<T>(a: seq<T>, b: seq<T>, n: nat)
    requires |a| == |b| == n + 2 && (forall i | 0 <= i < n :: a[i] == b[i])
    requires a[n] != b[n] && a[n] != b[n + 1]
    ensures multiset(a) != multiset(b)
  {
    assert a == a[..n] + [a[n], a[n + 1]] && b == a[..n] + [b[n], b[n + 1]];
    LastTwo(a[..n], a[n], a[n + 1]);
    LastTwo(a[..n], b[n], b[n + 1]);
    assert multiset(a)[a[n]] > multiset(b)[a[n]];
  }

  lemma SplitPair(rows: seq<Row>, x: Row, y: Row) returns (rest: seq<Row>)
    requires x in rows && y in rows && x != y
    ensures multiset(rest + [x, y]) == multiset(rows) == multiset(rest + [y, x])
  {
    var i :| 0 <= i < |rows| && rows[i] == x;
    var others := Without(rows, i);
    WithoutTakesOne(rows, i);
    assert y in multiset(rows);
    assert y in multiset(others);
    var j :| 0 <= j < |others| && others[j] == y;
    rest := Without(others, j);
    WithoutTakesOne(others, j);
    LastTwo(rest, x, y);
    LastTwo(rest, y, x);
  }

  lemma AnyOrder(rows: seq<Row>, rows': seq<Row>, source: string)
    requires multiset(rows') == multiset(rows) && TiesShareAmount(rows)
    ensures multiset(Identities(rows', source)) == multiset(Identities(rows, source))
  {
    PermutationKeepsIdentities([], rows, rows', source);
    assert [] + rows == rows && [] + rows' == rows';
  }

  /** The identities of a batch do not depend on the order of its rows exactly when rows that tie
      completely, without a trade id, share an amount. */
  lemma IdentitiesIgnoreOrderExactlyWhen(rows: seq<Row>, source: string)
    ensures OrderFree(rows, source) <==> TiesShareAmount(rows)
  {
    if TiesShareAmount(rows) {
      forall rows' | multiset(rows') == multiset(rows)
        ensures multiset(Identities(rows', source)) == multiset(Identities(rows, source))
      {
        AnyOrder(rows, rows', source);
      }
    } else {
      SomeOrderDiffers(rows, source);
    }
  }

  lemma SomeOrderDiffers(rows: seq<Row>, source: string)
    requires !TiesShareAmount(rows)
    ensures !OrderFree(rows, source)
  {
    var x, y :| x in rows && y in rows && Ambiguous(x, y);
    var rest := SplitPair(rows, x, y);
    AmbiguousPairDiffers(rest, x, y, source);
    TwoOrdersDiffer(rows, rest + [x, y], rest + [y, x], source);
  }

  lemma TwoOrdersDiffer(rows: seq<Row>, a: seq<Row>, b: seq<Row>, source: string)
    requires multiset(a) == multiset(rows) == multiset(b)
    requires multiset(Identities(a, source)) != multiset(Identities(b, source))
    ensures !OrderFree(rows, source)
  {
  }

  // ---------- a wider export ----------

  /** One row of a wider export: one of the rows exported before, or one that is new in it. */
  datatype Exported = Exported(row: Row, added: bool)

  function All(rows: seq<Exported>): (r: seq<Row>)
    ensures |r| == |rows|
  {
    if rows == [] then [] else [rows[0].row] + All(rows[1..])
  }

  function Added(rows: seq<Exported>): seq<Row> {
    if rows == [] then [] else (if rows[0].added then [rows[0].row] else []) + Added(rows[1..])
  }

  /** The rows exported before, in the order they have in the wider export. */
  function Kept(rows: seq<Exported>): seq<Row> {
    if rows == [] then [] else (if rows[0].added then [] else [rows[0].row]) + Kept(rows[1..])
  }

  lemma {:induction false} CountsSplit(rows: seq<Exported>, row: Row)
    ensures Ahead(All(rows), row) == Ahead(Kept(rows), row) + Ahead(Added(rows), row)
    ensures TiedIn(All(rows), row) == TiedIn(Kept(rows), row) + TiedIn(Added(rows), row)
  {
    if rows != [] {
      CountsSplit(rows[1..], row);
      var first, rest := [rows[0].row], rows[1..];
      AheadAppend(first, All(rest), row);
      AheadAppend(first, if rows[0].added then Added(rest) else Kept(rest), row);
      TiedAppend(first, All(rest), row);
      TiedAppend(first, if rows[0].added then Added(rest) else Kept(rest), row);
      assert [] + Kept(rest) == Kept(rest) && [] + Added(rest) == Added(rest);
    }
  }

  lemma {:induction false} PartsConcat(a: seq<Exported>, b: seq<Exported>)
    ensures All(a + b) == All(a) + All(b) && Kept(a + b) == Kept(a) + Kept(b)
    decreases |a|
  {
    if a == [] {
      assert a + b == b;
    } else {
      PartsConcat(a[1..], b);
      assert (a + b)[1..] == a[1..] + b;
    }
  }

  /** Where the k-th row of the wider export stood before. */
  lemma PlaceBefore(rows: seq<Exported>, k: nat)
    requires k < |rows| && !rows[k].added
    ensures All(rows)[k] == rows[k].row && All(rows)[..k] == All(rows[..k])
    ensures var j := |Kept(rows[..k])|;
            j < |Kept(rows)| && Kept(rows)[j] == rows[k].row && Kept(rows)[..j] == Kept(rows[..k])
  {
    assert rows == rows[..k] + rows[k..];
    PartsConcat(rows[..k], rows[k..]);
    assert All(rows[k..])[0] == rows[k].row && Kept(rows[k..])[0] == rows[k].row;
  }

  /** A row keeps its identity in a wider export, wherever that puts the rows it adds, exactly when it has a
      trade id, or none of the added rows of its group sorts before it or ties with it and stands above it. */
  lemma IdentityInWiderExport(rows: seq<Exported>, k: nat, source: string)
    requires k < |rows| && !rows[k].added
    ensures var j := |Kept(rows[..k])|;
            && j < |Kept(rows)| && Kept(rows)[j] == rows[k].row
            && (Identities(All(rows), source)[k] == Identities(Kept(rows), source)[j]
                <==> Id(rows[k].row) != ""
                     || (Ahead(Added(rows), rows[k].row) == 0 && TiedIn(Added(rows[..k]), rows[k].row) == 0))
  {
    PlaceBefore(rows, k);
    CountsSplit(rows, rows[k].row);
    CountsSplit(rows[..k], rows[k].row);
  }
}
