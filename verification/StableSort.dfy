/** The stable sort of a table (`sort_values(..., kind="stable")`), by any order that may leave rows tied, and the
    sorted distinct values of a column. */
module StableSort {
  type Order<!T> = (T, T) -> bool

  function Insert<T>(sorted: seq<T>, x: T, before: Order<T>): seq<T> {
    if sorted == [] then [x]
    else
      var n := |sorted| - 1;
      if before(x, sorted[n]) then Insert(sorted[..n], x, before) + [sorted[n]] else sorted + [x]
  }

  function Sort<T>(rows: seq<T>, before: Order<T>): seq<T> {
    if rows == [] then [] else Insert(Sort(rows[..|rows| - 1], before), rows[|rows| - 1], before)
  }

  /** Rows come before each other in one direction at most, and ties are tied with the same rows. */
  ghost predicate WeakOrder<T(!new)>(before: Order<T>) {
    && (forall x, y :: before(x, y) ==> !before(y, x))
    && (forall x, y, z :: !before(x, y) && !before(y, z) ==> !before(x, z))
  }

  predicate InOrder<T>(rows: seq<T>, before: Order<T>) {
    forall i, j | 0 <= i < j < |rows| :: !before(rows[j], rows[i])
  }

  predicate Tied<T>(x: T, y: T, before: Order<T>) { !before(x, y) && !before(y, x) }

  function IfTied<T>(x: T, y: T, before: Order<T>): seq<T> { if Tied(x, y, before) then [x] else [] }

  /** The rows tied with one, in order. */
  function TiedWith<T>(rows: seq<T>, y: T, before: Order<T>): seq<T> {
    if rows == [] then [] else TiedWith(rows[..|rows| - 1], y, before) + IfTied(rows[|rows| - 1], y, before)
  }

  /** The same rows in order, tied ones in the order they had. */
  ghost predicate StablySorted<T(!new)>(sorted: seq<T>, rows: seq<T>, before: Order<T>) {
    && multiset(sorted) == multiset(rows) && InOrder(sorted, before)
    && forall y :: TiedWith(sorted, y, before) == TiedWith(rows, y, before)
  }

  lemma {:induction false} InsertKeeps<T>(sorted: seq<T>, x: T, before: Order<T>)
    ensures multiset(Insert(sorted, x, before)) == multiset(sorted) + multiset{x}
    ensures |Insert(sorted, x, before)| == |sorted| + 1
    decreases |sorted|
  {
    if sorted != [] {
      var n := |sorted| - 1;
      InsertKeeps(sorted[..n], x, before);
      assert sorted == sorted[..n] + [sorted[n]];
    }
  }

  lemma {:induction false} SortKeeps<T>(rows: seq<T>, before: Order<T>)
    ensures multiset(Sort(rows, before)) == multiset(rows) && |Sort(rows, before)| == |rows|
    decreases |rows|
  {
    if rows != [] {
      var n := |rows| - 1;
      SortKeeps(rows[..n], before);
      InsertKeeps(Sort(rows[..n], before), rows[n], before);
      assert rows == rows[..n] + [rows[n]];
    }
  }

  /** Whatever is in an insertion was in the rows or is the new one. */
  lemma InsertedAreOld<T>(sorted: seq<T>, x: T, before: Order<T>, i: nat)
    requires i < |Insert(sorted, x, before)|
    ensures Insert(sorted, x, before)[i] == x || Insert(sorted, x, before)[i] in sorted
  {
    InsertKeeps(sorted, x, before);
    assert Insert(sorted, x, before)[i] in multiset(Insert(sorted, x, before));
  }

  lemma {:induction false} InsertSorts<T(!new)>(sorted: seq<T>, x: T, before: Order<T>)
    requires WeakOrder(before) && InOrder(sorted, before)
    ensures InOrder(Insert(sorted, x, before), before)
    decreases |sorted|
  {
    if sorted != [] {
      var n := |sorted| - 1;
      if before(x, sorted[n]) {
        var r := Insert(sorted[..n], x, before);
        InsertSorts(sorted[..n], x, before);
        forall i: nat | i < |r| ensures !before(sorted[n], r[i]) {
          InsertedAreOld(sorted[..n], x, before, i);
        }
        OneMoreInOrder(r, sorted[n], before);
      } else {
        forall i: nat | i < |sorted| ensures !before(x, sorted[i]) {
          assert i < n ==> !before(sorted[n], sorted[i]);
        }
        OneMoreInOrder(sorted, x, before);
      }
    }
  }

  lemma OneMoreInOrder<T>(rows: seq<T>, x: T, before: Order<T>)
    requires InOrder(rows, before) && forall i: nat | i < |rows| :: !before(x, rows[i])
    ensures InOrder(rows + [x], before)
  {
  }

  lemma {:induction false} SortSorts<T(!new)>(rows: seq<T>, before: Order<T>)
    requires WeakOrder(before)
    ensures InOrder(Sort(rows, before), before)
    decreases |rows|
  {
    if rows != [] {
      SortSorts(rows[..|rows| - 1], before);
      InsertSorts(Sort(rows[..|rows| - 1], before), rows[|rows| - 1], before);
    }
  }

  lemma TiedOneMore<T>(rows: seq<T>, x: T, y: T, before: Order<T>)
    ensures TiedWith(rows + [x], y, before) == TiedWith(rows, y, before) + IfTied(x, y, before)
  {
    assert (rows + [x])[..|rows|] == rows;
  }

  /** Of two rows that are not tied at most one is tied with a given one. */
  lemma EitherTied<T(!new)>(a: seq<T>, x: T, z: T, y: T, before: Order<T>)
    requires WeakOrder(before) && before(x, z)
    ensures a + IfTied(x, y, before) + IfTied(z, y, before) == a + IfTied(z, y, before) + IfTied(x, y, before)
  {
    assert !(Tied(x, y, before) && Tied(z, y, before)) by {
      assert !before(x, y) && !before(y, z) ==> !before(x, z);
    }
  }

  /** A row is inserted behind the rows it is tied with. */
  lemma {:induction false} InsertIsStable<T(!new)>(sorted: seq<T>, x: T, before: Order<T>, y: T)
    requires WeakOrder(before)
    ensures TiedWith(Insert(sorted, x, before), y, before) == TiedWith(sorted, y, before) + IfTied(x, y, before)
    decreases |sorted|
  {
    if sorted == [] || !before(x, sorted[|sorted| - 1]) {
      TiedOneMore(sorted, x, y, before);
    } else {
      var n := |sorted| - 1;
      InsertIsStable(sorted[..n], x, before, y);
      TiedOneMore(Insert(sorted[..n], x, before), sorted[n], y, before);
      EitherTied(TiedWith(sorted[..n], y, before), x, sorted[n], y, before);
    }
  }

  lemma {:induction false} SortIsStable<T(!new)>(rows: seq<T>, before: Order<T>, y: T)
    requires WeakOrder(before)
    ensures TiedWith(Sort(rows, before), y, before) == TiedWith(rows, y, before)
    decreases |rows|
  {
    if rows != [] {
      var n := |rows| - 1;
      SortIsStable(rows[..n], before, y);
      InsertIsStable(Sort(rows[..n], before), rows[n], before, y);
    }
  }

  lemma SortIsStablySorted<T(!new)>(rows: seq<T>, before: Order<T>)
    requires WeakOrder(before)
    ensures StablySorted(Sort(rows, before), rows, before)
  {
    SortKeeps(rows, before);
    SortSorts(rows, before);
    forall y ensures TiedWith(Sort(rows, before), y, before) == TiedWith(rows, y, before) {
      SortIsStable(rows, before, y);
    }
  }

  // ---------- the sort is determined ----------

  /** Only one order of rows is stably sorted. */
  lemma StableOrderIsUnique<T(!new)>(a: seq<T>, b: seq<T>, rows: seq<T>, before: Order<T>)
    requires WeakOrder(before) && StablySorted(a, rows, before) && StablySorted(b, rows, before)
    ensures a == b
  {
    SortedAlike(a, b, before);
  }

  lemma {:induction false} SortedAlike<T(!new)>(a: seq<T>, b: seq<T>, before: Order<T>)
    requires WeakOrder(before) && InOrder(a, before) && InOrder(b, before) && multiset(a) == multiset(b)
    requires forall y :: TiedWith(a, y, before) == TiedWith(b, y, before)
    ensures a == b
    decreases |a|
  {
    hide WeakOrder, TiedWith;
    assert |multiset(a)| == |multiset(b)|;
    if a != [] {
      var x, a', b' := a[|a| - 1], a[..|a| - 1], b[..|b| - 1];
      LastIsSame(a, b, before);
      assert a == a' + [x] && b == b' + [x];
      forall y ensures TiedWith(a', y, before) == TiedWith(b', y, before) {
        StartsTied(a', b', x, y, before);
      }
      SameWithout(a', b', x);
      SortedAlike(a', b', before);
    }
  }

  lemma SameWithout<T>(a: seq<T>, b: seq<T>, x: T)
    requires multiset(a + [x]) == multiset(b + [x])
    ensures multiset(a) == multiset(b)
  {
    assert multiset(a) == multiset(a + [x]) - multiset{x} && multiset(b) == multiset(b + [x]) - multiset{x};
  }

  lemma StartsTied<T>(a: seq<T>, b: seq<T>, x: T, y: T, before: Order<T>)
    requires TiedWith(a + [x], y, before) == TiedWith(b + [x], y, before)
    ensures TiedWith(a, y, before) == TiedWith(b, y, before)
  {
    TiedOneMore(a, x, y, before);
    TiedOneMore(b, x, y, before);
    SameStart(TiedWith(a, y, before), TiedWith(b, y, before), IfTied(x, y, before));
  }

  lemma SameStart<T>(a: seq<T>, b: seq<T>, end: seq<T>)
    requires a + end == b + end
    ensures a == b
  {
    assert |a| == |b|;
    assert a == (a + end)[..|a|] && b == (b + end)[..|b|];
  }

  lemma LastIsSame<T(!new)>(a: seq<T>, b: seq<T>, before: Order<T>)
    requires WeakOrder(before) && InOrder(a, before) && InOrder(b, before) && multiset(a) == multiset(b) && a != []
    requires forall y :: TiedWith(a, y, before) == TiedWith(b, y, before)
    ensures |a| == |b| && a[|a| - 1] == b[|a| - 1]
  {
    hide WeakOrder, InOrder, TiedWith;
    assert |multiset(a)| == |multiset(b)|;
    var n := |a| - 1;
    LastIsTied(a, b, before);
    LastOfTied(a, a[n], before);
    LastOfTied(b, a[n], before);
  }

  lemma LastOfTied<T>(rows: seq<T>, y: T, before: Order<T>)
    requires rows != [] && Tied(rows[|rows| - 1], y, before)
    ensures var t := TiedWith(rows, y, before); t != [] && t[|t| - 1] == rows[|rows| - 1]
  {
  }

  /** The last rows of two orders of the same rows are tied. */
  lemma LastIsTied<T(!new)>(a: seq<T>, b: seq<T>, before: Order<T>)
    requires WeakOrder(before) && InOrder(a, before) && InOrder(b, before) && multiset(a) == multiset(b) && a != []
    ensures b != [] && Tied(b[|b| - 1], a[|a| - 1], before) && Tied(a[|a| - 1], a[|a| - 1], before)
  {
    assert a[|a| - 1] in multiset(b);
    assert b[|b| - 1] in multiset(a);
    var i :| 0 <= i < |b| && b[i] == a[|a| - 1];
    var j :| 0 <= j < |a| && a[j] == b[|b| - 1];
  }

  // ---------- distinct values ----------

  ghost predicate TotalOrder<T(!new)>(before: Order<T>) {
    && (forall x :: !before(x, x))
    && (forall x, y, z :: before(x, y) && before(y, z) ==> before(x, z))
    && (forall x, y :: x == y || before(x, y) || before(y, x))
  }

  predicate Ascending<T>(values: seq<T>, before: Order<T>) {
    forall i, j | 0 <= i < j < |values| :: before(values[i], values[j])
  }

  function InsertOnce<T(==)>(values: seq<T>, x: T, before: Order<T>): seq<T> {
    if values == [] then [x]
    else if values[0] == x then values
    else if before(x, values[0]) then [x] + values
    else [values[0]] + InsertOnce(values[1..], x, before)
  }

  lemma OneMoreFirst<T(!new)>(x: T, values: seq<T>, before: Order<T>)
    requires Ascending(values, before) && forall y | y in values :: before(x, y)
    ensures Ascending([x] + values, before)
  {
  }

  lemma FirstIsLeast<T(!new)>(values: seq<T>, before: Order<T>)
    requires Ascending(values, before) && values != []
    ensures Ascending(values[1..], before) && forall y | y in values[1..] :: before(values[0], y)
  {
    forall y | y in values[1..] ensures before(values[0], y) {
      var k :| 0 <= k < |values[1..]| && values[1..][k] == y;
      assert values[k + 1] == y;
    }
  }

  lemma {:induction false} InsertOnceKeeps<T(!new)>(values: seq<T>, x: T, before: Order<T>)
    requires TotalOrder(before) && Ascending(values, before)
    ensures Ascending(InsertOnce(values, x, before), before)
    ensures forall y :: y in InsertOnce(values, x, before) <==> y in values || y == x
    decreases |values|
  {
    if values == [] || values[0] == x {
    } else {
      FirstIsLeast(values, before);
      assert values == [values[0]] + values[1..];
      if before(x, values[0]) {
        OneMoreFirst(x, values, before);
      } else {
        InsertOnceKeeps(values[1..], x, before);
        OneMoreFirst(values[0], InsertOnce(values[1..], x, before), before);
      }
    }
  }

  /** Ascending lists of the same values are one list. */
  lemma {:induction false} AscendingIsUnique<T(!new)>(a: seq<T>, b: seq<T>, before: Order<T>)
    requires TotalOrder(before) && Ascending(a, before) && Ascending(b, before) && forall y :: y in a <==> y in b
    ensures a == b
    decreases |a|
  {
    assert a != [] ==> a[0] in a;
    assert b != [] ==> b[0] in b;
    if a != [] && b != [] {
      FirstIsLeast(a, before);
      FirstIsLeast(b, before);
      assert a == [a[0]] + a[1..] && b == [b[0]] + b[1..];
      NothingBeforeFirst(a, b[0], before);
      NothingBeforeFirst(b, a[0], before);
      forall y ensures y in a[1..] <==> y in b[1..] {
        assert y in a <==> y == a[0] || y in a[1..];
        assert y in b <==> y == a[0] || y in b[1..];
        assert !before(a[0], a[0]);
      }
      AscendingIsUnique(a[1..], b[1..], before);
    }
  }

  lemma NothingBeforeFirst<T(!new)>(values: seq<T>, x: T, before: Order<T>)
    requires TotalOrder(before) && Ascending(values, before) && x in values
    ensures !before(x, values[0])
  {
    var i :| 0 <= i < |values| && values[i] == x;
    assert !before(x, x);
  }
}
