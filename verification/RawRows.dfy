/** How raw rows are numbered (autoresearch/broker/schema.py, `normalize`) and which of them are stored
    (autoresearch/broker/store.py, `upsert_raw`), on their cells. */
module RawRows {
  import opened Wrappers
  import opened Strings
  import opened BrokerSchema
  import opened BrokerIdentity
  import opened RawStore
  import opened MergedCells

  // ---------- numbers ----------

  predicate SameCell(a: Row, b: Row, column: Column) { Get(a, column) == Get(b, column) }

  /** Account, day, code, side, price and quantity are the same. */
  predicate NumberedTogether(a: Row, b: Row) {
    && SameCell(a, b, Account) && SameCell(a, b, TradeDate) && SameCell(a, b, Code) && SameCell(a, b, Side)
    && SameCell(a, b, Price) && SameCell(a, b, Qty)
  }

  /** The j-th row stands before the i-th: by time, at one time by trade id, and else by its place in the file. */
  predicate StandsBefore(rows: seq<Row>, j: nat, i: nat)
    requires j < |rows| && i < |rows|
  {
    var a, b := rows[j], rows[i];
    || TextBefore(TextOf(a, TradeTime), TextOf(b, TradeTime))
    || (TextOf(a, TradeTime) == TextOf(b, TradeTime)
        && (TextBefore(TextOf(a, TradeId), TextOf(b, TradeId))
            || (TextOf(a, TradeId) == TextOf(b, TradeId) && j < i)))
  }

  function Before(rows: seq<Row>, i: nat): set<nat>
    requires i < |rows|
  {
    set j: nat | j < |rows| && NumberedTogether(rows[j], rows[i]) && StandsBefore(rows, j, i)
  }

  predicate IsAhead(a: Row, b: Row) { Group(a) == Group(b) && Earlier(a, b) }

  function AheadOf(rows: seq<Row>, row: Row): set<nat> { set j: nat | j < |rows| && IsAhead(rows[j], row) }

  function TiedWithIt(rows: seq<Row>, row: Row): set<nat> { set j: nat | j < |rows| && Tied(rows[j], row) }

  lemma {:induction false} AheadCounts(rows: seq<Row>, row: Row)
    ensures |AheadOf(rows, row)| == Ahead(rows, row)
    decreases |rows|
  {
    hide IsAhead, Earlier, Group;
    if rows == [] {
      assert AheadOf(rows, row) == {};
    } else {
      var n := |rows| - 1;
      assert rows == rows[..n] + [rows[n]];
      AheadAppend(rows[..n], [rows[n]], row);
      AheadCounts(rows[..n], row);
      OneAhead(rows[n], row);
      assert AheadOf(rows, row) == AheadOf(rows[..n], row) + if IsAhead(rows[n], row) then {n} else {};
    }
  }

  lemma OneAhead(a: Row, row: Row)
    ensures Ahead([a], row) == if IsAhead(a, row) then 1 else 0
    ensures TiedIn([a], row) == if Tied(a, row) then 1 else 0
  {
    assert [a][1..] == [];
  }

  lemma {:induction false} TiedCounts(rows: seq<Row>, row: Row)
    ensures |TiedWithIt(rows, row)| == TiedIn(rows, row)
    decreases |rows|
  {
    hide Tied;
    if rows == [] {
      assert TiedWithIt(rows, row) == {};
    } else {
      var n := |rows| - 1;
      assert rows == rows[..n] + [rows[n]];
      TiedAppend(rows[..n], [rows[n]], row);
      TiedCounts(rows[..n], row);
      OneAhead(rows[n], row);
      assert TiedWithIt(rows, row) == TiedWithIt(rows[..n], row) + if Tied(rows[n], row) then {n} else {};
    }
  }

  lemma GroupIsCells(a: Row, b: Row)
    ensures Group(a) == Group(b) <==> NumberedTogether(a, b)
  {
    var x, y := Group(a), Group(b);
    assert x == y <==> x[0] == y[0] && x[1] == y[1] && x[2] == y[2] && x[3] == y[3] && x[4] == y[4] && x[5] == y[5];
  }

  lemma AheadOrTied(rows: seq<Row>, j: nat, i: nat)
    requires j < |rows| && i < |rows|
    ensures NumberedTogether(rows[j], rows[i]) && StandsBefore(rows, j, i)
            <==> IsAhead(rows[j], rows[i]) || (j < i && Tied(rows[j], rows[i]))
    ensures IsAhead(rows[j], rows[i]) ==> !Tied(rows[j], rows[i])
  {
    var a, b := rows[j], rows[i];
    GroupIsCells(a, b);
    TextIsRaw(a);
    TextIsRaw(b);
    hide Group, NumberedTogether, TextOf, Raw;
    StringLessIsBefore(Time(a), Time(b));
    StringLessIsBefore(Id(a), Id(b));
    StringLessIrreflexive(Time(a));
    StringLessIrreflexive(Id(a));
  }

  /** A row's number says how many rows of its account, day, code, side, price and quantity stand before it. */
  lemma NumberIsPlace(rows: seq<Row>, i: nat)
    requires i < |rows|
    ensures SeqOf(rows, i) == |Before(rows, i)|
  {
    hide IsAhead, Tied, NumberedTogether, StandsBefore;
    var ahead, tied := AheadOf(rows, rows[i]), TiedWithIt(rows[..i], rows[i]);
    AheadCounts(rows, rows[i]);
    TiedCounts(rows[..i], rows[i]);
    forall j: nat | j < |rows|
      ensures j in Before(rows, i) <==> j in ahead || j in tied
      ensures j in ahead ==> j !in tied
    {
      AheadOrTied(rows, j, i);
    }
    assert Before(rows, i) == ahead + tied && ahead !! tied;
  }

  // ---------- what is stored ----------

  /** The rows with a hash that is not among these. */
  function Unknown(batch: seq<Row>, hashes: set<string>): seq<Row> {
    if batch == [] then []
    else (if TextOf(batch[0], RowHash) in hashes then [] else [batch[0]]) + Unknown(batch[1..], hashes)
  }

  function Hashes(rows: seq<Row>): set<string> { set row | row in rows :: TextOf(row, RowHash) }

  lemma {:induction false} UnknownConcat(a: seq<Row>, b: seq<Row>, hashes: set<string>)
    ensures Unknown(a + b, hashes) == Unknown(a, hashes) + Unknown(b, hashes)
    decreases |a|
  {
    if a == [] {
      assert a + b == b;
    } else {
      assert (a + b)[1..] == a[1..] + b;
      UnknownConcat(a[1..], b, hashes);
    }
  }

  lemma {:induction false} NewAreUnknown(rows: seq<Row>, batch: seq<Row>)
    ensures New(rows, batch) == Unknown(batch, Hashes(rows))
    decreases |batch|
  {
    if batch != [] {
      var n := |batch| - 1;
      var last := [batch[n]];
      assert batch == batch[..n] + last && last[1..] == [];
      NewAreUnknown(rows, batch[..n]);
      UnknownConcat(batch[..n], last, Hashes(rows));
      KnownHash(rows, batch[n]);
      assert Unknown(last, Hashes(rows))
          == (if HasHash(rows, Hash(batch[n])) then [] else last) + Unknown([], Hashes(rows));
    }
  }

  lemma KnownHash(rows: seq<Row>, row: Row)
    ensures HasHash(rows, Hash(row)) <==> TextOf(row, RowHash) in Hashes(rows)
  {
    if HasHash(rows, Hash(row)) {
      var stored :| stored in rows && Hash(stored) == Hash(row);
      assert TextOf(stored, RowHash) in Hashes(rows);
    }
  }

  /** Two rows under one hash differ in what may not change. */
  ghost predicate Conflicting(rows: seq<Row>) {
    exists a, b :: a in rows && b in rows && TextOf(a, RowHash) == TextOf(b, RowHash)
      && EconomicSignature(a) != EconomicSignature(b)
  }

  /** A batch that is empty or names two sources is refused; so is one with which a hash would stand for two trades;
      otherwise the file of its source gets, behind what is there, the rows whose hash is not there, and no other file
      changes. */
  lemma UpsertStores(files: Files, batch: seq<Row>, kind: string)
    requires batch != [] ==> TextOf(batch[0], SourceKind) == kind
    ensures var rows := if kind in files then files[kind] else [];
            var answer := Upserted(files, batch);
            if batch == [] || exists row :: row in batch && TextOf(row, SourceKind) != kind
            then answer == Err(MixedSources)
            else if Conflicting(rows + batch) then answer == Err(IdentityConflict)
            else && answer.Ok? && answer.value.Keys <= files.Keys + {kind}
                 && (forall other | other in files && other != kind ::
                       other in answer.value && answer.value[other] == files[other])
                 && (if kind in answer.value then answer.value[kind] else []) == rows + Unknown(batch, Hashes(rows))
  {
    var rows := FileOf(files, kind);
    NewAreUnknown(rows, batch);
    forall row ensures Kind(row) == TextOf(row, SourceKind) && Hash(row) == TextOf(row, RowHash) {
      TextIsRaw(row);
    }
    hide EconomicSignature, TextOf, Raw, New, Unknown, Kind, Hash;
    assert Conflicting(rows + batch) <==> !OneSignature(rows + batch);
    assert rows + [] == rows;
  }
}
