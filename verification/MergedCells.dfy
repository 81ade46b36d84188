/** What a row of `trades.csv` holds (autoresearch/broker/store.py, `merge`), cell by cell, and the texts it is keyed
    and sorted by. */
module MergedCells {
  import opened Strings
  import opened BrokerSchema
  import opened BrokerMerge
  import opened BrokerNumbers
  import opened StableSort

  /** The text of a cell, if it has one. */
  function TextOf(row: Row, column: Column): string {
    match Get(row, column)
    case Text(text) => text
    case _ => ""
  }

  lemma TextIsRaw(row: Row)
    ensures forall column :: TextOf(row, column) == Raw(Get(row, column))
  {
  }

  // ---------- cells that say something ----------

  /** Every character that is white space. */
  const WHITE := {
    9, 10, 11, 12, 13, 28, 29, 30, 31, 32, 133, 160, 5760, 8192, 8193, 8194, 8195, 8196, 8197, 8198, 8199, 8200, 8201,
    8202, 8232, 8233, 8239, 8287, 12288
  }

  predicate White(c: char) { c as int in WHITE }

  lemma WhiteIsSpace(c: char)
    ensures White(c) <==> IsSpace(c)
  {
  }

  /** A number, or a text that is not all white space. */
  predicate Speaks(cell: Cell) {
    cell.Number? || (cell.Text? && exists i :: 0 <= i < |cell.text| && !White(cell.text[i]))
  }

  lemma SpeaksIsNotBlank(cell: Cell)
    ensures Speaks(cell) <==> !IsBlank(cell)
  {
    hide White;
    forall c ensures White(c) <==> IsSpace(c) {
      WhiteIsSpace(c);
    }
  }

  /** The part between the white space in front of a text and the white space behind it. */
  ghost predicate IsCore(core: string, text: string) { exists i, j :: CoreAt(core, text, i, j) }

  ghost predicate CoreAt(core: string, text: string, i: int, j: int) {
    && 0 <= i <= j <= |text| && text[i..j] == core
    && (forall k | 0 <= k < i :: White(text[k])) && (forall k | j <= k < |text| :: White(text[k]))
    && (i < j ==> !White(text[i]) && !White(text[j - 1]))
  }

  lemma CoreBehindWhite(core: string, c: char, rest: string)
    requires White(c) && IsCore(core, rest)
    ensures IsCore(core, [c] + rest)
  {
    hide White;
    var i, j :| CoreAt(core, rest, i, j);
    assert ([c] + rest)[i + 1..j + 1] == rest[i..j];
    assert CoreAt(core, [c] + rest, i + 1, j + 1);
  }

  lemma CoreBeforeWhite(core: string, rest: string, c: char)
    requires White(c) && IsCore(core, rest)
    ensures IsCore(core, rest + [c])
  {
    hide White;
    var i, j :| CoreAt(core, rest, i, j);
    assert (rest + [c])[i..j] == rest[i..j];
    assert CoreAt(core, rest + [c], i, j);
  }

  lemma AllIsCore(text: string)
    requires text != "" ==> !White(text[0]) && !White(text[|text| - 1])
    ensures IsCore(text, text)
  {
    assert text[0..|text|] == text;
    assert CoreAt(text, text, 0, |text|);
  }

  lemma {:induction false} StripIsCore(text: string)
    ensures IsCore(Strip(text), text)
    decreases |text|
  {
    hide White, IsSpace, IsCore;
    if text == "" {
      AllIsCore(text);
    } else {
      WhiteIsSpace(text[0]);
      WhiteIsSpace(text[|text| - 1]);
      if IsSpace(text[0]) {
        StripIsCore(text[1..]);
        CoreBehindWhite(Strip(text), text[0], text[1..]);
        assert text == [text[0]] + text[1..];
      } else if IsSpace(text[|text| - 1]) {
        StripIsCore(text[..|text| - 1]);
        CoreBeforeWhite(Strip(text), text[..|text| - 1], text[|text| - 1]);
        assert text == text[..|text| - 1] + [text[|text| - 1]];
      } else {
        AllIsCore(text);
      }
    }
  }

  /** The text of a cell without white space around it; a cell without text has none. */
  lemma StrippedIsCore(cell: Cell)
    ensures if cell.Text? then IsCore(Stripped(cell), cell.text) else Stripped(cell) == ""
  {
    if cell.Text? {
      StripIsCore(cell.text);
      if IsBlank(cell) {
        forall c ensures White(c) <==> IsSpace(c) {
          WhiteIsSpace(c);
        }
        assert CoreAt("", cell.text, 0, 0);
      }
    }
  }

  // ---------- the cells of a merged row ----------

  /** The cell is that of the first row that says something, and the first row's if none does. */
  ghost predicate FirstToSpeak(layer: seq<Row>, column: Column, cell: Cell)
    requires layer != []
  {
    if Speaks(cell) then exists j :: SpeaksFirst(layer, column, j) && cell == Get(layer[j], column)
    else cell == Get(layer[0], column) && forall j | 0 <= j < |layer| :: !Speaks(Get(layer[j], column))
  }

  predicate SpeaksFirst(layer: seq<Row>, column: Column, j: int) {
    0 <= j < |layer| && Speaks(Get(layer[j], column)) && forall k | 0 <= k < j :: !Speaks(Get(layer[k], column))
  }

  lemma FirstFilledIsFirstToSpeak(layer: seq<Row>, column: Column, cell: Cell)
    requires layer != [] && IsFirstFilled(layer, column, cell)
    ensures FirstToSpeak(layer, column, cell)
  {
    hide IsBlank, Speaks;
    forall other ensures Speaks(other) <==> !IsBlank(other) {
      SpeaksIsNotBlank(other);
    }
    if Speaks(cell) {
      var j :| 0 <= j < |layer| && FirstAt(layer, column, j) && cell == Get(layer[j], column);
      assert SpeaksFirst(layer, column, j);
    }
  }

  const FILLED_IN := {Name, TradeTime, Commission, StampTax, TransferFee, OtherFee, NetAmount, BalanceAfter}

  /** Time, name, fees, net amount and balance come from the best source that has them; everything else but the trade
      id and the time of ingestion from the best source. */
  lemma MergedCellIs(nk: string, layer: seq<Row>, column: Column)
    requires layer != [] && column != TradeId && column != IngestedAt
    ensures var cell := Get(Merged(nk, layer).row, column);
            if column in FILLED_IN then FirstToSpeak(layer, column, cell) else cell == Get(layer[0], column)
  {
    MergedIsMerge(nk, layer);
    hide Merged, IsFirstFilled, FirstToSpeak;
    var cell := Get(Merged(nk, layer).row, column);
    if column in FILLED_IN {
      FirstFilledIsFirstToSpeak(layer, column, cell);
    }
  }

  /** An id that was made from the hash. */
  predicate MadeUp(id: string) { |id| > 1 && id[0] == 'h' && id[1] == ':' }

  predicate Given(row: Row) { TextOf(row, TradeId) != "" && !MadeUp(TextOf(row, TradeId)) }

  /** The best source's trade id stands, unless it was made up and another source has a given one: then the first of
      those. */
  lemma MergedIdIs(nk: string, layer: seq<Row>)
    requires layer != []
    ensures var id, own := TextOf(Merged(nk, layer).row, TradeId), TextOf(layer[0], TradeId);
            if MadeUp(own) && exists j :: 0 < j < |layer| && Given(layer[j])
            then exists j :: 0 < j < |layer| && Given(layer[j]) && id == TextOf(layer[j], TradeId)
                   && forall k | 0 < k < j :: !Given(layer[k])
            else id == own
  {
    MergedIsMerge(nk, layer);
    hide Merged, TextOf, Raw, Fills, Keeps, IsEarliest, IsHashId, MadeUp;
    IdIsGiven(Merged(nk, layer).row);
    forall row ensures TextOf(row, TradeId) == TradeIdOf(row) && (MadeUp(TradeIdOf(row)) <==> IsHashId(TradeIdOf(row)))
    {
      IdIsGiven(row);
    }
    assert forall row: Row :: Given(row) <==> RealId(row);
  }

  lemma IdIsGiven(row: Row)
    ensures TextOf(row, TradeId) == TradeIdOf(row) && (MadeUp(TradeIdOf(row)) <==> IsHashId(TradeIdOf(row)))
  {
    var id := TradeIdOf(row);
    assert |id| > 1 ==> id[..2] == [id[0], id[1]];
  }

  /** When a row came in; one that does not say so counts as late. */
  function CameIn(row: Row): string {
    match Get(row, IngestedAt)
    case Text(stamp) => if stamp == "" then "~" else stamp
    case _ => "~"
  }

  /** A row of several sources came in when the first of them did. */
  lemma MergedStampIs(nk: string, layer: seq<Row>)
    requires |layer| > 1
    ensures var stamp := TextOf(Merged(nk, layer).row, IngestedAt);
            && (exists j :: 0 <= j < |layer| && stamp == CameIn(layer[j]))
            && forall j | 0 <= j < |layer| :: !TextBefore(CameIn(layer[j]), stamp)
  {
    MergedIsMerge(nk, layer);
    hide Merged;
    var stamp := TextOf(Merged(nk, layer).row, IngestedAt);
    assert forall row :: CameIn(row) == IngestedWhen(row);
    forall j | 0 <= j < |layer| ensures !TextBefore(CameIn(layer[j]), stamp) {
      StringLessIsBefore(CameIn(layer[j]), stamp);
    }
  }

  // ---------- keys and order ----------

  /** The text rows are grouped by. */
  lemma KeyTextIs(row: Row)
    ensures MergeKey(row)
         == TextOf(row, Account) + "|" + TextOf(row, TradeDate) + "|" + TextOf(row, Code) + "|" + TextOf(row, Side)
            + "|" + FormatNumber(Get(row, Price)) + "|" + FormatNumber(Get(row, Qty)) + "|"
            + if TextOf(row, Side) == "OTHER" then FormatNumber(Get(row, Amount)) else ""
  {
    hide FormatNumber;
    var key := NaturalKey(row);
    var parts := Parts(key);
    JoinSeven(parts);
  }

  lemma JoinSeven(p: seq<string>)
    requires |p| == 7
    ensures Join(p) == p[0] + "|" + p[1] + "|" + p[2] + "|" + p[3] + "|" + p[4] + "|" + p[5] + "|" + p[6]
  {
    assert Join(p[6..]) == p[6];
    assert Join(p[5..]) == p[5] + "|" + Join(p[5..][1..]) && p[5..][1..] == p[6..];
    assert Join(p[4..]) == p[4] + "|" + Join(p[4..][1..]) && p[4..][1..] == p[5..];
    assert Join(p[3..]) == p[3] + "|" + Join(p[3..][1..]) && p[3..][1..] == p[4..];
    assert Join(p[2..]) == p[2] + "|" + Join(p[2..][1..]) && p[2..][1..] == p[3..];
    assert Join(p[1..]) == p[1] + "|" + Join(p[1..][1..]) && p[1..][1..] == p[2..];
    assert Join(p) == p[0] + "|" + Join(p[1..]);
  }

  const DIGITS := "0123456789"

  /** A row passes as validated with one of the two accounts, a day written out with dashes, and a side; with a code of
      six digits, which are not only those of ASCII, or none for a cash movement. */
  lemma CheckedExactlyWhen(row: Row)
    ensures Checked(row)
            <==> var day, code := TextOf(row, TradeDate), TextOf(row, Code);
                 && TextOf(row, Account) in {"gtht", "tpy"} && TextOf(row, Side) in {"SELL", "BUY", "OTHER"}
                 && |day| == 10 && day[4] == '-' && day[7] == '-'
                 && (forall i | i in [0, 1, 2, 3, 5, 6, 8, 9] :: day[i] in DIGITS)
                 && ((|code| == 6 && forall c | c in code :: c in DIGITS || c as int > 127)
                     || (code == "" && TextOf(row, Side) == "OTHER"))
  {
    hide TextOf, Raw;
    TextIsRaw(row);
    forall c ensures IsDigit(c) <==> c in DIGITS {
      assert IsDigit(c) ==> DIGITS[c as int - '0' as int] == c;
    }
    hide IsDigit;
    var code := TextOf(row, Code);
    assert forall i | 0 <= i < |code| :: code[i] in code;
  }

  /** The columns `trades.csv` is sorted by. */
  const SORTED_BY := [Account, TradeDate, TradeTime, Code, Side, TradeId]

  /** The texts of two rows agree up to a column, and there the first row's is smaller. */
  predicate PartAt(a: Row, b: Row, k: nat)
    requires k < |SORTED_BY|
  {
    && (forall j | 0 <= j < k :: TextOf(a, SORTED_BY[j]) == TextOf(b, SORTED_BY[j]))
    && TextBefore(TextOf(a, SORTED_BY[k]), TextOf(b, SORTED_BY[k]))
  }

  lemma DisplayIsByColumns(a: Trade, b: Trade)
    ensures DisplayBefore(a, b) <==> exists k: nat :: k < |SORTED_BY| && PartAt(a.row, b.row, k)
  {
    DisplayIsFrom(a.row, b.row, 0);
  }

  lemma {:induction false} DisplayIsFrom(a: Row, b: Row, n: nat)
    requires n <= |SORTED_BY| && forall j | 0 <= j < n :: SameText(a, b, SORTED_BY[j])
    ensures TupleLess(SortKeys(a)[n..], SortKeys(b)[n..]) <==> exists k: nat :: k < |SORTED_BY| && PartAt(a, b, k)
    decreases |SORTED_BY| - n
  {
    hide TextBefore, StringLess, TupleLess, SortKeys, TextOf, Raw;
    TextIsRaw(a);
    TextIsRaw(b);
    TextsFrom(a, b, n);
    if n == |SORTED_BY| {
      NoPartBefore(a, b, n);
    } else {
      var x, y := Raw(Get(a, SORTED_BY[n])), Raw(Get(b, SORTED_BY[n]));
      StringLessIsBefore(x, y);
      NoPartBefore(a, b, n);
      if x == y {
        DisplayIsFrom(a, b, n + 1);
      } else if TextBefore(x, y) {
        assert PartAt(a, b, n);
      }
    }
  }

  lemma NoPartBefore(a: Row, b: Row, n: nat)
    requires n <= |SORTED_BY| && forall j | 0 <= j < n :: SameText(a, b, SORTED_BY[j])
    ensures forall k: nat | k < |SORTED_BY| && PartAt(a, b, k) :: k >= n
    ensures n < |SORTED_BY| && !SameText(a, b, SORTED_BY[n])
            ==> forall k: nat | k < |SORTED_BY| && PartAt(a, b, k) :: k == n
  {
    hide TextBefore, Raw, TextOf;
    TextIsRaw(a);
    TextIsRaw(b);
    forall k: nat | k < |SORTED_BY| && PartAt(a, b, k) ensures k >= n {
      if k < n {
        StringLessIsBefore(Raw(Get(a, SORTED_BY[k])), Raw(Get(b, SORTED_BY[k])));
        StringLessIrreflexive(Raw(Get(a, SORTED_BY[k])));
      }
    }
  }

  lemma TextsFrom(a: Row, b: Row, n: nat)
    requires n <= |SORTED_BY|
    ensures var less := TupleLess(SortKeys(a)[n..], SortKeys(b)[n..]);
            if n == |SORTED_BY| then !less
            else
              var x, y := Raw(Get(a, SORTED_BY[n])), Raw(Get(b, SORTED_BY[n]));
              less <==> if x == y then TupleLess(SortKeys(a)[n + 1..], SortKeys(b)[n + 1..]) else StringLess(x, y)
  {
    hide Raw;
    var x, y := SortKeys(a)[n..], SortKeys(b)[n..];
    if n < |SORTED_BY| {
      assert x[0] == SortKeys(a)[n] == Raw(Get(a, SORTED_BY[n])) && y[0] == SortKeys(b)[n] == Raw(Get(b, SORTED_BY[n]));
      assert x[1..] == SortKeys(a)[n + 1..] && y[1..] == SortKeys(b)[n + 1..];
    }
  }

  // ---------- positions ----------

  /** The number of a row within its source; one without a number counts as the first. */
  function NumberOf(row: Row): real {
    match Get(row, Seq)
    case Number(n) => n
    case _ => 0.0
  }

  predicate LowerNumber(a: Row, b: Row) { NumberOf(a) < NumberOf(b) }

  /** The rows of a source in a group are taken by their numbers, and rows of one number in the order of the file. */
  lemma RowsAreTakenByNumber(group: seq<Row>, source: string)
    ensures StablySorted(From(group, source), OfSource(group, source), LowerNumber)
  {
    SortIsStablySorted(OfSource(group, source), LowerNumber);
    SortedAlike(OfSource(group, source));
  }

  lemma {:induction false} InsertedAlike(sorted: seq<Row>, row: Row)
    ensures Insert(sorted, row, LowerNumber) == Insert(sorted, row, SeqBefore)
    decreases |sorted|
  {
    if sorted != [] {
      InsertedAlike(sorted[..|sorted| - 1], row);
    }
  }

  lemma {:induction false} SortedAlike(rows: seq<Row>)
    ensures Sort(rows, LowerNumber) == Sort(rows, SeqBefore)
    decreases |rows|
  {
    if rows != [] {
      SortedAlike(rows[..|rows| - 1]);
      InsertedAlike(Sort(rows[..|rows| - 1], SeqBefore), rows[|rows| - 1]);
    }
  }

  // ---------- ties ----------

  lemma HalfWayIsEven(x: real, n: int)
    requires n == Nearest(x) && (n as real == x + 0.5 || n as real == x - 0.5)
    ensures n % 2 == 0
  {
    var below := x.Floor;
    assert below as real <= x < below as real + 1.0;
  }

  /** A number half way between two texts takes the even one. */
  lemma TiesAreEven(x: real) returns (half: int)
    requires Read(FormatNumber(Number(x))) == x + 0.00005 || Read(FormatNumber(Number(x))) == x - 0.00005
    ensures Read(FormatNumber(Number(x))) == (2 * half) as real / 10000.0
  {
    hide Nearest, Read, Fixed4;
    TextIsNear(x);
    var rounded := Nearest(x * 10000.0);
    SignOfNearest(x);
    FixedReads(x, if x < 0.0 then -rounded else rounded);
    HalfWayIsEven(x * 10000.0, rounded);
    half := rounded / 2;
  }

  lemma SignOfNearest(x: real)
    ensures if x < 0.0 then Nearest(x * 10000.0) <= 0 else Nearest(x * 10000.0) >= 0
  {
  }
}
