/** Numbers as the text that keys and hashes are made of (autoresearch/broker/schema.py, `fmt_num`): how close two
    numbers with one text are, and what rows with one key or one signature have in common. */
module BrokerNumbers {
  import opened Wrappers
  import opened Strings
  import opened BrokerSchema
  import opened BrokerIdentity
  import opened RawStore
  import opened BrokerMerge
  import BrokerReconcile

  // ---------- reading a decimal ----------

  function DigitValue(c: char): int { c as int - '0' as int }

  function WholeValue(s: string): int {
    if s == [] then 0 else 10 * WholeValue(s[..|s| - 1]) + DigitValue(s[|s| - 1])
  }

  /** A decimal with four places, as a number of ten thousandths: digits, a point, and four digits. */
  function Decimal(s: string): real
    requires |s| >= 5
  {
    WholeValue(s[..|s| - 5]) as real + WholeValue(s[|s| - 4..]) as real / 10000.0
  }

  predicate IsDecimal(s: string) {
    && |s| >= 6 && s[|s| - 5] == '.'
    && forall i | 0 <= i < |s| && i != |s| - 5 :: IsDigit(s[i])
  }

  /** The number a text stands for, with a sign in front if it is negative. */
  function Read(s: string): real
    requires |s| >= 6
  {
    if s[0] == '-' then -Decimal(s[1..]) else Decimal(s)
  }

  lemma {:induction false} DigitsRead(n: nat)
    ensures WholeValue(Digits(n)) == n
    decreases n
  {
    var s := Digits(n);
    var last := ['0' + (n % 10) as char];
    if n < 10 {
      assert s == last;
      assert s[..0] == [];
    } else {
      DigitsRead(n / 10);
      assert s == Digits(n / 10) + last;
      assert s[..|s| - 1] == Digits(n / 10);
    }
  }

  lemma OneDigit(n: nat)
    requires n < 10
    ensures |Digits(n)| == 1 && DigitValue(Digits(n)[0]) == n
  {
    DigitsRead(n);
    var s := Digits(n);
    assert s[..0] == [] && WholeValue([]) == 0;
  }

  lemma WholeOneMore(s: string, c: char)
    ensures WholeValue(s + [c]) == 10 * WholeValue(s) + DigitValue(c)
  {
    assert (s + [c])[..|s|] == s;
  }

  /** The four digits behind the point. */
  function Places(n: nat): string {
    Digits(n / 1000 % 10) + Digits(n / 100 % 10) + Digits(n / 10 % 10) + Digits(n % 10)
  }

  lemma FourRead(a: char, b: char, c: char, d: char)
    ensures WholeValue([a, b, c, d])
         == DigitValue(a) * 1000 + DigitValue(b) * 100 + DigitValue(c) * 10 + DigitValue(d)
  {
    assert [a, b, c, d] == [a, b, c] + [d] && [a, b, c] == [a, b] + [c] && [a, b] == [a] + [b] && [a] == [] + [a];
    WholeOneMore([a, b, c], d);
    WholeOneMore([a, b], c);
    WholeOneMore([a], b);
    WholeOneMore([], a);
  }

  lemma PlacesRead(n: nat)
    ensures |Places(n)| == 4 && WholeValue(Places(n)) == n % 10000
    ensures forall i | 0 <= i < 4 :: IsDigit(Places(n)[i])
  {
    var a, b, c, d := n / 1000 % 10, n / 100 % 10, n / 10 % 10, n % 10;
    FourPlaces(n);
    OneDigit(a);
    OneDigit(b);
    OneDigit(c);
    OneDigit(d);
    var w, x, y, z := Digits(a), Digits(b), Digits(c), Digits(d);
    hide WholeValue, Digits;
    assert Places(n) == w + x + y + z;
    assert w + x + y + z == [w[0], x[0], y[0], z[0]];
    FourRead(w[0], x[0], y[0], z[0]);
  }

  lemma FourPlaces(n: nat)
    ensures n / 1000 % 10 * 1000 + n / 100 % 10 * 100 + n / 10 % 10 * 10 + n % 10 == n % 10000
  {
    var a, b, c := n / 10, n / 100, n / 1000;
    assert n == 10 * a + n % 10 && a == 10 * b + a % 10 && b == 10 * c + b % 10;
    assert c == 10 * (n / 10000) + c % 10;
  }

  /** The text of a number of ten thousandths, without a sign. */
  function Unsigned(n: nat): string { Digits(n / 10000) + "." + Places(n) }

  lemma DecimalOfParts(whole: string, places: string)
    requires |places| == 4 && whole != [] && forall i | 0 <= i < |whole| :: IsDigit(whole[i])
    requires forall i | 0 <= i < 4 :: IsDigit(places[i])
    ensures var s := whole + "." + places;
            IsDecimal(s) && Decimal(s) == WholeValue(whole) as real + WholeValue(places) as real / 10000.0
  {
    var s := whole + "." + places;
    assert s[..|s| - 5] == whole && s[|s| - 4..] == places;
    forall i | 0 <= i < |s| && i != |s| - 5 ensures IsDigit(s[i]) {
      assert i > |s| - 5 ==> s[i] == places[i - |whole| - 1];
    }
  }

  lemma WholeAndPlaces(n: nat, q: nat, r: nat)
    requires n == 10000 * q + r
    ensures q as real + r as real / 10000.0 == n as real / 10000.0
  {
    assert n as real == 10000.0 * q as real + r as real;
  }

  lemma UnsignedRead(n: nat)
    ensures IsDecimal(Unsigned(n)) && Decimal(Unsigned(n)) == n as real / 10000.0
  {
    PlacesRead(n);
    DigitsRead(n / 10000);
    DecimalOfParts(Digits(n / 10000), Places(n));
    hide Digits, Places, WholeValue, Decimal, IsDecimal, IsDigit;
    WholeAndPlaces(n, n / 10000, n % 10000);
  }

  // ---------- the text of a number ----------

  /** The text is a decimal with four places that stands for the number to half of the last one. */
  lemma TextIsNear(x: real)
    ensures var s := FormatNumber(Number(x));
            && |s| >= 6 && IsDecimal(if s[0] == '-' then s[1..] else s)
            && x - 0.00005 <= Read(s) <= x + 0.00005
            && (s[0] == '-' <==> x < 0.0)
  {
    var rounded := Nearest(x * 10000.0);
    var n: nat := if x < 0.0 then -rounded else rounded;
    FixedReads(x, n);
    hide Nearest, Fixed4, Read, IsDecimal;
    TenThousandth(x, rounded);
  }

  lemma FixedReads(x: real, n: nat)
    requires n == if x < 0.0 then -Nearest(x * 10000.0) else Nearest(x * 10000.0)
    ensures var s := Fixed4(x);
            && |s| >= 6 && IsDecimal(if s[0] == '-' then s[1..] else s) && (s[0] == '-' <==> x < 0.0)
            && Read(s) == Nearest(x * 10000.0) as real / 10000.0
  {
    hide Decimal, Nearest;
    FixedIs(x, n);
    UnsignedRead(n);
    hide Fixed4, Unsigned;
    var s := Fixed4(x);
    if x < 0.0 {
      assert s[1..] == Unsigned(n);
      assert n as real == -(Nearest(x * 10000.0) as real);
    } else {
      assert s == Unsigned(n);
    }
  }

  lemma TenThousandth(x: real, n: int)
    requires x * 10000.0 - 0.5 <= n as real <= x * 10000.0 + 0.5
    ensures x - 0.00005 <= n as real / 10000.0 <= x + 0.00005
  {
  }

  lemma FixedIs(x: real, n: nat)
    requires n == if x < 0.0 then -Nearest(x * 10000.0) else Nearest(x * 10000.0)
    ensures Fixed4(x) == (if x < 0.0 then "-" else "") + Unsigned(n)
    ensures IsDigit(Unsigned(n)[0])
  {
    hide Digits, Nearest;
    var sign := if x < 0.0 then "-" else "";
    var w, a, b, c, d := Digits(n / 10000), Digits(n / 1000 % 10), Digits(n / 100 % 10), Digits(n / 10 % 10),
                         Digits(n % 10);
    assert Fixed4(x) == sign + w + "." + a + b + c + d;
    assert sign + w + "." + a + b + c + d == sign + (w + "." + (a + b + c + d));
  }

  /** Numbers with one text differ by at most a ten thousandth. */
  lemma OneTextIsNear(x: real, y: real)
    requires FormatNumber(Number(x)) == FormatNumber(Number(y))
    ensures x - 0.0001 <= y <= x + 0.0001
  {
    TextIsNear(x);
    TextIsNear(y);
  }

  /** Only the absence of a number has no text. */
  lemma BlankExactlyWithoutNumber(cell: Cell)
    ensures FormatNumber(cell) == "" <==> !cell.Number?
  {
    if cell.Number? {
      TextIsNear(cell.number);
    }
  }

  /** Cells that hold numbers, to a ten thousandth the same, or no number at all. */
  predicate NearCells(a: Cell, b: Cell) {
    if a.Number? && b.Number? then a.number - 0.0001 <= b.number <= a.number + 0.0001 else !a.Number? && !b.Number?
  }

  lemma OneTextIsNearCells(a: Cell, b: Cell)
    requires FormatNumber(a) == FormatNumber(b)
    ensures NearCells(a, b)
  {
    BlankExactlyWithoutNumber(a);
    BlankExactlyWithoutNumber(b);
    if a.Number? && b.Number? {
      OneTextIsNear(a.number, b.number);
    }
  }

  // ---------- what rows with one key have in common ----------

  predicate SameText(a: Row, b: Row, column: Column) { Raw(Get(a, column)) == Raw(Get(b, column)) }

  predicate SameNumber(a: Row, b: Row, column: Column) { NearCells(Get(a, column), Get(b, column)) }

  /** One trade, as far as a natural key can tell: account, day, code and side, the price and the quantity, and of cash
      movements the amount. */
  predicate OneTrade(a: Row, b: Row) {
    && SameText(a, b, Account) && SameText(a, b, TradeDate) && SameText(a, b, Code) && SameText(a, b, Side)
    && SameNumber(a, b, Price) && SameNumber(a, b, Qty)
    && (Raw(Get(a, Side)) == "OTHER" ==> SameNumber(a, b, Amount))
  }

  lemma OneKeyIsOneTrade(a: Row, b: Row)
    requires NaturalKey(a) == NaturalKey(b)
    ensures OneTrade(a, b)
  {
    hide FormatNumber;
    var x, y := NaturalKey(a), NaturalKey(b);
    assert x.account == y.account && x.date == y.date && x.code == y.code && x.side == y.side;
    assert x.price == y.price && x.qty == y.qty && x.amount == y.amount;
    OneTextIsNearCells(Get(a, Price), Get(b, Price));
    OneTextIsNearCells(Get(a, Qty), Get(b, Qty));
    if x.side == "OTHER" {
      OneTextIsNearCells(Get(a, Amount), Get(b, Amount));
    }
  }

  /** Nothing else goes into the key; the amount only of cash movements. */
  lemma KeyColumnsDecideTheKey(a: Row, b: Row)
    requires SameText(a, b, Account) && SameText(a, b, TradeDate) && SameText(a, b, Code) && SameText(a, b, Side)
    requires Get(a, Price) == Get(b, Price) && Get(a, Qty) == Get(b, Qty)
    requires Raw(Get(a, Side)) == "OTHER" ==> Get(a, Amount) == Get(b, Amount)
    ensures NaturalKey(a) == NaturalKey(b)
  {
  }

  /** Validated rows that the merge puts into one trade are one trade. */
  lemma MergedRowsAreOneTrade(built: seq<Trade>, rows: seq<Row>, key: string, i: nat, a: Row, b: Row)
    requires MergesAll(built, rows) && i < |TradesOf(built, key)| && forall row | row in rows :: Checked(row)
    requires var group := OfKey(WithKeys(rows), key);
             a in Layer(group, Sources(group), i) && b in Layer(group, Sources(group), i)
    ensures OneTrade(a, b)
  {
    TradesOfKey(built, rows, key, i);
    CheckedRowsJoinInjectively(a, b);
    OneKeyIsOneTrade(a, b);
  }

  /** Rows that the comparison counts under one key are one trade. */
  lemma ComparedRowsAreOneTrade(a: Row, b: Row)
    requires BrokerReconcile.IfTrading(a) != multiset{} && BrokerReconcile.IfTrading(a) == BrokerReconcile.IfTrading(b)
    ensures OneTrade(a, b)
  {
    assert NaturalKey(a) in BrokerReconcile.IfTrading(a) && NaturalKey(a) in BrokerReconcile.IfTrading(b);
    OneKeyIsOneTrade(a, b);
  }

  predicate IsTradeOf(row: Row, key: Key) { Get(row, Side) in [Text("BUY"), Text("SELL")] && NaturalKey(row) == key }

  /** The BUY and SELL rows of a key. */
  function TradesUnder(rows: seq<Row>, key: Key): set<nat> { set i: nat | i < |rows| && IsTradeOf(rows[i], key) }

  lemma {:induction false} KeysCountRows(rows: seq<Row>, key: Key)
    ensures BrokerReconcile.Keys(rows)[key] == |TradesUnder(rows, key)|
    decreases |rows|
  {
    hide IsTradeOf;
    if rows == [] {
      assert TradesUnder(rows, key) == {};
    } else {
      var rest, last := rows[..|rows| - 1], rows[|rows| - 1];
      assert rows == rest + [last];
      KeysCountRows(rest, key);
      OneRowCounts(last, key);
      OneMoreUnder(rest, last, key);
    }
  }

  lemma OneRowCounts(row: Row, key: Key)
    ensures BrokerReconcile.IfTrading(row)[key] == if IsTradeOf(row, key) then 1 else 0
  {
    hide NaturalKey;
  }

  lemma OneMoreUnder(rest: seq<Row>, last: Row, key: Key)
    ensures |TradesUnder(rest + [last], key)| == |TradesUnder(rest, key)| + if IsTradeOf(last, key) then 1 else 0
  {
    hide IsTradeOf;
    var before, after := TradesUnder(rest, key), TradesUnder(rest + [last], key);
    assert after == before + if IsTradeOf(last, key) then {|rest|} else {};
    assert |rest| !in before;
  }

  /** Of each key the comparison counts the rows both sources have, and those one has beyond the other. */
  lemma CompareCounts(a: seq<Row>, b: seq<Row>, key: Key)
    ensures var c, m, n := BrokerReconcile.Compare(a, b), |TradesUnder(a, key)|, |TradesUnder(b, key)|;
            && c.both[key] == (if m < n then m else n)
            && c.onlyA[key] == (if m < n then 0 else m - n)
            && c.onlyB[key] == (if m < n then n - m else 0)
  {
    KeysCountRows(a, key);
    KeysCountRows(b, key);
  }

  // ---------- what may not change silently ----------

  /** The text of a cell without white space around it. */
  predicate SameStripped(a: Row, b: Row, column: Column) { Stripped(Get(a, column)) == Stripped(Get(b, column)) }

  predicate SameEconomics(a: Row, b: Row) {
    && SameStripped(a, b, Account) && SameStripped(a, b, TradeDate) && SameStripped(a, b, TradeTime)
    && SameStripped(a, b, Code) && SameStripped(a, b, Side)
    && SameNumber(a, b, Price) && SameNumber(a, b, Qty) && SameNumber(a, b, Amount)
  }

  lemma OneSignatureIsOneEconomics(a: Row, b: Row)
    requires EconomicSignature(a) == EconomicSignature(b)
    ensures SameEconomics(a, b)
  {
    hide FormatNumber, Stripped;
    var x, y := EconomicSignature(a), EconomicSignature(b);
    assert x[0] == y[0] && x[1] == y[1] && x[2] == y[2] && x[3] == y[3];
    assert x[4] == y[4] && x[5] == y[5] && x[6] == y[6] && x[7] == y[7];
    OneTextIsNearCells(Get(a, Price), Get(b, Price));
    OneTextIsNearCells(Get(a, Qty), Get(b, Qty));
    OneTextIsNearCells(Get(a, Amount), Get(b, Amount));
  }

  /** A row that comes back under its hash with other economics is refused, and nothing is stored. */
  lemma AmendedRowIsRefused(files: Files, batch: seq<Row>, stored: Row, row: Row)
    requires batch != [] && (forall r | r in batch :: Kind(r) == Kind(batch[0]))
    requires Kind(batch[0]) in files && stored in files[Kind(batch[0])] && row in batch
    requires Hash(stored) == Hash(row) && !SameEconomics(stored, row)
    ensures Upserted(files, batch) == Err(IdentityConflict)
  {
    var rows := FileOf(files, Kind(batch[0]));
    if EconomicSignature(stored) == EconomicSignature(row) {
      OneSignatureIsOneEconomics(stored, row);
    }
    assert stored in rows + batch && row in rows + batch && !Agree(stored, row);
  }

  // ---------- identities ----------

  /** Rows with one identity: of one source, day and account with one trade id; or without trade ids, of one content and
      one number. */
  lemma OneIdentityIsOneRow(a: Row, b: Row, source: string, other: string, m: nat, n: nat)
    requires IdentityOf(a, source, m) == IdentityOf(b, other, n)
    ensures SameText(a, b, Account) && SameText(a, b, TradeDate) && SameText(a, b, TradeId)
    ensures Raw(Get(a, TradeId)) != "" ==> source == other
    ensures Raw(Get(a, TradeId)) == "" ==>
              && SameText(a, b, TradeTime) && SameText(a, b, Code) && SameText(a, b, Side) && m == n
              && SameNumber(a, b, Price) && SameNumber(a, b, Qty) && SameNumber(a, b, Amount)
  {
    hide FormatNumber;
    OneTextOfCells(a, b, Price);
    OneTextOfCells(a, b, Qty);
    OneTextOfCells(a, b, Amount);
  }

  lemma OneTextOfCells(a: Row, b: Row, column: Column)
    ensures FormatNumber(Get(a, column)) == FormatNumber(Get(b, column)) ==> SameNumber(a, b, column)
  {
    if FormatNumber(Get(a, column)) == FormatNumber(Get(b, column)) {
      OneTextIsNearCells(Get(a, column), Get(b, column));
    }
  }

  /** A trade id is all that counts of a row that has one, with its account and its day. */
  lemma TradeIdDecidesTheIdentity(a: Row, b: Row, source: string, m: nat, n: nat)
    requires SameText(a, b, Account) && SameText(a, b, TradeDate) && SameText(a, b, TradeId)
    requires Raw(Get(a, TradeId)) != ""
    ensures IdentityOf(a, source, m) == IdentityOf(b, source, n)
  {
  }
}
