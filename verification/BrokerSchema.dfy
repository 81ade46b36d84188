/** Normalised broker trades (autoresearch/broker/schema.py): the columns, what makes two rows the same
    trade, and what may not silently change. */
module BrokerSchema {
  import opened Strings

  datatype Column =
    | Account | TradeDate | TradeTime | Code | TsCode | Name | Side | BizType | Price | Qty | Amount
    | Commission | StampTax | TransferFee | OtherFee | NetAmount | BalanceAfter | TradeId
    | SourceKind | SourceFile | IngestedAt | Seq | RowHash

  /** A cell: nothing, text, or a number. */
  datatype Cell = Empty | Text(text: string) | Number(number: real)

  type Row = map<Column, Cell>

  /** The columns a lower-priority source may fill in. */
  const FILLABLE := [TradeTime, Name, Commission, StampTax, TransferFee, OtherFee, NetAmount, BalanceAfter]

  /** The columns of the economic identity, in order. */
  const ECONOMIC := [Account, TradeDate, TradeTime, Code, Side, Price, Qty, Amount]

  /** The columns of it that are compared as numbers. */
  const NUMERIC := {Price, Qty, Amount}

  function Get(row: Row, column: Column): Cell {
    if column in row then row[column] else Empty
  }

  predicate IsBlank(cell: Cell) {
    match cell
    case Empty => true
    case Text(s) => forall i | 0 <= i < |s| :: IsSpace(s[i])
    case Number(_) => false
  }

  /** `str.strip` */
  function Strip(s: string): string {
    if s == [] then s
    else if IsSpace(s[0]) then Strip(s[1..])
    else if IsSpace(s[|s| - 1]) then Strip(s[..|s| - 1])
    else s
  }

  /** A text cell as it is, and the stripped text of `_s`. */
  function Raw(cell: Cell): string { if cell.Text? then cell.text else "" }

  function Stripped(cell: Cell): string { if IsBlank(cell) then "" else Strip(Raw(cell)) }

  // ---------- numbers as text ----------

  function Digits(n: nat): (s: string)
    ensures s != [] && forall i | 0 <= i < |s| :: '0' <= s[i] <= '9'
  {
    (if n < 10 then [] else Digits(n / 10)) + ['0' + (n % 10) as char]
  }

  /** The nearest whole number, ties to even. */
  function Nearest(x: real): (n: int)
    ensures x - 0.5 <= n as real <= x + 0.5
  {
    var below := x.Floor;
    var above := x - below as real;
    if above < 0.5 || (above == 0.5 && below % 2 == 0) then below else below + 1
  }

  /** `f"{x:.4f}"` */
  function Fixed4(x: real): (s: string)
    ensures '|' !in s
  {
    var rounded := Nearest(x * 10000.0);
    var n: nat := if x < 0.0 then -rounded else rounded;
    (if x < 0.0 then "-" else "") + Digits(n / 10000) + "."
    + Digits(n / 1000 % 10) + Digits(n / 100 % 10) + Digits(n / 10 % 10) + Digits(n % 10)
  }

  /** `fmt_num`: blank for no number. After a raw file is read, a numeric column holds a number or
      nothing. */
  function FormatNumber(cell: Cell): (s: string)
    ensures '|' !in s
  {
    if cell.Number? then Fixed4(cell.number) else ""
  }

  // ---------- the natural key ----------

  datatype Key = Key(account: string, date: string, code: string, side: string,
                     price: string, qty: string, amount: string)

  /** `natural_key`: the one definition of the same trade in two sources. Cash movements are told apart
      by amount too. */
  function NaturalKey(row: Row): Key {
    var side := Raw(Get(row, Side));
    Key(Raw(Get(row, Account)), Raw(Get(row, TradeDate)), Raw(Get(row, Code)), side,
        FormatNumber(Get(row, Price)), FormatNumber(Get(row, Qty)),
        if side == "OTHER" then FormatNumber(Get(row, Amount)) else "")
  }

  function Parts(key: Key): (parts: seq<string>)
    ensures |parts| == 7
  {
    [key.account, key.date, key.code, key.side, key.price, key.qty, key.amount]
  }

  /** `"|".join` */
  function Join(parts: seq<string>): string {
    if parts == [] then "" else if |parts| == 1 then parts[0] else parts[0] + "|" + Join(parts[1..])
  }

  predicate BarFree(parts: seq<string>) { forall i | 0 <= i < |parts| :: '|' !in parts[i] }

  /** Joined keys are as good as the keys themselves while no part holds the separator. */
  lemma {:induction false} JoinIsInjective(a: seq<string>, b: seq<string>)
    requires |a| == |b| && BarFree(a) && BarFree(b) && Join(a) == Join(b)
    ensures a == b
    decreases |a|
  {
    if |a| > 1 {
      SameHead(a[0], Join(a[1..]), b[0], Join(b[1..]));
      JoinIsInjective(a[1..], b[1..]);
      assert a == [a[0]] + a[1..] && b == [b[0]] + b[1..];
    }
  }

  lemma SameHead(x: string, x': string, y: string, y': string)
    requires '|' !in x && '|' !in y && x + "|" + x' == y + "|" + y'
    ensures x == y && x' == y'
  {
    FirstBar(x, x', y, y');
    FirstBar(y, y', x, x');
    var s := x + "|" + x';
    assert x == s[..|x|] && y == s[..|y|];
    assert x' == s[|x| + 1..] && y' == s[|y| + 1..];
  }

  lemma FirstBar(x: string, x': string, y: string, y': string)
    requires '|' !in y && x + "|" + x' == y + "|" + y'
    ensures |y| <= |x|
  {
    var s := x + "|" + x';
    assert forall k | 0 <= k < |y| :: s[k] == y[k];
    assert s[|x|] == '|';
  }

  // ---------- validated rows ----------

  /** `\d{6}` also matches decimal digits outside ASCII. */
  predicate SixDigits(s: string) { |s| == 6 && forall i | 0 <= i < 6 :: IsDigit(s[i]) || s[i] as int >= 0x80 }

  predicate IsoDate(s: string) {
    |s| == 10 && forall i | 0 <= i < 10 :: if i in {4, 7} then s[i] == '-' else IsDigit(s[i])
  }

  /** What `validate` and `normalize` establish about the text columns of the natural key. */
  predicate Checked(row: Row) {
    && Raw(Get(row, Account)) in ["tpy", "gtht"]
    && IsoDate(Raw(Get(row, TradeDate)))
    && Raw(Get(row, Side)) in ["BUY", "SELL", "OTHER"]
    && (SixDigits(Raw(Get(row, Code))) || (Raw(Get(row, Side)) == "OTHER" && Raw(Get(row, Code)) == ""))
  }

  /** `natural_key_strings` */
  function Joined(key: Key): string { Join(Parts(key)) }

  lemma JoinedIsInjective(a: Key, b: Key)
    requires BarFree(Parts(a)) && BarFree(Parts(b)) && Joined(a) == Joined(b)
    ensures a == b
  {
    JoinIsInjective(Parts(a), Parts(b));
    assert forall i | 0 <= i < 7 :: Parts(a)[i] == Parts(b)[i];
  }

  lemma CheckedKeyIsBarFree(r: Row)
    requires Checked(r)
    ensures BarFree(Parts(NaturalKey(r)))
  {
  }

  /** Joined keys tell validated rows apart as well as the keys themselves do. */
  lemma CheckedRowsJoinInjectively(r: Row, r': Row)
    requires Checked(r) && Checked(r') && Joined(NaturalKey(r)) == Joined(NaturalKey(r'))
    ensures NaturalKey(r) == NaturalKey(r')
  {
    CheckedKeyIsBarFree(r);
    CheckedKeyIsBarFree(r');
    JoinedIsInjective(NaturalKey(r), NaturalKey(r'));
  }

  // ---------- the economic signature ----------

  /** `economic_signature` */
  function EconomicSignature(row: Row): (signature: seq<string>)
    ensures |signature| == |ECONOMIC|
  {
    seq(|ECONOMIC|, i requires 0 <= i < |ECONOMIC| =>
      if ECONOMIC[i] in NUMERIC then FormatNumber(Get(row, ECONOMIC[i])) else Stripped(Get(row, ECONOMIC[i])))
  }
}
