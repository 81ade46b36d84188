/** The text of a receipt row: canonical JSON (autoresearch/common/atomic.py), and the brackets and strings
    that are open in the middle of it. */
module ChainJson {
  import opened Wrappers
  import opened CommitChain

  // ---------- printing ----------

  const HEX := "0123456789abcdef"

  /** `ensure_ascii=False`: quotes, backslashes and control characters are escaped, nothing else is. */
  function EscapeChar(c: char): (text: string)
    ensures text != []
  {
    if c == '"' then "\\\""
    else if c == '\\' then "\\\\"
    else if c == '\n' then "\\n"
    else if c == '\r' then "\\r"
    else if c == '\t' then "\\t"
    else if c as int == 0x8 then "\\b"
    else if c as int == 0xc then "\\f"
    else if c as int < 0x20 then "\\u00" + [HEX[c as int / 16], HEX[c as int % 16]]
    else [c]
  }

  function Escape(s: string): string {
    if s == [] then "" else EscapeChar(s[0]) + Escape(s[1..])
  }

  function Quote(s: string): string { "\"" + Escape(s) + "\"" }

  function Commas(parts: seq<string>): string {
    if parts == [] then "" else if |parts| == 1 then parts[0] else parts[0] + "," + Commas(parts[1..])
  }

  datatype Value = Null | One | Text(text: string)

  datatype Field = Field(key: string, value: Value)

  function PrintValue(v: Value): string {
    match v
    case Null => "null"
    case One => "1"
    case Text(text) => Quote(text)
  }

  function PrintMember(key: string, value: string): string { Quote(key) + ":" + value }

  function PrintFields(fields: seq<Field>): (parts: seq<string>)
    ensures |parts| == |fields|
  {
    seq(|fields|, i requires 0 <= i < |fields| => PrintMember(fields[i].key, PrintValue(fields[i].value)))
  }

  function PrintObject(members: seq<string>): string { ['{'] + Commas(members) + ['}'] }

  function PrintObjects(objects: seq<seq<Field>>): (parts: seq<string>)
    ensures |parts| == |objects|
  {
    seq(|objects|, i requires 0 <= i < |objects| => PrintObject(PrintFields(objects[i])))
  }

  function PrintList(objects: seq<seq<Field>>): string { ['['] + Commas(PrintObjects(objects)) + [']'] }

  /** An object whose last member is a list of objects. */
  function PrintRow(fields: seq<Field>, last: string, objects: seq<seq<Field>>): string {
    PrintObject(PrintFields(fields) + [PrintMember(last, PrintList(objects))])
  }

  // ---------- receipts ----------

  function Optional(s: Option<string>): Value { if s.Some? then Text(s.value) else Null }

  function StatusText(status: EffectStatus): string {
    match status
    case Applied => "APPLIED"
    case AlreadyApplied => "ALREADY_APPLIED"
    case SupersededByNewer => "SUPERSEDED_BY_NEWER"
    case Conflict => "CONFLICT"
  }

  function EffectFields(e: StateEffect): seq<Field> {
    [Field("after_hash", Text(e.after)), Field("before_hash", Optional(e.before)),
     Field("status", Text(StatusText(e.status))), Field("target_key", Text(e.target))]
  }

  /** The members of a receipt but the last, in the order of their sorted keys. */
  function ReceiptFields(r: Receipt): seq<Field> {
    [Field("bundle_hash", Text(r.body.bundleHash)),
     Field("canonical_path", Text(r.body.canonicalPath)),
     Field("capsule_root_hash", Text(r.body.capsuleRootHash)),
     Field("committed_at", Text(r.body.committedAt)),
     Field("engine", Text(r.body.engine)),
     Field("previous_receipt_hash", Optional(r.body.previous)),
     Field("publication_id", Text(r.body.publicationId)),
     Field("receipt_hash", Text(r.receiptHash)),
     Field("run_id", Text(r.body.runId)),
     Field("schema_version", One)]
  }

  function EffectObjects(effects: seq<StateEffect>): (objects: seq<seq<Field>>)
    ensures |objects| == |effects|
  {
    seq(|effects|, i requires 0 <= i < |effects| => EffectFields(effects[i]))
  }

  const EFFECTS_KEY := "state_effects"

  /** `canonical_json` of a receipt. */
  function Print(r: Receipt): string { PrintRow(ReceiptFields(r), EFFECTS_KEY, EffectObjects(r.body.effects)) }

  // ---------- what is open at a place ----------

  datatype Mode = Plain | InString | Escaped

  /** How many brackets are open, and whether a string is. */
  datatype Scan = Scan(depth: int, mode: Mode)

  function Next(s: Scan, c: char): Scan {
    match s.mode
    case Plain =>
      if c == '"' then s.(mode := InString)
      else if c == '{' || c == '[' then s.(depth := s.depth + 1)
      else if c == '}' || c == ']' then s.(depth := s.depth - 1)
      else s
    case InString => if c == '"' then s.(mode := Plain) else if c == '\\' then s.(mode := Escaped) else s
    case Escaped => s.(mode := InString)
  }

  function ScanFrom(s: Scan, text: string): Scan
    decreases |text|
  {
    if text == [] then s else ScanFrom(Next(s, text[0]), text[1..])
  }

  const START := Scan(0, Plain)

  /** The text ends inside a string or before a bracket is closed. */
  predicate Unfinished(text: string) {
    var s := ScanFrom(START, text);
    s.mode != Plain || s.depth > 0
  }

  lemma {:induction false} ScanConcat(s: Scan, a: string, b: string)
    ensures ScanFrom(s, a + b) == ScanFrom(ScanFrom(s, a), b)
    decreases |a|
  {
    if a == [] {
      assert a + b == b;
    } else {
      assert (a + b)[1..] == a[1..] + b;
      ScanConcat(Next(s, a[0]), a[1..], b);
    }
  }

  /** What a text opens it closes, and it closes nothing else, from the depth d on. */
  predicate BalancedAt(text: string, d: int) {
    && ScanFrom(Scan(d, Plain), text) == Scan(d, Plain)
    && forall k | 0 <= k <= |text| :: ScanFrom(Scan(d, Plain), text[..k]).depth >= d
  }

  ghost predicate Balanced(text: string) { forall d :: BalancedAt(text, d) }

  lemma BalancedConcatAt(a: string, b: string, d: int)
    requires BalancedAt(a, d) && BalancedAt(b, d)
    ensures BalancedAt(a + b, d)
  {
    var s := Scan(d, Plain);
    ScanConcat(s, a, b);
    forall k | 0 <= k <= |a + b| ensures ScanFrom(s, (a + b)[..k]).depth >= d {
      if k <= |a| {
        assert (a + b)[..k] == a[..k];
      } else {
        assert (a + b)[..k] == a + b[..k - |a|];
        ScanConcat(s, a, b[..k - |a|]);
      }
    }
  }

  lemma BalancedConcat(a: string, b: string)
    requires Balanced(a) && Balanced(b)
    ensures Balanced(a + b)
  {
    forall d ensures BalancedAt(a + b, d) {
      BalancedConcatAt(a, b, d);
    }
  }

  predicate Bracket(c: char) { c in "{}[]" }

  /** Text without brackets and quotes. */
  lemma {:induction false} PlainIsBalanced(text: string)
    requires forall i | 0 <= i < |text| :: text[i] != '"' && !Bracket(text[i])
    ensures Balanced(text)
  {
    forall d ensures BalancedAt(text, d) {
      forall k | 0 <= k <= |text| ensures ScanFrom(Scan(d, Plain), text[..k]) == Scan(d, Plain) {
        PlainScan(text[..k], d);
      }
      assert text[..|text|] == text;
    }
  }

  lemma {:induction false} PlainScan(text: string, d: int)
    requires forall i | 0 <= i < |text| :: text[i] != '"' && !Bracket(text[i])
    ensures ScanFrom(Scan(d, Plain), text) == Scan(d, Plain)
  {
    if text != [] {
      PlainScan(text[1..], d);
    }
  }

  /** The opening bracket, and everything up to the closing one. */
  lemma WrappedScan(text: string, open: char, d: int, k: nat)
    requires Balanced(text) && (open == '{' || open == '[') && 0 < k <= |text| + 1
    ensures var s := ScanFrom(Scan(d, Plain), ([open] + text)[..k]);
            s.depth >= d + 1 && (k == |text| + 1 ==> s == Scan(d + 1, Plain))
  {
    assert ([open] + text)[..k] == [open] + text[..k - 1];
    ScanConcat(Scan(d, Plain), [open], text[..k - 1]);
    assert ScanFrom(Scan(d, Plain), [open]) == Scan(d + 1, Plain) by {
      assert [open][1..] == [];
    }
    assert BalancedAt(text, d + 1);
    assert text[..|text|] == text;
  }

  predicate Closes(open: char, close: char) { (open == '{' && close == '}') || (open == '[' && close == ']') }

  lemma WrappedIsBalanced(text: string, open: char, close: char)
    requires Balanced(text) && Closes(open, close)
    ensures Balanced([open] + text + [close])
  {
    var whole := [open] + text + [close];
    forall d ensures BalancedAt(whole, d) {
      var s := Scan(d, Plain);
      forall k | 0 <= k <= |text| + 1 ensures ScanFrom(s, whole[..k]).depth >= d {
        assert whole[..k] == ([open] + text)[..k];
        if k > 0 {
          WrappedScan(text, open, d, k);
        }
      }
      WholeScan(text, open, close, d);
      assert whole[..|whole|] == whole;
    }
  }

  lemma WholeScan(text: string, open: char, close: char, d: int)
    requires Balanced(text) && Closes(open, close)
    ensures ScanFrom(Scan(d, Plain), [open] + text + [close]) == Scan(d, Plain)
  {
    WrappedScan(text, open, d, |text| + 1);
    assert ([open] + text)[..|text| + 1] == [open] + text;
    ScanConcat(Scan(d, Plain), [open] + text, [close]);
    assert [close][1..] == [];
  }

  // ---------- strings ----------

  lemma EscapedCharStaysInside(c: char, d: int, k: nat)
    requires k <= |EscapeChar(c)|
    ensures var s := ScanFrom(Scan(d, InString), EscapeChar(c)[..k]);
            s.depth == d && (k == |EscapeChar(c)| ==> s.mode == InString)
  {
    var text := EscapeChar(c);
    if |text| == 1 {
      assert text[..k] == [] || (text[..k] == text && text[1..] == []);
    } else {
      assert text[0] == '\\';
      var s := Scan(d, Escaped);
      if k > 0 {
        assert text[..k][1..] == text[1..k];
        if k > 1 {
          assert text[1..k][1..] == text[2..k];
          assert forall i | 2 <= i < |text| :: text[i] != '"' && text[i] != '\\';
          InsideScan(text[2..k], d);
        }
      }
    }
  }

  lemma {:induction false} InsideScan(text: string, d: int)
    requires forall i | 0 <= i < |text| :: text[i] != '"' && text[i] != '\\'
    ensures ScanFrom(Scan(d, InString), text) == Scan(d, InString)
  {
    if text != [] {
      InsideScan(text[1..], d);
    }
  }

  lemma {:induction false} EscapeStaysInside(s: string, d: int, k: nat)
    requires k <= |Escape(s)|
    ensures var t := ScanFrom(Scan(d, InString), Escape(s)[..k]);
            t.depth == d && (k == |Escape(s)| ==> t.mode == InString)
    decreases |s|
  {
    if s != [] {
      var first, rest := EscapeChar(s[0]), Escape(s[1..]);
      if k <= |first| {
        assert Escape(s)[..k] == first[..k];
        EscapedCharStaysInside(s[0], d, k);
        if k == |first| {
          EscapeStaysInside(s[1..], d, 0);
        }
      } else {
        assert Escape(s)[..k] == first + rest[..k - |first|];
        ScanConcat(Scan(d, InString), first, rest[..k - |first|]);
        EscapedCharStaysInside(s[0], d, |first|);
        assert first[..|first|] == first;
        EscapeStaysInside(s[1..], d, k - |first|);
      }
    }
  }

  lemma QuoteIsBalanced(s: string)
    ensures Balanced(Quote(s))
  {
    forall d ensures BalancedAt(Quote(s), d) {
      var inner := Escape(s);
      forall k | 0 <= k <= |Quote(s)| ensures ScanFrom(Scan(d, Plain), Quote(s)[..k]).depth >= d {
        if 0 < k <= |inner| + 1 {
          QuoteScan(s, d, k);
        }
        if k == |Quote(s)| {
          QuoteCloses(s, d);
          assert Quote(s)[..k] == Quote(s);
        }
      }
      QuoteCloses(s, d);
    }
  }

  lemma QuoteScan(s: string, d: int, k: nat)
    requires 0 < k <= |Escape(s)| + 1
    ensures var t := ScanFrom(Scan(d, Plain), Quote(s)[..k]);
            t.depth == d && (k == |Escape(s)| + 1 ==> t.mode == InString)
  {
    assert Quote(s)[..k] == "\"" + Escape(s)[..k - 1];
    ScanConcat(Scan(d, Plain), "\"", Escape(s)[..k - 1]);
    assert "\""[1..] == [];
    EscapeStaysInside(s, d, k - 1);
  }

  lemma QuoteCloses(s: string, d: int)
    ensures ScanFrom(Scan(d, Plain), Quote(s)) == Scan(d, Plain)
  {
    var front := Quote(s)[..|Escape(s)| + 1];
    QuoteScan(s, d, |Escape(s)| + 1);
    assert Quote(s) == front + "\"";
    ScanConcat(Scan(d, Plain), front, "\"");
    assert "\""[1..] == [];
  }

  // ---------- objects ----------

  ghost predicate AllBalanced(parts: seq<string>) { forall i | 0 <= i < |parts| :: Balanced(parts[i]) }

  lemma {:induction false} CommasAreBalanced(parts: seq<string>)
    requires AllBalanced(parts)
    ensures Balanced(Commas(parts))
  {
    if parts == [] {
      PlainIsBalanced("");
    } else if |parts| > 1 {
      CommasAreBalanced(parts[1..]);
      PlainIsBalanced(",");
      BalancedConcat(parts[0], ",");
      BalancedConcat(parts[0] + ",", Commas(parts[1..]));
    }
  }

  lemma ValueIsBalanced(v: Value)
    ensures Balanced(PrintValue(v))
  {
    match v
    case Null => PlainIsBalanced("null");
    case One => PlainIsBalanced("1");
    case Text(text) => QuoteIsBalanced(text);
  }

  lemma MemberIsBalanced(key: string, value: string)
    requires Balanced(value)
    ensures Balanced(PrintMember(key, value))
  {
    QuoteIsBalanced(key);
    PlainIsBalanced(":");
    BalancedConcat(Quote(key), ":");
    BalancedConcat(Quote(key) + ":", value);
  }

  lemma FieldsAreBalanced(fields: seq<Field>)
    ensures AllBalanced(PrintFields(fields))
  {
    forall i | 0 <= i < |fields| ensures Balanced(PrintFields(fields)[i]) {
      ValueIsBalanced(fields[i].value);
      MemberIsBalanced(fields[i].key, PrintValue(fields[i].value));
    }
  }

  lemma ObjectsAreBalanced(objects: seq<seq<Field>>)
    ensures AllBalanced(PrintObjects(objects))
  {
    forall i | 0 <= i < |objects| ensures Balanced(PrintObjects(objects)[i]) {
      FieldsAreBalanced(objects[i]);
      CommasAreBalanced(PrintFields(objects[i]));
      WrappedIsBalanced(Commas(PrintFields(objects[i])), '{', '}');
    }
  }

  lemma RowMembersAreBalanced(fields: seq<Field>, last: string, objects: seq<seq<Field>>)
    ensures AllBalanced(PrintFields(fields) + [PrintMember(last, PrintList(objects))])
  {
    FieldsAreBalanced(fields);
    ObjectsAreBalanced(objects);
    CommasAreBalanced(PrintObjects(objects));
    WrappedIsBalanced(Commas(PrintObjects(objects)), '[', ']');
    MemberIsBalanced(last, PrintList(objects));
  }

  lemma PartOfAnObjectIsUnfinished(members: seq<string>, n: nat)
    requires AllBalanced(members) && 0 < n <= |PrintObject(members)|
    ensures Unfinished(PrintObject(members)[..n]) <==> n < |PrintObject(members)|
  {
    var inner, text := Commas(members), PrintObject(members);
    CommasAreBalanced(members);
    if n < |text| {
      assert text[..n] == (['{'] + inner)[..n];
      WrappedScan(inner, '{', 0, n);
    } else {
      assert text[..n] == text;
      WholeScan(inner, '{', '}', 0);
    }
  }

  lemma PartsOfAnObjectAreUnfinished(members: seq<string>)
    requires AllBalanced(members)
    ensures var text := PrintObject(members);
            1 < |text| && forall k | 0 < k <= |text| :: Unfinished(text[..k]) <==> k < |text|
  {
    forall k: nat | 0 < k <= |PrintObject(members)|
      ensures Unfinished(PrintObject(members)[..k]) <==> k < |PrintObject(members)|
    {
      PartOfAnObjectIsUnfinished(members, k);
    }
  }

  /** Part of a row is not a document: a string or a bracket is still open. The whole row is closed. */
  lemma PartOfARowIsUnfinished(r: Receipt)
    ensures 1 < |Print(r)| && forall k | 0 < k <= |Print(r)| :: Unfinished(Print(r)[..k]) <==> k < |Print(r)|
  {
    var fields, objects := ReceiptFields(r), EffectObjects(r.body.effects);
    RowMembersAreBalanced(fields, EFFECTS_KEY, objects);
    PartsOfAnObjectAreUnfinished(PrintFields(fields) + [PrintMember(EFFECTS_KEY, PrintList(objects))]);
  }

  // ---------- the characters of a row ----------

  /** A property that all printable ASCII characters have. */
  ghost predicate HoldsOfAscii(p: char -> bool) { forall c: char | 0x20 <= c as int < 0x7f :: p(c) }

  predicate IsAsciiText(text: string) { forall i | 0 <= i < |text| :: 0x20 <= text[i] as int < 0x7f }

  predicate AllChars(text: string, p: char -> bool) { forall i | 0 <= i < |text| :: p(text[i]) }

  /** Every character of a text that is printed as it is. */
  predicate AllPrinted(text: string, p: char -> bool) {
    forall i | 0 <= i < |text| :: text[i] as int >= 0x20 ==> p(text[i])
  }

  lemma EscapedChars(c: char, p: char -> bool)
    requires HoldsOfAscii(p)
    ensures AllChars(EscapeChar(c), p) <==> (c as int >= 0x20 ==> p(c))
  {
    var text := EscapeChar(c);
    if |text| > 1 {
      assert IsAsciiText(text);
    } else {
      assert text == [c] && text[0] == c;
    }
  }

  lemma PrintedFirst(s: string, p: char -> bool)
    requires s != []
    ensures AllPrinted(s, p) <==> (s[0] as int >= 0x20 ==> p(s[0])) && AllPrinted(s[1..], p)
  {
    assert s == [s[0]] + s[1..];
  }

  lemma {:induction false} EscapeChars(s: string, p: char -> bool)
    requires HoldsOfAscii(p)
    ensures AllChars(Escape(s), p) <==> AllPrinted(s, p)
  {
    if s != [] {
      EscapeChars(s[1..], p);
      EscapedChars(s[0], p);
      CharsConcat(EscapeChar(s[0]), Escape(s[1..]), p);
      PrintedFirst(s, p);
    }
  }

  lemma CharsConcat(a: string, b: string, p: char -> bool)
    ensures AllChars(a + b, p) <==> AllChars(a, p) && AllChars(b, p)
  {
    var c := a + b;
    if AllChars(c, p) {
      forall i | 0 <= i < |a| ensures p(a[i]) {
        assert c[i] == a[i];
      }
      forall i | 0 <= i < |b| ensures p(b[i]) {
        assert c[|a| + i] == b[i];
      }
    }
  }

  lemma QuoteChars(s: string, p: char -> bool)
    requires HoldsOfAscii(p)
    ensures AllChars(Quote(s), p) <==> AllPrinted(s, p)
  {
    EscapeChars(s, p);
    CharsConcat("\"", Escape(s), p);
    CharsConcat("\"" + Escape(s), "\"", p);
  }

  lemma AsciiChars(text: string, p: char -> bool)
    requires HoldsOfAscii(p) && IsAsciiText(text)
    ensures AllChars(text, p) && AllPrinted(text, p)
  {
  }

  lemma MemberChars(key: string, value: string, p: char -> bool)
    requires HoldsOfAscii(p) && IsAsciiText(key)
    ensures AllChars(PrintMember(key, value), p) <==> AllChars(value, p)
  {
    AsciiChars(key, p);
    QuoteChars(key, p);
    CharsConcat(Quote(key), ":", p);
    CharsConcat(Quote(key) + ":", value, p);
  }

  predicate AllParts(parts: seq<string>, p: char -> bool) { forall i | 0 <= i < |parts| :: AllChars(parts[i], p) }

  lemma {:induction false} CommasChars(parts: seq<string>, p: char -> bool)
    requires HoldsOfAscii(p)
    ensures AllChars(Commas(parts), p) <==> AllParts(parts, p)
  {
    if |parts| > 1 {
      CommasChars(parts[1..], p);
      CharsConcat(parts[0], ",", p);
      CharsConcat(parts[0] + ",", Commas(parts[1..]), p);
      assert AllParts(parts, p) <==> AllChars(parts[0], p) && AllParts(parts[1..], p) by {
        if AllParts(parts, p) {
          forall i | 0 <= i < |parts[1..]| ensures AllChars(parts[1..][i], p) {
            assert parts[1..][i] == parts[i + 1];
          }
        }
        if AllParts(parts[1..], p) && AllChars(parts[0], p) {
          forall i | 0 <= i < |parts| ensures AllChars(parts[i], p) {
            assert i > 0 ==> parts[i] == parts[1..][i - 1];
          }
        }
      }
    }
  }

  lemma WrappedChars(text: string, open: char, close: char, p: char -> bool)
    requires HoldsOfAscii(p) && Closes(open, close)
    ensures AllChars([open] + text + [close], p) <==> AllChars(text, p)
  {
    CharsConcat([open], text, p);
    CharsConcat([open] + text, [close], p);
  }

  predicate ValuePrinted(v: Value, p: char -> bool) { v.Text? ==> AllPrinted(v.text, p) }

  predicate AsciiKeys(fields: seq<Field>) { forall i | 0 <= i < |fields| :: IsAsciiText(fields[i].key) }

  predicate FieldsPrinted(fields: seq<Field>, p: char -> bool) {
    forall i | 0 <= i < |fields| :: ValuePrinted(fields[i].value, p)
  }

  lemma FieldChars(field: Field, p: char -> bool)
    requires HoldsOfAscii(p) && IsAsciiText(field.key)
    ensures AllChars(PrintMember(field.key, PrintValue(field.value)), p) <==> ValuePrinted(field.value, p)
  {
    MemberChars(field.key, PrintValue(field.value), p);
    match field.value
    case Null => AsciiChars("null", p);
    case One => AsciiChars("1", p);
    case Text(text) => QuoteChars(text, p);
  }

  lemma FieldsChars(fields: seq<Field>, p: char -> bool)
    requires HoldsOfAscii(p) && AsciiKeys(fields)
    ensures AllParts(PrintFields(fields), p) <==> FieldsPrinted(fields, p)
  {
    forall i | 0 <= i < |fields| ensures AllChars(PrintFields(fields)[i], p) <==> ValuePrinted(fields[i].value, p) {
      FieldChars(fields[i], p);
    }
  }

  lemma ObjectsChars(objects: seq<seq<Field>>, p: char -> bool)
    requires HoldsOfAscii(p) && forall i | 0 <= i < |objects| :: AsciiKeys(objects[i])
    ensures AllParts(PrintObjects(objects), p) <==> forall i | 0 <= i < |objects| :: FieldsPrinted(objects[i], p)
  {
    forall i | 0 <= i < |objects| ensures AllChars(PrintObjects(objects)[i], p) <==> FieldsPrinted(objects[i], p) {
      FieldsChars(objects[i], p);
      CommasChars(PrintFields(objects[i]), p);
      WrappedChars(Commas(PrintFields(objects[i])), '{', '}', p);
    }
  }

  lemma OnePartMore(parts: seq<string>, last: string, p: char -> bool)
    ensures AllParts(parts + [last], p) <==> AllParts(parts, p) && AllChars(last, p)
  {
    var all := parts + [last];
    if AllParts(all, p) {
      assert AllChars(all[|parts|], p);
      forall i | 0 <= i < |parts| ensures AllChars(parts[i], p) {
        assert all[i] == parts[i];
      }
    }
  }

  lemma PrintedRowChars(fields: seq<Field>, last: string, objects: seq<seq<Field>>, p: char -> bool)
    requires HoldsOfAscii(p) && AsciiKeys(fields) && IsAsciiText(last)
    requires forall i | 0 <= i < |objects| :: AsciiKeys(objects[i])
    ensures AllChars(PrintRow(fields, last, objects), p)
        <==> FieldsPrinted(fields, p) && forall i | 0 <= i < |objects| :: FieldsPrinted(objects[i], p)
  {
    var member := PrintMember(last, PrintList(objects));
    WrappedChars(Commas(PrintFields(fields) + [member]), '{', '}', p);
    CommasChars(PrintFields(fields) + [member], p);
    OnePartMore(PrintFields(fields), member, p);
    FieldsChars(fields, p);
    MemberChars(last, PrintList(objects), p);
    WrappedChars(Commas(PrintObjects(objects)), '[', ']', p);
    CommasChars(PrintObjects(objects), p);
    ObjectsChars(objects, p);
  }

  predicate EffectPrinted(e: StateEffect, p: char -> bool) {
    AllPrinted(e.after, p) && (e.before.Some? ==> AllPrinted(e.before.value, p)) && AllPrinted(e.target, p)
  }

  /** Every character the receipt holds and canonical JSON prints as it is. */
  predicate ReceiptPrinted(r: Receipt, p: char -> bool) {
    && AllPrinted(r.body.bundleHash, p) && AllPrinted(r.body.canonicalPath, p)
    && AllPrinted(r.body.capsuleRootHash, p) && AllPrinted(r.body.committedAt, p)
    && AllPrinted(r.body.engine, p) && (r.body.previous.Some? ==> AllPrinted(r.body.previous.value, p))
    && AllPrinted(r.body.publicationId, p) && AllPrinted(r.receiptHash, p) && AllPrinted(r.body.runId, p)
    && forall i | 0 <= i < |r.body.effects| :: EffectPrinted(r.body.effects[i], p)
  }

  lemma StatusIsAscii(status: EffectStatus)
    ensures IsAsciiText(StatusText(status))
  {
  }

  lemma EffectKeysAreAscii()
    ensures IsAsciiText("after_hash") && IsAsciiText("before_hash") && IsAsciiText("status")
            && IsAsciiText("target_key")
  {
  }

  lemma HashKeysAreAscii()
    ensures IsAsciiText("bundle_hash") && IsAsciiText("capsule_root_hash")
    ensures IsAsciiText("previous_receipt_hash") && IsAsciiText("receipt_hash")
  {
  }

  lemma NameKeysAreAscii()
    ensures IsAsciiText("canonical_path") && IsAsciiText("committed_at") && IsAsciiText("engine")
    ensures IsAsciiText("publication_id") && IsAsciiText("run_id") && IsAsciiText("schema_version")
  {
  }

  lemma FourKeys(fields: seq<Field>, a: string, b: string, c: string, d: string)
    requires |fields| == 4 && fields[0].key == a && fields[1].key == b && fields[2].key == c && fields[3].key == d
    requires IsAsciiText(a) && IsAsciiText(b) && IsAsciiText(c) && IsAsciiText(d)
    ensures AsciiKeys(fields)
  {
  }

  lemma EffectFieldsPrinted(e: StateEffect, fields: seq<Field>, p: char -> bool)
    requires HoldsOfAscii(p) && fields == EffectFields(e)
    ensures AsciiKeys(fields)
    ensures FieldsPrinted(fields, p) <==> EffectPrinted(e, p)
  {
    EffectKeysAreAscii();
    FourKeys(fields, "after_hash", "before_hash", "status", "target_key");
    StatusIsAscii(e.status);
    AsciiChars(StatusText(e.status), p);
    FourValues(fields, p);
  }

  lemma FourValues(fields: seq<Field>, p: char -> bool)
    requires |fields| == 4
    ensures FieldsPrinted(fields, p)
        <==> ValuePrinted(fields[0].value, p) && ValuePrinted(fields[1].value, p)
             && ValuePrinted(fields[2].value, p) && ValuePrinted(fields[3].value, p)
  {
  }

  lemma ReceiptKeysAreAscii(r: Receipt)
    ensures AsciiKeys(ReceiptFields(r))
  {
    HashKeysAreAscii();
    NameKeysAreAscii();
    var fields := ReceiptFields(r);
    FourKeys(fields[..4], "bundle_hash", "canonical_path", "capsule_root_hash", "committed_at");
    FourKeys(fields[4..8], "engine", "previous_receipt_hash", "publication_id", "receipt_hash");
    assert fields == fields[..4] + fields[4..8] + fields[8..];
  }

  lemma LastKeyIsAscii()
    ensures IsAsciiText(EFFECTS_KEY)
  {
  }

  lemma ReceiptFieldsPrinted(r: Receipt, p: char -> bool)
    ensures FieldsPrinted(ReceiptFields(r), p)
        <==> AllPrinted(r.body.bundleHash, p) && AllPrinted(r.body.canonicalPath, p)
             && AllPrinted(r.body.capsuleRootHash, p) && AllPrinted(r.body.committedAt, p)
             && AllPrinted(r.body.engine, p) && (r.body.previous.Some? ==> AllPrinted(r.body.previous.value, p))
             && AllPrinted(r.body.publicationId, p) && AllPrinted(r.receiptHash, p) && AllPrinted(r.body.runId, p)
  {
    var fields := ReceiptFields(r);
    assert FieldsPrinted(fields, p)
      <==> ValuePrinted(fields[0].value, p) && ValuePrinted(fields[1].value, p) && ValuePrinted(fields[2].value, p)
           && ValuePrinted(fields[3].value, p) && ValuePrinted(fields[4].value, p) && ValuePrinted(fields[5].value, p)
           && ValuePrinted(fields[6].value, p) && ValuePrinted(fields[7].value, p) && ValuePrinted(fields[8].value, p)
           && ValuePrinted(fields[9].value, p);
  }

  lemma EffectsPrinted(effects: seq<StateEffect>, objects: seq<seq<Field>>, p: char -> bool)
    requires HoldsOfAscii(p) && objects == EffectObjects(effects)
    ensures forall i | 0 <= i < |objects| :: AsciiKeys(objects[i])
    ensures (forall i | 0 <= i < |objects| :: FieldsPrinted(objects[i], p))
        <==> forall i | 0 <= i < |effects| :: EffectPrinted(effects[i], p)
  {
    forall i | 0 <= i < |effects|
      ensures AsciiKeys(objects[i]) && (FieldsPrinted(objects[i], p) <==> EffectPrinted(effects[i], p))
    {
      EffectFieldsPrinted(effects[i], objects[i], p);
    }
  }

  /** The characters of a row are printable ASCII and those its receipt holds. */
  lemma RowChars(r: Receipt, p: char -> bool)
    requires HoldsOfAscii(p)
    ensures AllChars(Print(r), p) <==> ReceiptPrinted(r, p)
  {
    EffectsPrinted(r.body.effects, EffectObjects(r.body.effects), p);
    ReceiptKeysAreAscii(r);
    LastKeyIsAscii();
    ReceiptFieldsPrinted(r, p);
    PrintedRowChars(ReceiptFields(r), EFFECTS_KEY, EffectObjects(r.body.effects), p);
  }
}
