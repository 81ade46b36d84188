/** The canonical JSON of a receipt (autoresearch/common/atomic.py) can be read back in one way only. */
module JsonDecodes {
  import opened Wrappers
  import opened CommitChain
  import opened ChainJson
  import opened ChainText

  // ---------- strings ----------

  /** The escape of one character is never the start of the escape of another. */
  lemma EscapeCharDecodes(c: char, d: char, x: string, y: string)
    requires EscapeChar(c) + x == EscapeChar(d) + y
    ensures c == d && x == y
  {
    var a, b := EscapeChar(c), EscapeChar(d);
    assert (a + x)[0] == (b + y)[0] && a[0] == (a + x)[0] && b[0] == (b + y)[0];
    if |a| > 1 && |b| > 1 {
      assert a[1] == (a + x)[1] == (b + y)[1] == b[1];
      if |a| == 6 && |b| == 6 {
        assert a[4] == (a + x)[4] == (b + y)[4] == b[4];
        assert a[5] == (a + x)[5] == (b + y)[5] == b[5];
        HexDecodes(c as int / 16, d as int / 16);
        HexDecodes(c as int % 16, d as int % 16);
      }
    }
    assert x == (a + x)[|a|..] && y == (b + y)[|b|..];
  }

  lemma HexDecodes(m: nat, n: nat)
    requires m < 16 && n < 16 && HEX[m] == HEX[n]
    ensures m == n
  {
  }

  lemma Rest(a: string, x: string, b: string, y: string)
    requires a + x == b + y && |a| == |b|
    ensures a == b && x == y
  {
    assert a == (a + x)[..|a|] && b == (b + y)[..|b|];
    assert x == (a + x)[|a|..] && y == (b + y)[|b|..];
  }

  lemma Regroup(a: string, b: string, c: string)
    ensures (a + b) + c == a + (b + c)
  {
  }

  lemma EscapeIsNoQuote(c: char)
    ensures EscapeChar(c)[0] != '"'
  {
  }

  lemma EscapeStarts(s: string, x: string)
    requires s != ""
    ensures Escape(s) + x == EscapeChar(s[0]) + (Escape(s[1..]) + x) && EscapeChar(s[0])[0] != '"'
  {
    hide EscapeChar;
    EscapeIsNoQuote(s[0]);
    Regroup(EscapeChar(s[0]), Escape(s[1..]), x);
  }

  lemma {:induction false} EscapeDecodes(s: string, t: string, x: string, y: string)
    requires Escape(s) + ("\"" + x) == Escape(t) + ("\"" + y)
    ensures s == t && x == y
    decreases |s|
  {
    if s != "" {
      EscapeStarts(s, "\"" + x);
    }
    if t != "" {
      EscapeStarts(t, "\"" + y);
    }
    assert s == "" ==> (Escape(s) + ("\"" + x))[0] == '"';
    assert t == "" ==> (Escape(t) + ("\"" + y))[0] == '"';
    if s != "" && t != "" {
      EscapeCharDecodes(s[0], t[0], Escape(s[1..]) + ("\"" + x), Escape(t[1..]) + ("\"" + y));
      EscapeDecodes(s[1..], t[1..], x, y);
      assert s == [s[0]] + s[1..] && t == [t[0]] + t[1..];
    } else if s == "" && t == "" {
      assert Escape(s) + ("\"" + x) == "\"" + x && Escape(t) + ("\"" + y) == "\"" + y;
      Rest("\"", x, "\"", y);
    }
  }

  lemma QuoteStarts(s: string, x: string)
    ensures Quote(s) + x == "\"" + (Escape(s) + ("\"" + x))
  {
    hide Escape;
  }

  lemma QuoteDecodes(s: string, t: string, x: string, y: string)
    requires Quote(s) + x == Quote(t) + y
    ensures s == t && x == y
  {
    hide Quote, Escape;
    QuoteStarts(s, x);
    QuoteStarts(t, y);
    Rest("\"", Escape(s) + ("\"" + x), "\"", Escape(t) + ("\"" + y));
    EscapeDecodes(s, t, x, y);
  }

  // ---------- values and members ----------

  lemma ValueDecodes(v: Value, w: Value, x: string, y: string)
    requires PrintValue(v) + x == PrintValue(w) + y
    ensures v == w && x == y
  {
    var a, b := PrintValue(v), PrintValue(w);
    assert a[0] == (a + x)[0] == (b + y)[0] == b[0];
    if v.Text? && w.Text? {
      QuoteDecodes(v.text, w.text, x, y);
    } else {
      Rest(a, x, b, y);
    }
  }

  predicate SameNames(fields: seq<Field>, other: seq<Field>) {
    |fields| == |other| && forall i | 0 <= i < |fields| :: fields[i].key == other[i].key
  }

  lemma MemberDecodes(f: Field, g: Field, x: string, y: string)
    requires f.key == g.key
    requires PrintMember(f.key, PrintValue(f.value)) + x == PrintMember(g.key, PrintValue(g.value)) + y
    ensures f == g && x == y
  {
    var name := Quote(f.key) + ":";
    assert PrintMember(f.key, PrintValue(f.value)) + x == name + (PrintValue(f.value) + x);
    assert PrintMember(g.key, PrintValue(g.value)) + y == name + (PrintValue(g.value) + y);
    Rest(name, PrintValue(f.value) + x, name, PrintValue(g.value) + y);
    ValueDecodes(f.value, g.value, x, y);
  }

  /** The first part, a comma, and the others. */
  lemma CommasStart(parts: seq<string>, x: string)
    requires |parts| > 1
    ensures Commas(parts) + x == parts[0] + ("," + (Commas(parts[1..]) + x))
  {
  }

  lemma PrintFieldsRest(fields: seq<Field>)
    requires fields != []
    ensures PrintFields(fields)[1..] == PrintFields(fields[1..])
  {
  }

  /** Members with the same names in the same order, and something behind them. */
  lemma {:induction false} FieldsDecode(f: seq<Field>, g: seq<Field>, x: string, y: string)
    requires SameNames(f, g) && Commas(PrintFields(f)) + x == Commas(PrintFields(g)) + y
    ensures f == g && x == y
    decreases |f|
  {
    if f == [] {
      assert "" + x == x && "" + y == y;
    } else if |f| == 1 {
      MemberDecodes(f[0], g[0], x, y);
    } else {
      CommasStart(PrintFields(f), x);
      CommasStart(PrintFields(g), y);
      PrintFieldsRest(f);
      PrintFieldsRest(g);
      var a, b := Commas(PrintFields(f[1..])) + x, Commas(PrintFields(g[1..])) + y;
      MemberDecodes(f[0], g[0], "," + a, "," + b);
      Rest(",", a, ",", b);
      FieldsDecode(f[1..], g[1..], x, y);
      assert f == [f[0]] + f[1..] && g == [g[0]] + g[1..];
    }
  }

  lemma ObjectText(members: seq<string>, x: string)
    ensures PrintObject(members) + x == "{" + (Commas(members) + ("}" + x))
  {
    hide Commas;
  }

  lemma ObjectDecodes(f: seq<Field>, g: seq<Field>, x: string, y: string)
    requires SameNames(f, g) && PrintObject(PrintFields(f)) + x == PrintObject(PrintFields(g)) + y
    ensures f == g && x == y
  {
    var a, b := Commas(PrintFields(f)) + ("}" + x), Commas(PrintFields(g)) + ("}" + y);
    hide PrintObject, Commas, PrintFields;
    ObjectText(PrintFields(f), x);
    ObjectText(PrintFields(g), y);
    Rest("{", a, "{", b);
    FieldsDecode(f, g, "}" + x, "}" + y);
    Rest("}", x, "}", y);
  }

  // ---------- a list of objects ----------

  /** All objects of both lists have the same names. */
  predicate OneKind(f: seq<seq<Field>>, g: seq<seq<Field>>) {
    forall i, j | 0 <= i < |f| && 0 <= j < |g| :: SameNames(f[i], g[j])
  }

  /** The objects of a list and the bracket behind them, one object taken off. */
  function Tail(objects: seq<seq<Field>>, x: string): string
    requires objects != []
  {
    if |objects| == 1 then "]" + x else "," + (Commas(PrintObjects(objects[1..])) + ("]" + x))
  }

  lemma ListStarts(objects: seq<seq<Field>>, x: string)
    requires objects != []
    ensures Commas(PrintObjects(objects)) + ("]" + x) == PrintObject(PrintFields(objects[0])) + Tail(objects, x)
  {
    var parts := PrintObjects(objects);
    if |objects| > 1 {
      assert parts[1..] == PrintObjects(objects[1..]);
      CommasStart(parts, "]" + x);
    }
  }

  lemma ObjectStarts(objects: seq<seq<Field>>, x: string)
    requires objects != []
    ensures var text := Commas(PrintObjects(objects)) + ("]" + x); text != "" && text[0] == '{'
  {
    ListStarts(objects, x);
  }

  lemma {:induction false} ObjectsDecode(f: seq<seq<Field>>, g: seq<seq<Field>>, x: string, y: string)
    requires OneKind(f, g)
    requires Commas(PrintObjects(f)) + ("]" + x) == Commas(PrintObjects(g)) + ("]" + y)
    ensures f == g && x == y
    decreases |f|
  {
    if f != [] {
      ObjectStarts(f, x);
      ListStarts(f, x);
    }
    if g != [] {
      ObjectStarts(g, y);
      ListStarts(g, y);
    }
    if f != [] && g != [] {
      ObjectDecodes(f[0], g[0], Tail(f, x), Tail(g, y));
      assert Tail(f, x)[0] == Tail(g, y)[0];
      TailsDecode(f, g, x, y);
    } else {
      assert "" + ("]" + x) == "]" + x && "" + ("]" + y) == "]" + y;
      Rest("]", x, "]", y);
    }
  }

  lemma {:induction false} TailsDecode(f: seq<seq<Field>>, g: seq<seq<Field>>, x: string, y: string)
    requires f != [] && g != [] && f[0] == g[0] && OneKind(f, g) && Tail(f, x) == Tail(g, y)
    ensures f == g && x == y
    decreases |f|, 0
  {
    assert Tail(f, x)[0] == Tail(g, y)[0];
    if |f| == 1 {
      Rest("]", x, "]", y);
    } else {
      Rest(",", Commas(PrintObjects(f[1..])) + ("]" + x), ",", Commas(PrintObjects(g[1..])) + ("]" + y));
      ObjectsDecode(f[1..], g[1..], x, y);
    }
    assert f == [f[0]] + f[1..] && g == [g[0]] + g[1..];
  }

  // ---------- receipts ----------

  lemma MembersAndOneMore(parts: seq<string>, last: string)
    requires parts != []
    ensures Commas(parts + [last]) == Commas(parts) + ("," + last)
    decreases |parts|
  {
    var all := parts + [last];
    if |parts| == 1 {
      assert all[1..] == [last];
    } else {
      assert all[1..] == parts[1..] + [last];
      MembersAndOneMore(parts[1..], last);
    }
  }

  /** What stands between the members of a row and its objects. */
  function ListName(last: string): string { "," + Quote(last) + ":[" }

  lemma RowStarts(fields: seq<Field>, last: string, objects: seq<seq<Field>>)
    requires fields != []
    ensures PrintRow(fields, last, objects)
         == "{" + (Commas(PrintFields(fields)) + (ListName(last) + (Commas(PrintObjects(objects)) + "]}")))
  {
    var text := Commas(PrintObjects(objects));
    MembersAndOneMore(PrintFields(fields), PrintMember(last, PrintList(objects)));
    hide Commas, PrintFields, PrintObjects, Quote;
    assert ("," + PrintMember(last, PrintList(objects))) + "}" == ListName(last) + (text + "]}") by {
      Between(Quote(last), text);
    }
    Regroup(Commas(PrintFields(fields)), "," + PrintMember(last, PrintList(objects)), "}");
    Regroup("{", Commas(PrintFields(fields)) + ("," + PrintMember(last, PrintList(objects))), "}");
  }

  lemma Between(name: string, text: string)
    ensures ("," + (name + ":" + ("[" + text + "]"))) + "}" == "," + name + ":[" + (text + "]}")
  {
  }

  lemma RowDecodes(f: seq<Field>, g: seq<Field>, last: string, a: seq<seq<Field>>, b: seq<seq<Field>>)
    requires SameNames(f, g) && f != [] && OneKind(a, b) && PrintRow(f, last, a) == PrintRow(g, last, b)
    ensures f == g && a == b
  {
    RowStarts(f, last, a);
    RowStarts(g, last, b);
    var name := ListName(last);
    var x, y := Commas(PrintObjects(a)) + "]}", Commas(PrintObjects(b)) + "]}";
    Rest("{", Commas(PrintFields(f)) + (name + x), "{", Commas(PrintFields(g)) + (name + y));
    FieldsDecode(f, g, name + x, name + y);
    Rest(name, x, name, y);
    assert "]}" == "]" + "}";
    ObjectsDecode(a, b, "}", "}");
  }

  lemma StatusDecodes(s: EffectStatus, t: EffectStatus)
    requires StatusText(s) == StatusText(t)
    ensures s == t
  {
  }

  lemma EffectDecodes(e: StateEffect, f: StateEffect)
    requires EffectFields(e) == EffectFields(f)
    ensures e == f
  {
    StatusDecodes(e.status, f.status);
    assert forall i | 0 <= i < 4 :: EffectFields(e)[i] == EffectFields(f)[i];
    assert EffectFields(e)[0].value == Text(e.after) && EffectFields(e)[1].value == Optional(e.before);
    assert EffectFields(e)[2].value == Text(StatusText(e.status)) && EffectFields(e)[3].value == Text(e.target);
  }

  lemma EffectsDecode(a: seq<StateEffect>, b: seq<StateEffect>)
    requires EffectObjects(a) == EffectObjects(b)
    ensures a == b
  {
    assert |EffectObjects(a)| == |a| && |EffectObjects(b)| == |b|;
    forall i | 0 <= i < |a| ensures a[i] == b[i] {
      assert EffectObjects(a)[i] == EffectFields(a[i]) && EffectObjects(b)[i] == EffectFields(b[i]);
      EffectDecodes(a[i], b[i]);
    }
  }

  lemma FieldsOfReceipt(r: Receipt, s: Receipt)
    requires ReceiptFields(r) == ReceiptFields(s)
    ensures r.receiptHash == s.receiptHash && r.body.(effects := []) == s.body.(effects := [])
  {
    var f, g := ReceiptFields(r), ReceiptFields(s);
    assert f[0] == g[0] && f[1] == g[1] && f[2] == g[2] && f[3] == g[3] && f[4] == g[4];
    assert f[5] == g[5] && f[6] == g[6] && f[7] == g[7] && f[8] == g[8];
  }

  lemma EffectsAreOneKind(a: seq<StateEffect>, b: seq<StateEffect>)
    ensures OneKind(EffectObjects(a), EffectObjects(b))
  {
  }

  lemma ReceiptsHaveOneKind(r: Receipt, s: Receipt)
    ensures SameNames(ReceiptFields(r), ReceiptFields(s)) && ReceiptFields(r) != []
  {
  }

  /** Receipts with one canonical text are one receipt. */
  lemma PrintDecodes(r: Receipt, s: Receipt)
    requires Print(r) == Print(s)
    ensures r == s
  {
    hide PrintRow, ReceiptFields, EffectObjects, SameNames, OneKind;
    ReceiptsHaveOneKind(r, s);
    EffectsAreOneKind(r.body.effects, s.body.effects);
    RowDecodes(ReceiptFields(r), ReceiptFields(s), EFFECTS_KEY, EffectObjects(r.body.effects),
               EffectObjects(s.body.effects));
    EffectsDecode(r.body.effects, s.body.effects);
    FieldsOfReceipt(r, s);
  }

  // ---------- a parser ----------

  /** The receipt a text is the canonical JSON of. */
  ghost function Parsed(text: string): (found: Option<Receipt>)
    ensures found.Some? ==> Print(found.value) == text
    ensures found.None? ==> forall r :: Print(r) != text
  {
    if exists r :: Print(r) == text then var r :| Print(r) == text; Some(r) else None
  }

  lemma ParsedReads(r: Receipt)
    ensures Parsed(Print(r)) == Some(r)
  {
    PrintDecodes(Parsed(Print(r)).value, r);
  }

  /** A parser that reads every row, and nothing else, is one of those the results about the log speak of. */
  lemma SomeParserReadsAll() returns (parse: Parser)
    ensures IsJson(parse) && forall r :: Reads(parse, r)
  {
    parse := text => Parsed(text);
    forall r ensures Reads(parse, r) {
      ParsedReads(r);
    }
    forall text | Unfinished(text) ensures Parsed(text).None? {
      NotFinished(text);
    }
    forall a, b | Document(a) && !IsBlank(b) ensures Parsed(a + b).None? {
      NothingFollows(a, b);
    }
  }

  lemma NotFinished(text: string)
    requires Unfinished(text)
    ensures Parsed(text).None?
  {
    if Parsed(text).Some? {
      RowIsADocument(Parsed(text).value);
    }
  }

  lemma NothingFollows(a: string, b: string)
    requires Document(a) && !IsBlank(b)
    ensures Parsed(a + b).None?
  {
    if Parsed(a + b).Some? {
      RowIsADocument(Parsed(a + b).value);
      DocumentEnds(a + b, a, b);
    }
  }
}
