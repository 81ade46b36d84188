/** The text of the receipt log (autoresearch/common/commit_chain.py): how it falls into lines, and what becomes
    of a row that holds characters outside ASCII. */
module ChainText {
  import opened Wrappers
  import Strings
  import opened CommitChain
  import opened ChainJson
  import opened Utf8

  // ---------- lines ----------

  /** The line boundaries of `splitlines`. */
  predicate EndsLine(c: char) {
    c as int in {0xa, 0xb, 0xc, 0xd, 0x1c, 0x1d, 0x1e, 0x85, 0x2028, 0x2029}
  }

  predicate StaysOnTheLine(c: char) { !EndsLine(c) }

  /** How much of a text its first line boundary takes: a carriage return goes with the newline behind it. */
  function Boundary(text: string): (n: nat)
    requires text != "" && EndsLine(text[0])
    ensures 0 < n <= |text|
  {
    if text[0] == '\r' && |text| > 1 && text[1] == '\n' then 2 else 1
  }

  /** The pieces of a text between its line boundaries. */
  function Pieces(text: string): (pieces: seq<string>)
    ensures pieces != []
    decreases |text|
  {
    if text == "" then [""]
    else if EndsLine(text[0]) then [""] + Pieces(text[Boundary(text)..])
    else Prepend(text[0], Pieces(text[1..]))
  }

  function Prepend(c: char, pieces: seq<string>): seq<string>
    requires pieces != []
  {
    [[c] + pieces[0]] + pieces[1..]
  }

  /** `not line.strip()` */
  predicate IsBlank(text: string) { forall i | 0 <= i < |text| :: Strings.IsSpace(text[i]) }

  /** What `json.loads` makes of a line, if it is a document. */
  type Parser = string -> Option<Receipt>

  /** A whole document: its first bracket or quote is closed by its last character. */
  predicate Document(text: string) {
    1 < |text| && !Unfinished(text) && forall k | 0 < k < |text| :: Unfinished(text[..k])
  }

  /** What is asked of the parser: it refuses a text that leaves a string or a bracket open, and one that goes
      on after a whole document. */
  ghost predicate IsJson(parse: Parser) {
    && (forall text :: Unfinished(text) ==> parse(text).None?)
    && (forall a, b :: Document(a) && !IsBlank(b) ==> parse(a + b).None?)
  }

  predicate Reads(parse: Parser, r: Receipt) { parse(Print(r)) == Some(r) }

  function LineOf(text: string, parse: Parser): Line {
    if IsBlank(text) then Blank else if parse(text).Some? then Row(parse(text).value) else Torn
  }

  function LinesOf(pieces: seq<string>, parse: Parser): (lines: seq<Line>)
    ensures |lines| == |pieces|
  {
    seq(|pieces|, i requires 0 <= i < |pieces| => LineOf(pieces[i], parse))
  }

  function FileOf(text: string, parse: Parser): ChainFile {
    var pieces := Pieces(text);
    ChainFile(LinesOf(pieces[..|pieces| - 1], parse), LineOf(pieces[|pieces| - 1], parse))
  }

  predicate Terminated(text: string) { text == "" || text[|text| - 1] == '\n' }

  lemma ConcatTail<T>(a: seq<T>, b: seq<T>, n: nat)
    requires n <= |a|
    ensures (a + b)[n..] == a[n..] + b
  {
  }

  lemma PrependConcat(c: char, a: seq<string>, b: seq<string>)
    requires |a| > 1 && a[|a| - 1] == ""
    ensures Prepend(c, a[..|a| - 1] + b) == Prepend(c, a)[..|a| - 1] + b
    ensures Prepend(c, a)[|a| - 1] == ""
  {
  }

  lemma {:induction false} PiecesAfterNewline(text: string, more: string)
    requires Terminated(text)
    ensures var pieces := Pieces(text);
            && pieces[|pieces| - 1] == "" && Pieces(text + more) == pieces[..|pieces| - 1] + Pieces(more)
            && (text != "" ==> |pieces| > 1)
    decreases |text|
  {
    if text == "" {
      assert text + more == more;
    } else if EndsLine(text[0]) {
      var n := Boundary(text);
      assert Boundary(text + more) == n;
      ConcatTail(text, more, n);
      PiecesAfterNewline(text[n..], more);
      var rest := Pieces(text[n..]);
      assert ([""] + rest)[..|rest|] == [""] + rest[..|rest| - 1];
    } else {
      ConcatTail(text, more, 1);
      PiecesAfterNewline(text[1..], more);
      PrependConcat(text[0], Pieces(text[1..]), Pieces(more));
    }
  }

  lemma LinesConcat(a: seq<string>, b: seq<string>, parse: Parser)
    ensures LinesOf(a + b, parse) == LinesOf(a, parse) + LinesOf(b, parse)
  {
  }

  lemma PhysicalLines(text: string, parse: Parser)
    ensures Physical(FileOf(text, parse)) == LinesOf(Pieces(text), parse)
  {
  }

  lemma PhysicalAfterNewline(text: string, more: string, parse: Parser)
    requires Terminated(text)
    ensures FileOf(text, parse).tail == Blank
    ensures Physical(FileOf(text + more, parse)) == FileOf(text, parse).lines + LinesOf(Pieces(more), parse)
  {
    PiecesAfterNewline(text, more);
    PhysicalLines(text + more, parse);
    LinesConcat(Pieces(text)[..|Pieces(text)| - 1], Pieces(more), parse);
  }

  lemma FirstAndRest(text: string)
    requires text != ""
    ensures AllChars(text, StaysOnTheLine) <==> !EndsLine(text[0]) && AllChars(text[1..], StaysOnTheLine)
  {
    CharsConcat([text[0]], text[1..], StaysOnTheLine);
    assert text == [text[0]] + text[1..];
    if AllChars(text, StaysOnTheLine) {
      assert StaysOnTheLine(text[0]);
    }
  }

  /** The first piece is the text up to its first line boundary. */
  lemma {:induction false} FirstPiece(text: string)
    ensures var n := |Pieces(text)[0]|;
            && n <= |text| && Pieces(text)[0] == text[..n]
            && (n < |text| <==> !AllChars(text, StaysOnTheLine))
            && (n == |text| ==> Pieces(text) == [text])
    decreases |text|
  {
    if text != "" {
      FirstAndRest(text);
      if !EndsLine(text[0]) {
        FirstPiece(text[1..]);
        assert text == [text[0]] + text[1..];
      }
    }
  }

  lemma {:induction false} OnlyTheNewlineEnds(text: string)
    requires AllChars(text, StaysOnTheLine)
    ensures Pieces(text + "\n") == [text, ""]
    decreases |text|
  {
    if text == "" {
      assert (text + "\n")[1..] == "";
    } else {
      FirstAndRest(text);
      ConcatTail(text, "\n", 1);
      OnlyTheNewlineEnds(text[1..]);
      assert Prepend(text[0], [text[1..], ""]) == [[text[0]] + text[1..], ""];
      assert text == [text[0]] + text[1..];
    }
  }

  // ---------- rows and parts of rows ----------

  lemma DocumentStarts(row: string, n: nat)
    requires Document(row) && 0 < n <= |row|
    ensures !EndsLine(row[0]) && !IsBlank(row[..n])
  {
    var c := row[0];
    assert Unfinished(row[..1]);
    assert row[..1] == [c] && [c][1..] == [];
    assert ScanFrom(START, [c]) == ScanFrom(Next(START, c), []);
    assert c == '"' || c == '{' || c == '[';
    assert row[..n][0] == c;
  }

  lemma PartIsTorn(row: string, n: nat, parse: Parser)
    requires IsJson(parse) && Document(row) && 0 < n < |row|
    ensures LineOf(row[..n], parse) == Torn
  {
    DocumentStarts(row, n);
  }

  /** A torn line behind intact ones: the rows before it are still read, and the file is refused. */
  lemma TornLineFollows(f: ChainFile, g: ChainFile, more: seq<Line>, sha: BodyHash)
    requires Intact(f, sha) && f.tail.Blank?
    requires Physical(g) == f.lines + more && more != [] && more[0].Torn?
    ensures ReadChain(g, sha) == ReadChain(f, sha) && !Intact(g, sha)
  {
    IntactParts(f, sha);
    ReadFromConcat(f.lines, more, None, sha);
    ReadFromConcat(f.lines, [Blank], None, sha);
    NonBlankConcat(f.lines, more);
    assert [Blank][1..] == [];
    var link := Link(ReadFrom(f.lines, None, sha));
    assert ReadFrom([Blank], link, sha) == [] == ReadFrom(more, link, sha);
    assert NonBlank(more) == [Torn] + NonBlank(more[1..]);
  }

  /** A terminated log, and behind it a text whose first piece is part of a row. */
  lemma TornPieceFollows(text: string, row: string, n: nat, more: string, parse: Parser, sha: BodyHash)
    requires IsJson(parse) && Terminated(text) && Intact(FileOf(text, parse), sha)
    requires Document(row) && 0 < n < |row| && Pieces(more)[0] == row[..n]
    ensures ReadChain(FileOf(text + more, parse), sha) == ReadChain(FileOf(text, parse), sha)
    ensures !Intact(FileOf(text + more, parse), sha)
  {
    PhysicalAfterNewline(text, more, parse);
    PartIsTorn(row, n, parse);
    TornLineFollows(FileOf(text, parse), FileOf(text + more, parse), LinesOf(Pieces(more), parse), sha);
  }

  /** The first piece of a text that starts like a row is part of it, unless the row stays on its line. */
  lemma BrokenRow(row: string, more: string)
    requires Document(row) && !AllChars(row, StaysOnTheLine)
    ensures var n := |Pieces(row + more)[0]|; 0 < n < |row| && Pieces(row + more)[0] == row[..n]
  {
    DocumentStarts(row, 1);
    FirstPiece(row);
    PiecePrefix(row, more);
  }

  lemma {:induction false} PiecePrefix(text: string, more: string)
    requires !AllChars(text, StaysOnTheLine)
    ensures Pieces(text + more)[0] == Pieces(text)[0]
    ensures !EndsLine(text[0]) ==> Pieces(text)[0] != ""
    decreases |text|
  {
    if !EndsLine(text[0]) {
      FirstAndRest(text);
      ConcatTail(text, more, 1);
      PiecePrefix(text[1..], more);
    }
  }

  /** A row torn between two characters: the chain before it is read, and every append is refused. */
  lemma TornRowIsNotRead(text: string, row: string, k: nat, parse: Parser, sha: BodyHash)
    requires IsJson(parse) && Terminated(text) && Intact(FileOf(text, parse), sha)
    requires Document(row) && 0 < k < |row|
    ensures ReadChain(FileOf(text + row[..k], parse), sha) == ReadChain(FileOf(text, parse), sha)
    ensures !Intact(FileOf(text + row[..k], parse), sha)
  {
    var part := row[..k];
    DocumentStarts(row, k);
    FirstPiece(part);
    var n := |Pieces(part)[0]|;
    assert part[..n] == row[..n];
    if n == 0 {
      PiecePrefix(part, "");
    }
    TornPieceFollows(text, row, n, part, parse, sha);
  }

  // ---------- the text refines the lines ----------

  lemma SameFile(f: ChainFile, lines: seq<Line>, a: Line, b: Line)
    requires Physical(f) == lines + [a, b]
    ensures f == ChainFile(lines + [a], b)
  {
    assert Physical(f) == (lines + [a]) + [b];
    assert f.tail == Physical(f)[|f.lines|] && f.lines == Physical(f)[..|f.lines|];
  }

  /** A whole line behind a terminated log. */
  lemma OneLineFollows(text: string, line: string, parse: Parser)
    requires Terminated(text) && AllChars(line, StaysOnTheLine)
    ensures FileOf(text + (line + "\n"), parse) == ChainFile(FileOf(text, parse).lines + [LineOf(line, parse)], Blank)
  {
    OnlyTheNewlineEnds(line);
    PhysicalAfterNewline(text, line + "\n", parse);
    assert LinesOf([line, ""], parse) == [LineOf(line, parse), Blank];
    SameFile(FileOf(text + (line + "\n"), parse), FileOf(text, parse).lines, LineOf(line, parse), Blank);
  }

  lemma PartLineFollows(text: string, line: string, parse: Parser)
    requires Terminated(text) && AllChars(line, StaysOnTheLine)
    ensures FileOf(text + line, parse) == FileOf(text, parse).(tail := LineOf(line, parse))
  {
    FirstPiece(line);
    PhysicalAfterNewline(text, line, parse);
    var f, lines := FileOf(text + line, parse), FileOf(text, parse).lines;
    assert Physical(f) == lines + [LineOf(line, parse)];
    assert f.tail == Physical(f)[|f.lines|] && f.lines == Physical(f)[..|f.lines|];
  }

  lemma WholeRow(row: string, r: Receipt, parse: Parser)
    requires Document(row) && parse(row) == Some(r)
    ensures LineOf(row, parse) == Row(r)
  {
    DocumentStarts(row, |row|);
    assert row[..|row|] == row;
  }

  lemma TwoDocumentsAreNone(a: string, b: string, parse: Parser)
    requires IsJson(parse) && Document(a) && Document(b)
    ensures LineOf(a + b, parse) == Torn
  {
    DocumentStarts(a, 1);
    DocumentStarts(b, |b|);
    assert b[..|b|] == b;
    assert (a + b)[0] == a[0] == a[..1][0];
  }

  /** No character of the receipt that canonical JSON prints as it is ends a line: of those above 0x1f, U+0085,
      U+2028 and U+2029 would. */
  predicate OneLine(r: Receipt) { ReceiptPrinted(r, StaysOnTheLine) }

  /** What the results need to know about the text of a row. */
  predicate RowText(row: string, r: Receipt, parse: Parser) {
    && Document(row) && parse(row) == Some(r)
    && (AllChars(row, StaysOnTheLine) <==> OneLine(r))
    && (AllChars(row, IsAscii) <==> ReceiptPrinted(r, IsAscii))
  }

  lemma RowIsADocument(r: Receipt)
    ensures Document(Print(r))
  {
    PartOfARowIsUnfinished(r);
    WholeIsLast(Print(r));
  }

  lemma WholeIsLast(row: string)
    requires 1 < |row| && forall k | 0 < k <= |row| :: Unfinished(row[..k]) <==> k < |row|
    ensures Document(row)
  {
    assert row[..|row|] == row;
  }

  lemma RowOnOneLine(r: Receipt)
    ensures AllChars(Print(r), StaysOnTheLine) <==> OneLine(r)
  {
    hide Print;
    assert HoldsOfAscii(StaysOnTheLine);
    RowChars(r, StaysOnTheLine);
  }

  lemma RowInAscii(r: Receipt)
    ensures AllChars(Print(r), IsAscii) <==> ReceiptPrinted(r, IsAscii)
  {
    assert HoldsOfAscii(IsAscii);
    RowChars(r, IsAscii);
  }

  lemma PrintIsRowText(r: Receipt, parse: Parser)
    requires Reads(parse, r)
    ensures RowText(Print(r), r, parse)
  {
    RowOnOneLine(r);
    RowInAscii(r);
    RowIsADocument(r);
  }

  /** On rows that stay on their line, writing text does to the log what the line model says: a whole row, a row
      cut before its newline, part of a row, and a row written behind a cut one. */
  lemma TextRefinesLines(text: string, a: string, first: Receipt, b: string, second: Receipt, k: nat, parse: Parser)
    requires IsJson(parse) && Terminated(text)
    requires RowText(a, first, parse) && OneLine(first) && RowText(b, second, parse) && OneLine(second) && 0 < k < |a|
    ensures FileOf(text + (a + "\n"), parse) == AppendLine(FileOf(text, parse), first)
    ensures FileOf(text + a, parse) == FileOf(text, parse).(tail := Row(first))
    ensures FileOf(text + a[..k], parse) == FileOf(text, parse).(tail := Torn)
    ensures FileOf(text + (a + b + "\n"), parse) == AppendLine(FileOf(text + a, parse), second)
  {
    PhysicalAfterNewline(text, "", parse);
    WholeRow(a, first, parse);
    OneLineFollows(text, a, parse);
    PartLineFollows(text, a, parse);
    PartLineFollows(text, a[..k], parse);
    PartIsTorn(a, k, parse);
    CharsConcat(a, b, StaysOnTheLine);
    OneLineFollows(text, a + b, parse);
    TwoDocumentsAreNone(a, b, parse);
  }

  // ---------- split by its own text ----------

  /** A new row on a terminated log is read back exactly when its receipt holds no line boundary; otherwise the
      accepted append leaves a log that every later append refuses. */
  lemma RowIsReadExactlyWhenOneLine(text: string, r: Receipt, parse: Parser, sha: BodyHash)
    requires IsJson(parse) && Reads(parse, r) && Terminated(text)
    requires Intact(FileOf(text, parse), sha)
    requires ValidReceipt(r, sha) && r.body.previous == Link(ReadChain(FileOf(text, parse), sha))
    ensures var f, g := FileOf(text, parse), FileOf(text + (Print(r) + "\n"), parse);
            && (ReadChain(g, sha) == ReadChain(f, sha) + [r] <==> OneLine(r))
            && (!OneLine(r) ==> ReadChain(g, sha) == ReadChain(f, sha) && !Intact(g, sha))
  {
    PrintIsRowText(r, parse);
    RowTextIsRead(text, Print(r), r, parse, sha);
  }

  lemma RowTextIsRead(text: string, row: string, r: Receipt, parse: Parser, sha: BodyHash)
    requires IsJson(parse) && RowText(row, r, parse) && Terminated(text)
    requires Intact(FileOf(text, parse), sha)
    requires ValidReceipt(r, sha) && r.body.previous == Link(ReadChain(FileOf(text, parse), sha))
    ensures var f, g := FileOf(text, parse), FileOf(text + (row + "\n"), parse);
            && (ReadChain(g, sha) == ReadChain(f, sha) + [r] <==> OneLine(r))
            && (!OneLine(r) ==> ReadChain(g, sha) == ReadChain(f, sha) && !Intact(g, sha))
  {
    PhysicalAfterNewline(text, "", parse);
    if OneLine(r) {
      WholeRow(row, r, parse);
      OneLineFollows(text, row, parse);
      AppendLineEffect(FileOf(text, parse), r, sha);
    } else {
      BrokenRow(row, "\n");
      TornPieceFollows(text, row, |Pieces(row + "\n")[0]|, row + "\n", parse, sha);
    }
  }

  // ---------- torn inside a character ----------

  predicate IsAscii(c: char) { c as int < 0x80 }

  datatype ReadError = NotUtf8

  /** `read_publication_chain`: the whole file is decoded before a line is looked at. */
  ghost function ReadBytes(log: seq<Byte>, parse: Parser, sha: BodyHash): Result<seq<Receipt>, ReadError> {
    if IsUtf8(log) then Ok(ReadChain(FileOf(Decode(log), parse), sha)) else Err(NotUtf8)
  }

  /** The first n bytes of a text do not end where a character does. */
  predicate InsideACharacter(text: string, n: nat) {
    forall k | 0 <= k <= |text| :: |Encode(text[..k])| != n
  }

  /** A text with n bytes of another one behind it is a text, that with some characters of the other one, unless
      those bytes end inside a character. */
  lemma TornBytes(text: string, more: string, n: nat)
    requires n <= |Encode(more)|
    ensures IsUtf8(Encode(text) + Encode(more)[..n]) <==> !InsideACharacter(more, n)
  {
    var bytes := Encode(text) + Encode(more)[..n];
    if IsUtf8(bytes) {
      var k := DecodedPart(text, more, n);
    }
    if !InsideACharacter(more, n) {
      var k :| 0 <= k <= |more| && |Encode(more[..k])| == n;
      PartIsDecoded(text, more, k);
    }
  }

  /** How many characters the n bytes are. */
  lemma DecodedPart(text: string, more: string, n: nat) returns (k: nat)
    requires n <= |Encode(more)| && IsUtf8(Encode(text) + Encode(more)[..n])
    ensures k <= |more| && |Encode(more[..k])| == n
    ensures Decode(Encode(text) + Encode(more)[..n]) == text + more[..k]
  {
    var bytes := Encode(text) + Encode(more)[..n];
    var t := Decode(bytes);
    EncodeConcat(text, more);
    assert bytes <= Encode(text + more);
    EncodingOfAStart(t, text + more);
    EncodingOfAStart(text, t);
    k := |t| - |text|;
    assert t == text + more[..k];
    EncodeConcat(text, more[..k]);
  }

  lemma PartIsDecoded(text: string, more: string, k: nat)
    requires k <= |more|
    ensures |Encode(more[..k])| <= |Encode(more)|
    ensures var bytes := Encode(text) + Encode(more)[..|Encode(more[..k])|];
            IsUtf8(bytes) && Decode(bytes) == text + more[..k]
  {
    EncodeConcat(more[..k], more[k..]);
    assert more == more[..k] + more[k..];
    EncodeConcat(text, more[..k]);
    assert Encode(more)[..|Encode(more[..k])|] == Encode(more[..k]);
    DecodeEncode(text + more[..k]);
  }

  /** Wherever the write of a row stops, readers keep the whole chain. */
  ghost predicate EveryTearIsReadable(text: string, row: string, parse: Parser, sha: BodyHash) {
    forall n | 0 < n < |Encode(row)| ::
      ReadBytes(Encode(text) + Encode(row)[..n], parse, sha) == Ok(ReadChain(FileOf(text, parse), sha))
  }

  lemma {:induction false} AsciiBytes(text: string)
    requires AllChars(text, IsAscii)
    ensures |Encode(text)| == |text|
  {
    if text != "" {
      assert IsAscii(text[0]);
      AsciiBytes(text[1..]);
    }
  }

  /** The first byte of a wide character is not the whole of it. */
  lemma WideCharacterIsCut(text: string, i: nat) returns (n: nat)
    requires i < |text| && !IsAscii(text[i])
    ensures 0 < n < |Encode(text)| && InsideACharacter(text, n)
  {
    n := |Encode(text[..i])| + 1;
    EncodeConcat(text[..i], [text[i]]);
    assert text[..i + 1] == text[..i] + [text[i]] && [text[i]][1..] == "";
    MoreIsLonger(text, i + 1, |text|);
    assert text[..|text|] == text;
    forall k | 0 <= k <= |text| ensures |Encode(text[..k])| != n {
      if k <= i {
        MoreIsLonger(text, k, i);
      } else {
        MoreIsLonger(text, i + 1, k);
      }
    }
  }

  lemma MoreIsLonger(text: string, i: nat, j: nat)
    requires i <= j <= |text|
    ensures |Encode(text[..i])| <= |Encode(text[..j])|
  {
    EncodeConcat(text[..i], text[i..j]);
    assert text[..j] == text[..i] + text[i..j];
  }

  /** Every tear of a row is readable exactly when its receipt is ASCII. */
  lemma TearsAreReadableExactlyWhenAscii(text: string, r: Receipt, parse: Parser, sha: BodyHash)
    requires IsJson(parse) && Reads(parse, r) && Terminated(text) && Intact(FileOf(text, parse), sha)
    ensures EveryTearIsReadable(text, Print(r), parse, sha) <==> ReceiptPrinted(r, IsAscii)
  {
    PrintIsRowText(r, parse);
    RowTextTears(text, Print(r), r, parse, sha);
  }

  lemma AsciiTear(text: string, row: string, n: nat, parse: Parser, sha: BodyHash)
    requires IsJson(parse) && Document(row) && Terminated(text) && Intact(FileOf(text, parse), sha)
    requires AllChars(row, IsAscii) && 0 < n < |Encode(row)|
    ensures ReadBytes(Encode(text) + Encode(row)[..n], parse, sha) == Ok(ReadChain(FileOf(text, parse), sha))
  {
    AsciiBytes(row);
    AsciiBytes(row[..n]);
    PartIsDecoded(text, row, n);
    TornRowIsNotRead(text, row, n, parse, sha);
  }

  lemma RowTextTears(text: string, row: string, r: Receipt, parse: Parser, sha: BodyHash)
    requires IsJson(parse) && RowText(row, r, parse) && Terminated(text) && Intact(FileOf(text, parse), sha)
    ensures EveryTearIsReadable(text, row, parse, sha) <==> ReceiptPrinted(r, IsAscii)
  {
    hide IsJson, Document, FileOf, IsUtf8, Intact;
    if AllChars(row, IsAscii) {
      forall n | 0 < n < |Encode(row)|
        ensures ReadBytes(Encode(text) + Encode(row)[..n], parse, sha) == Ok(ReadChain(FileOf(text, parse), sha))
      {
        AsciiTear(text, row, n, parse, sha);
      }
    } else {
      var i :| 0 <= i < |row| && !IsAscii(row[i]);
      var n := WideCharacterIsCut(row, i);
      TornBytes(text, row, n);
      assert ReadBytes(Encode(text) + Encode(row)[..n], parse, sha).Err?;
    }
  }

  // ---------- the receipts that fail ----------

  const ZEROS := "0000000000000000000000000000000000000000000000000000000000000000"

  /** The receipt of a first publication, which replaced one target. */
  function ReceiptFor(target: string, sha: BodyHash): Receipt {
    Seal(Body("claude", "20260901T000000000000Z", "p1", ZEROS, ZEROS, "runs/20260901T000000000000Z/p1",
              "2026-09-01T00:00:00+00:00", [StateEffect(target, Applied, None, ZEROS)], None), None, sha)
  }

  lemma AnyTargetIsValid(target: string, sha: BodyHash)
    ensures ValidReceipt(ReceiptFor(target, sha), sha)
  {
    var run := "20260901T000000000000Z";
    assert "runs/" + run + "/" + "p1" == "runs/20260901T000000000000Z/p1";
  }

  /** The parser that reads one row and nothing else is one of those the results are about. */
  lemma OneRowParser(row: string, r: Receipt, parse: Parser)
    requires Document(row) && forall text :: parse(text) == if text == row then Some(r) else None
    ensures IsJson(parse)
  {
    forall a, b | Document(a) && !IsBlank(b) ensures a + b != row {
      if a + b == row {
        DocumentEnds(row, a, b);
      }
    }
  }

  lemma DocumentEnds(row: string, a: string, b: string)
    requires Document(row) && Document(a) && a + b == row
    ensures b == ""
  {
    assert row[..|a|] == a && !Unfinished(row[..|a|]);
  }

  lemma TargetIsPrinted(r: Receipt, i: nat, j: nat, p: char -> bool)
    requires i < |r.body.effects| && j < |r.body.effects[i].target|
    requires r.body.effects[i].target[j] as int >= 0x20 && !p(r.body.effects[i].target[j])
    ensures !ReceiptPrinted(r, p)
  {
    assert !AllPrinted(r.body.effects[i].target, p);
    assert !EffectPrinted(r.body.effects[i], p);
  }

  /** The first row of a log, when its text breaks or holds a wide character. */
  lemma FirstRow(row: string, r: Receipt, parse: Parser, sha: BodyHash)
    requires IsJson(parse) && RowText(row, r, parse) && ValidReceipt(r, sha) && r.body.previous == None
    ensures !OneLine(r) ==> ReadChain(FileOf(row + "\n", parse), sha) == [] && !Intact(FileOf(row + "\n", parse), sha)
    ensures !ReceiptPrinted(r, IsAscii) ==> !EveryTearIsReadable("", row, parse, sha)
  {
    assert FileOf("", parse) == EMPTY_FILE;
    EmptyLog(sha);
    RowTextIsRead("", row, r, parse, sha);
    RowTextTears("", row, r, parse, sha);
    assert "" + (row + "\n") == row + "\n";
  }

  lemma EmptyLog(sha: BodyHash)
    ensures Intact(EMPTY_FILE, sha) && ReadChain(EMPTY_FILE, sha) == []
  {
    assert [Blank][1..] == [];
  }

  /** A receipt for any target, its row, and a parser that reads it. */
  lemma NamedReceipt(target: string, sha: BodyHash) returns (r: Receipt, row: string, parse: Parser)
    ensures |r.body.effects| == 1 && r.body.effects[0].target == target && r.body.previous == None
    ensures ValidReceipt(r, sha) && AppendTo(EMPTY_FILE, r.body, sha).1 == Ok(r)
    ensures row == Print(r) && IsJson(parse) && RowText(row, r, parse)
  {
    hide Print;
    r, row := ReceiptFor(target, sha), Print(ReceiptFor(target, sha));
    AnyTargetIsValid(target, sha);
    EmptyLog(sha);
    RowIsADocument(r);
    parse := OnlyParser(row, r);
    PrintIsRowText(r, parse);
  }

  lemma OnlyParser(row: string, r: Receipt) returns (parse: Parser)
    requires Document(row)
    ensures IsJson(parse) && parse(row) == Some(r)
  {
    var found := Some(r);
    parse := text => if text == row then found else None;
    OneRowParser(row, r, parse);
  }

  /** A target with a line separator in its name: the receipt is valid, an empty log accepts it, and it is not
      there for readers. */
  lemma SeparatorHidesARow(sha: BodyHash) returns (r: Receipt, row: string, parse: Parser)
    ensures ValidReceipt(r, sha) && AppendTo(EMPTY_FILE, r.body, sha).1 == Ok(r)
    ensures row == Print(r) && IsJson(parse) && parse(row) == Some(r)
    ensures ReadChain(FileOf(row + "\n", parse), sha) == [] && !Intact(FileOf(row + "\n", parse), sha)
  {
    hide Print;
    r, row, parse := NamedReceipt("scan" + [0x2028 as char] + "weights", sha);
    TargetIsPrinted(r, 0, 4, StaysOnTheLine);
    FirstRow(row, r, parse, sha);
  }

  /** A target that is not ASCII: a write of the valid receipt can stop so that the log cannot be decoded. */
  lemma WideTargetCanBeTorn(sha: BodyHash) returns (r: Receipt, row: string, parse: Parser)
    ensures ValidReceipt(r, sha) && AppendTo(EMPTY_FILE, r.body, sha).1 == Ok(r)
    ensures row == Print(r) && IsJson(parse) && parse(row) == Some(r)
    ensures !EveryTearIsReadable("", row, parse, sha)
  {
    r, row, parse := NamedReceipt([0x6301 as char, 0x4ed3 as char], sha);
    TargetIsPrinted(r, 0, 0, IsAscii);
    FirstRow(row, r, parse, sha);
  }
}
