/** The bytes of the receipt log (autoresearch/common/commit_chain.py) over whole runs of appends, any of which may
    stop after any byte. */
module ChainBytes {
  import opened Wrappers
  import Strings
  import opened CommitChain
  import opened ChainRuns
  import opened ChainJson
  import opened ChainText
  import opened Utf8

  /** An append, and how many bytes of its row and newline reach the disk. */
  datatype ByteAppend = ByteAppend(value: Body, bytes: nat)

  /** `json.loads`, as far as the results depend on it. */
  ghost predicate ReadsRows(parse: Parser) { IsJson(parse) && forall r :: Reads(parse, r) }

  // ---------- runs ----------

  function NewRow(f: ChainFile, value: Body, sha: BodyHash): Receipt { Seal(value, Link(ReadChain(f, sha)), sha) }

  function RowLine(r: Receipt): string { Print(r) + "\n" }

  function Take(bytes: seq<Byte>, n: nat): seq<Byte> { bytes[..if n <= |bytes| then n else |bytes|] }

  /** The file as reader and appender see it. */
  ghost function Lines(log: seq<Byte>, parse: Parser): ChainFile
    requires IsUtf8(log)
  {
    FileOf(Decode(log), parse)
  }

  /** A log that cannot be decoded raises before anything is written. */
  ghost predicate WritesBytes(log: seq<Byte>, value: Body, parse: Parser, sha: BodyHash) {
    IsUtf8(log) && Writes(Lines(log, parse), value, sha)
  }

  ghost function StepBytes(log: seq<Byte>, e: ByteAppend, parse: Parser, sha: BodyHash): seq<Byte> {
    if WritesBytes(log, e.value, parse, sha)
    then log + Take(Encode(RowLine(NewRow(Lines(log, parse), e.value, sha))), e.bytes)
    else log
  }

  ghost function RunBytes(log: seq<Byte>, events: seq<ByteAppend>, parse: Parser, sha: BodyHash): seq<Byte>
    decreases |events|
  {
    if events == [] then log else RunBytes(StepBytes(log, events[0], parse, sha), events[1..], parse, sha)
  }

  /** The receipt an append returns, unless it raises or its write stops. */
  ghost function Answer(log: seq<Byte>, e: ByteAppend, parse: Parser, sha: BodyHash): Option<Receipt> {
    if !IsUtf8(log) then None
    else
      var f := Lines(log, parse);
      var answer := AppendTo(f, e.value, sha).1;
      if answer.Err? || (Writes(f, e.value, sha) && e.bytes < |Encode(RowLine(answer.value))|) then None
      else Some(answer.value)
  }

  // ---------- what is kept, and what harms ----------

  /** What readers got and what the append answered is there for readers of a later log. */
  ghost predicate StillThere(log: seq<Byte>, answer: Option<Receipt>, later: seq<Byte>, parse: Parser, sha: BodyHash) {
    var before, after := ReadBytes(log, parse, sha), ReadBytes(later, parse, sha);
    && (before.Ok? ==> after.Ok? && before.value <= after.value)
    && (answer.Some? ==> after.Ok? && answer.value in after.value)
  }

  ghost function AnswerAt(log: seq<Byte>, events: seq<ByteAppend>, i: nat, parse: Parser, sha: BodyHash)
    : Option<Receipt>
    requires i <= |events|
  {
    if i < |events| then Answer(RunBytes(log, events[..i], parse, sha), events[i], parse, sha) else None
  }

  /** At the end of a run readers get every row they ever got, in its place, and every receipt an append of the run
      answered with. */
  ghost predicate KeepsEverything(log: seq<Byte>, events: seq<ByteAppend>, parse: Parser, sha: BodyHash) {
    forall i | 0 <= i <= |events| ::
      StillThere(RunBytes(log, events[..i], parse, sha), AnswerAt(log, events, i, parse, sha),
                 RunBytes(log, events, parse, sha), parse, sha)
  }

  /** A write lands on a row without its newline, stops inside a character, or is whole and has a line boundary in
      its row. */
  ghost predicate HarmsBytes(log: seq<Byte>, e: ByteAppend, parse: Parser, sha: BodyHash) {
    && WritesBytes(log, e.value, parse, sha) && e.bytes > 0
    && var f := Lines(log, parse);
       var r := NewRow(f, e.value, sha);
       || f.tail.Row?
       || InsideACharacter(RowLine(r), |Take(Encode(RowLine(r)), e.bytes)|)
       || (e.bytes >= |Encode(RowLine(r))| && !OneLine(r))
  }

  ghost predicate NoHarm(log: seq<Byte>, events: seq<ByteAppend>, parse: Parser, sha: BodyHash)
    decreases |events|
  {
    events != [] ==>
      && !HarmsBytes(log, events[0], parse, sha)
      && NoHarm(StepBytes(log, events[0], parse, sha), events[1..], parse, sha)
  }

  // ---------- logs that runs leave ----------

  /** A terminated log and behind it a row without its newline. */
  ghost predicate EndsInRow(text: string, before: string, r: Receipt, parse: Parser, sha: BodyHash) {
    text == before + Print(r) && Terminated(before) && OneLine(r) && Intact(FileOf(before, parse), sha)
  }

  /** What is written after is read as far as the appender lets anything be written. */
  ghost predicate Stands(log: seq<Byte>, parse: Parser, sha: BodyHash) {
    IsUtf8(log) && Intact(Lines(log, parse), sha) ==>
      Terminated(Decode(log)) || exists before, r :: EndsInRow(Decode(log), before, r, parse, sha)
  }

  /** Every append raises. */
  ghost predicate Frozen(log: seq<Byte>, parse: Parser, sha: BodyHash) {
    !IsUtf8(log) || !Intact(Lines(log, parse), sha)
  }

  lemma {:induction false} FrozenForEver(log: seq<Byte>, events: seq<ByteAppend>, parse: Parser, sha: BodyHash)
    requires Frozen(log, parse, sha)
    ensures RunBytes(log, events, parse, sha) == log
    decreases |events|
  {
    if events != [] {
      assert StepBytes(log, events[0], parse, sha) == log;
      FrozenForEver(log, events[1..], parse, sha);
    }
  }

  /** When an append writes, and what it answers. */
  lemma WhenItWrites(f: ChainFile, value: Body, sha: BodyHash)
    ensures var r, (g, answer) := NewRow(f, value, sha), AppendTo(f, value, sha);
            if Writes(f, value, sha)
            then Intact(f, sha) && ValidReceipt(r, sha) && r !in ReadChain(f, sha) && answer == Ok(r)
            else answer.Ok? ==> answer.value in ReadChain(f, sha)
  {
    assert AppendLine(f, NewRow(f, value, sha)).lines != f.lines;
  }

  // ---------- one step ----------

  lemma RowIsText(r: Receipt, parse: Parser)
    requires ReadsRows(parse)
    ensures RowText(Print(r), r, parse)
  {
    assert Reads(parse, r);
    PrintIsRowText(r, parse);
  }

  lemma TailOfEndsInRow(text: string, before: string, r: Receipt, parse: Parser, sha: BodyHash)
    requires ReadsRows(parse) && EndsInRow(text, before, r, parse, sha)
    ensures FileOf(text, parse) == FileOf(before, parse).(tail := Row(r))
  {
    RowIsText(r, parse);
    WholeRow(Print(r), r, parse);
    PartLineFollows(before, Print(r), parse);
  }

  /** Any part of a row and its newline, written behind a terminated log. */
  lemma PartOfALine(text: string, r: Receipt, k: nat, parse: Parser, sha: BodyHash)
    requires ReadsRows(parse) && Terminated(text) && Intact(FileOf(text, parse), sha)
    requires ValidReceipt(r, sha) && r.body.previous == Link(ReadChain(FileOf(text, parse), sha))
    requires 0 < k <= |RowLine(r)|
    ensures var rows, text', g := ReadChain(FileOf(text, parse), sha), text + RowLine(r)[..k],
                                  FileOf(text + RowLine(r)[..k], parse);
            && ReadChain(g, sha) == (if k >= |Print(r)| && OneLine(r) then rows + [r] else rows)
            && (k < |Print(r)| || !OneLine(r) ==> !Intact(g, sha))
            && (k == |RowLine(r)| ==> Terminated(text'))
            && (k == |Print(r)| && OneLine(r) ==> EndsInRow(text', text, r, parse, sha))
  {
    hide Print;
    RowIsText(r, parse);
    PhysicalAfterNewline(text, "", parse);
    var row := Print(r);
    if k == |row| + 1 {
      assert RowLine(r)[..k] == row + "\n";
      RowIsReadExactlyWhenOneLine(text, r, parse, sha);
    } else if k == |row| {
      assert RowLine(r)[..k] == row;
      if OneLine(r) {
        WholeRow(row, r, parse);
        PartLineFollows(text, row, parse);
        CutRowIsRead(FileOf(text, parse), r, sha);
      } else {
        BrokenRow(row, "");
        assert row + "" == row;
        TornPieceFollows(text, row, |Pieces(row)[0]|, row, parse, sha);
      }
    } else {
      assert RowLine(r)[..k] == row[..k];
      TornRowIsNotRead(text, row, k, parse, sha);
    }
  }

  /** A line that goes on behind a whole row is no document. */
  lemma GluedPiece(row: string, more: string, parse: Parser)
    requires IsJson(parse) && Document(row) && AllChars(row, StaysOnTheLine)
    requires more != "" && !EndsLine(more[0]) && !Strings.IsSpace(more[0])
    ensures LineOf(Pieces(row + more)[0], parse) == Torn
  {
    FirstOfConcat(row, more);
    FirstPiece(more);
    var b := Pieces(more)[0];
    if b == "" {
      FirstAndRest(more);
    }
    assert b[0] == more[0];
    DocumentStarts(row, 1);
    assert (row + b)[0] == row[0] == row[..1][0];
  }

  lemma {:induction false} FirstOfConcat(a: string, b: string)
    requires AllChars(a, StaysOnTheLine)
    ensures Pieces(a + b)[0] == a + Pieces(b)[0]
    decreases |a|
  {
    if a == "" {
      assert a + b == b;
    } else {
      FirstAndRest(a);
      ConcatTail(a, b, 1);
      FirstOfConcat(a[1..], b);
      assert a == [a[0]] + a[1..];
    }
  }

  lemma RowLineStarts(r: Receipt, k: nat)
    requires 0 < k <= |RowLine(r)|
    ensures var part := RowLine(r)[..k]; !EndsLine(part[0]) && !Strings.IsSpace(part[0])
  {
    hide Print;
    RowIsADocument(r);
    DocumentStarts(Print(r), 1);
    assert RowLine(r)[..k][0] == Print(r)[0] == Print(r)[..1][0];
  }

  /** Any part of a row and its newline, written behind a row that lost its newline, takes that row away. */
  lemma PartBehindARow(text: string, before: string, cut: Receipt, r: Receipt, k: nat, parse: Parser, sha: BodyHash)
    requires ReadsRows(parse) && EndsInRow(text, before, cut, parse, sha) && Intact(FileOf(text, parse), sha)
    requires 0 < k <= |RowLine(r)|
    ensures var rows, g := ReadChain(FileOf(text, parse), sha), FileOf(text + RowLine(r)[..k], parse);
            !Intact(g, sha) && |ReadChain(g, sha)| < |rows|
  {
    hide Print;
    var row, part := Print(cut), RowLine(r)[..k];
    RowIsText(cut, parse);
    RowLineStarts(r, k);
    GluedPiece(row, part, parse);
    TailOfEndsInRow(text, before, cut, parse, sha);
    Regroup(before, row, part);
    PhysicalAfterNewline(before, row + part, parse);
    TornLineFollows(FileOf(before, parse), FileOf(text + part, parse), LinesOf(Pieces(row + part), parse), sha);
    OneRowMore(FileOf(before, parse), cut, sha);
  }

  lemma OneRowMore(f: ChainFile, r: Receipt, sha: BodyHash)
    requires Intact(f, sha) && f.tail.Blank? && Intact(f.(tail := Row(r)), sha)
    ensures |ReadChain(f, sha)| < |ReadChain(f.(tail := Row(r)), sha)|
  {
    NonBlankConcat(f.lines, [Blank]);
    NonBlankConcat(f.lines, [Row(r)]);
    assert NonBlank([Blank]) == [] && NonBlank([Row(r)]) == [Row(r)] + NonBlank([]);
  }

  lemma Regroup(a: string, b: string, c: string)
    ensures (a + b) + c == a + (b + c)
  {
  }

  // ---------- one append ----------

  lemma BytesOfPart(log: seq<Byte>, text: string, line: string, n: nat)
    requires Encode(text) == log && n <= |Encode(line)|
    ensures var log' := log + Encode(line)[..n];
            if InsideACharacter(line, n) then !IsUtf8(log')
            else IsUtf8(log') && exists k :: 0 <= k <= |line| && |Encode(line[..k])| == n
                                             && Decode(log') == text + line[..k]
  {
    TornBytes(text, line, n);
    if !InsideACharacter(line, n) {
      var k := DecodedPart(text, line, n);
    }
  }

  /** The part of the line that n bytes are. */
  lemma PartLength(line: string, k: nat)
    requires k <= |line|
    ensures k == 0 <==> |Encode(line[..k])| == 0
    ensures k == |line| <==> |Encode(line[..k])| == |Encode(line)|
  {
    EncodeConcat(line[..k], line[k..]);
    assert line == line[..k] + line[k..];
  }

  /** An append that does no harm. */
  lemma HarmlessStep(log: seq<Byte>, e: ByteAppend, parse: Parser, sha: BodyHash)
    requires ReadsRows(parse) && Stands(log, parse, sha) && !HarmsBytes(log, e, parse, sha)
    ensures var log' := StepBytes(log, e, parse, sha);
            Stands(log', parse, sha) && StillThere(log, Answer(log, e, parse, sha), log', parse, sha)
  {
    hide Print, IsJson;
    if IsUtf8(log) {
      WhenItWrites(Lines(log, parse), e.value, sha);
      if WritesBytes(log, e.value, parse, sha) {
        WrittenHarmlessly(log, e, parse, sha);
      }
    }
  }

  lemma WrittenHarmlessly(log: seq<Byte>, e: ByteAppend, parse: Parser, sha: BodyHash)
    requires ReadsRows(parse) && Stands(log, parse, sha) && !HarmsBytes(log, e, parse, sha)
    requires WritesBytes(log, e.value, parse, sha)
    ensures var log' := StepBytes(log, e, parse, sha);
            Stands(log', parse, sha) && StillThere(log, Answer(log, e, parse, sha), log', parse, sha)
  {
    hide Print, ReadsRows, OneLine, FileOf, ReadChain, Intact, InsideACharacter, Encode, ValidReceipt;
    var f, text := Lines(log, parse), Decode(log);
    var r := NewRow(f, e.value, sha);
    var line, n := RowLine(r), |Take(Encode(RowLine(r)), e.bytes)|;
    WhenItWrites(f, e.value, sha);
    TextIsTerminated(log, f, parse, sha);
    BytesOfPart(log, text, line, n);
    var k :| 0 <= k <= |line| && |Encode(line[..k])| == n
             && Decode(log + Encode(line)[..n]) == text + line[..k];
    PartLength(line, k);
    if k == 0 {
      assert StepBytes(log, e, parse, sha) == log;
    } else {
      PartOfALine(text, r, k, parse, sha);
    }
  }

  /** Before an append that writes and does no harm the log is terminated. */
  lemma TextIsTerminated(log: seq<Byte>, f: ChainFile, parse: Parser, sha: BodyHash)
    requires ReadsRows(parse) && Stands(log, parse, sha) && IsUtf8(log) && f == Lines(log, parse)
    requires Intact(f, sha)
    ensures Terminated(Decode(log))
            || (f.tail.Row? && exists before, r :: EndsInRow(Decode(log), before, r, parse, sha))
  {
    if !Terminated(Decode(log)) {
      var before, r :| EndsInRow(Decode(log), before, r, parse, sha);
      TailOfEndsInRow(Decode(log), before, r, parse, sha);
    }
  }

  /** What cannot be repaired: readers have lost something, or an answered receipt is not there, and every append
      raises. */
  ghost predicate Broken(log: seq<Byte>, answer: Option<Receipt>, log': seq<Byte>, parse: Parser, sha: BodyHash) {
    Frozen(log', parse, sha) && !StillThere(log, answer, log', parse, sha)
  }

  /** An append that harms. */
  lemma HarmfulStep(log: seq<Byte>, e: ByteAppend, parse: Parser, sha: BodyHash)
    requires ReadsRows(parse) && Stands(log, parse, sha) && HarmsBytes(log, e, parse, sha)
    ensures Broken(log, Answer(log, e, parse, sha), StepBytes(log, e, parse, sha), parse, sha)
  {
    hide Print, ReadsRows, OneLine, FileOf, ReadChain, Intact, InsideACharacter, Encode, ValidReceipt;
    var f, text := Lines(log, parse), Decode(log);
    var r := NewRow(f, e.value, sha);
    var line, n := RowLine(r), |Take(Encode(RowLine(r)), e.bytes)|;
    WhenItWrites(f, e.value, sha);
    TextIsTerminated(log, f, parse, sha);
    BytesOfPart(log, text, line, n);
    if !InsideACharacter(line, n) {
      var k :| 0 <= k <= |line| && |Encode(line[..k])| == n
               && Decode(log + Encode(line)[..n]) == text + line[..k];
      PartLength(line, k);
      if Terminated(text) {
        PhysicalAfterNewline(text, "", parse);
        PartOfALine(text, r, k, parse, sha);
      } else {
        var before, cut :| EndsInRow(text, before, cut, parse, sha);
        PartBehindARow(text, before, cut, r, k, parse, sha);
      }
    }
  }

  // ---------- whole runs ----------

  /** A run without harm keeps what there was. */
  lemma {:induction false} HarmlessRun(log: seq<Byte>, events: seq<ByteAppend>, parse: Parser, sha: BodyHash)
    requires ReadsRows(parse) && Stands(log, parse, sha) && NoHarm(log, events, parse, sha)
    ensures var last := RunBytes(log, events, parse, sha);
            Stands(last, parse, sha) && StillThere(log, None, last, parse, sha)
    decreases |events|
  {
    hide Stands, Print, IsJson, HarmsBytes;
    if events != [] {
      HarmlessStep(log, events[0], parse, sha);
      HarmlessRun(StepBytes(log, events[0], parse, sha), events[1..], parse, sha);
    }
  }

  lemma RunOfStart(log: seq<Byte>, events: seq<ByteAppend>, i: nat, parse: Parser, sha: BodyHash)
    requires 0 < i <= |events|
    ensures var log', rest := StepBytes(log, events[0], parse, sha), events[1..];
            && RunBytes(log, events[..i], parse, sha) == RunBytes(log', rest[..i - 1], parse, sha)
            && AnswerAt(log, events, i, parse, sha) == AnswerAt(log', rest, i - 1, parse, sha)
  {
    assert events[..i][1..] == events[1..][..i - 1];
  }

  /** Everything is kept exactly when the first append's answer and what was there before it are, and everything is
      kept by the rest of the run. */
  lemma KeepsEverythingStep(log: seq<Byte>, events: seq<ByteAppend>, parse: Parser, sha: BodyHash)
    requires events != []
    ensures var log' := StepBytes(log, events[0], parse, sha);
            KeepsEverything(log, events, parse, sha)
            <==> StillThere(log, Answer(log, events[0], parse, sha), RunBytes(log, events, parse, sha), parse, sha)
                 && KeepsEverything(log', events[1..], parse, sha)
  {
    hide StillThere, Answer, StepBytes;
    var log', rest := StepBytes(log, events[0], parse, sha), events[1..];
    var last := RunBytes(log, events, parse, sha);
    assert events[..0] == [];
    if KeepsEverything(log, events, parse, sha) {
      assert StillThere(RunBytes(log, events[..0], parse, sha), AnswerAt(log, events, 0, parse, sha), last, parse, sha);
      forall i | 0 <= i <= |rest|
        ensures StillThere(RunBytes(log', rest[..i], parse, sha), AnswerAt(log', rest, i, parse, sha), last, parse, sha)
      {
        RunOfStart(log, events, i + 1, parse, sha);
        assert StillThere(RunBytes(log, events[..i + 1], parse, sha), AnswerAt(log, events, i + 1, parse, sha), last,
                          parse, sha);
      }
    }
    if KeepsEverything(log', rest, parse, sha) {
      forall i | 0 < i <= |events|
        ensures StillThere(RunBytes(log, events[..i], parse, sha), AnswerAt(log, events, i, parse, sha), last,
                           parse, sha)
      {
        RunOfStart(log, events, i, parse, sha);
        assert StillThere(RunBytes(log', rest[..i - 1], parse, sha), AnswerAt(log', rest, i - 1, parse, sha), last,
                          parse, sha);
      }
    }
  }

  lemma StillThereLater(log: seq<Byte>, answer: Option<Receipt>, log': seq<Byte>, later: seq<Byte>, parse: Parser,
                        sha: BodyHash)
    requires StillThere(log, answer, log', parse, sha) && StillThere(log', None, later, parse, sha)
    ensures StillThere(log, answer, later, parse, sha)
  {
  }

  /** Whatever bytes of whichever appends reach the disk: readers keep every row they ever got, and get every receipt
      an append answered with, if and only if no write lands on a row that lost its newline, none stops inside
      a character, and none that is whole has a line boundary in its row. */
  lemma {:induction false} RunKeepsEverythingExactlyWhen(log: seq<Byte>, events: seq<ByteAppend>, parse: Parser,
                                                         sha: BodyHash)
    requires ReadsRows(parse) && Stands(log, parse, sha)
    ensures KeepsEverything(log, events, parse, sha) <==> NoHarm(log, events, parse, sha)
    decreases |events|
  {
    hide Stands, Print, IsJson, HarmsBytes, StillThere, KeepsEverything, Frozen;
    if events == [] {
      NothingHappens(log, parse, sha);
    } else {
      var e, rest, log' := events[0], events[1..], StepBytes(log, events[0], parse, sha);
      KeepsEverythingStep(log, events, parse, sha);
      if HarmsBytes(log, e, parse, sha) {
        HarmfulStep(log, e, parse, sha);
        FrozenForEver(log', rest, parse, sha);
      } else {
        HarmlessStep(log, e, parse, sha);
        RunKeepsEverythingExactlyWhen(log', rest, parse, sha);
        if NoHarm(log', rest, parse, sha) {
          HarmlessRun(log', rest, parse, sha);
          StillThereLater(log, Answer(log, e, parse, sha), log', RunBytes(log', rest, parse, sha), parse, sha);
        }
      }
    }
  }

  lemma NothingHappens(log: seq<Byte>, parse: Parser, sha: BodyHash)
    ensures KeepsEverything(log, [], parse, sha)
  {
    var events: seq<ByteAppend> := [];
    assert events[..0] == [];
  }

  /** The same from the empty log, which every parser that reads rows reads. */
  lemma RunFromTheEmptyLog(events: seq<ByteAppend>, parse: Parser, sha: BodyHash)
    requires ReadsRows(parse)
    ensures KeepsEverything([], events, parse, sha) <==> NoHarm([], events, parse, sha)
  {
    DecodeEncode("");
    RunKeepsEverythingExactlyWhen([], events, parse, sha);
  }
}
