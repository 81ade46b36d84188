/** Runs of appends to the receipt log, any of which may stop part way (autoresearch/common/commit_chain.py). */
module ChainRuns {
  import opened Wrappers
  import opened CommitChain

  /** An append runs to the end, stops with part of its row on disk, or stops with all of it but the
      newline. */
  datatype ChainEvent = AppendEvent(value: Body) | TornAppend(value: Body) | CutAppend(value: Body)

  predicate Writes(f: ChainFile, value: Body, sha: BodyHash) { AppendTo(f, value, sha).0 != f }

  /** Part of a row does not parse, and neither does anything behind text that is already on the line. */
  function StepFile(f: ChainFile, e: ChainEvent, sha: BodyHash): ChainFile {
    if !Writes(f, e.value, sha) then f
    else
      match e
      case AppendEvent(value) => AppendTo(f, value, sha).0
      case TornAppend(value) => f.(tail := Torn)
      case CutAppend(value) => f.(tail := Glue(f.tail, Seal(value, Link(ReadChain(f, sha)), sha)))
  }

  function RunFile(f: ChainFile, events: seq<ChainEvent>, sha: BodyHash): ChainFile
    decreases |events|
  {
    if events == [] then f else RunFile(StepFile(f, events[0], sha), events[1..], sha)
  }

  function Whole(f: ChainFile): ChainFile { if f.tail.Torn? then f.(tail := Blank) else f }

  /** Nothing but a torn remainder is unreadable, and no identity is there twice. */
  predicate Readable(f: ChainFile, sha: BodyHash) {
    Intact(Whole(f), sha) && DistinctIdentities(ReadChain(Whole(f), sha))
  }

  /** The append lands on the line of a row that lost its newline. */
  predicate Damages(f: ChainFile, e: ChainEvent, sha: BodyHash) {
    f.tail.Row? && Writes(f, e.value, sha)
  }

  predicate NoDamage(f: ChainFile, events: seq<ChainEvent>, sha: BodyHash)
    decreases |events|
  {
    events == [] || (!Damages(f, events[0], sha) && NoDamage(StepFile(f, events[0], sha), events[1..], sha))
  }

  /** Every row read at some point of the run is still read, in its place, at the end. */
  predicate KeepsEveryRow(f: ChainFile, events: seq<ChainEvent>, sha: BodyHash) {
    forall i | 0 <= i <= |events| ::
        ReadChain(RunFile(f, events[..i], sha), sha) <= ReadChain(RunFile(f, events, sha), sha)
  }

  // ---------- one step ----------

  lemma TornRemainderIsNotRead(f: ChainFile, sha: BodyHash)
    requires Readable(f, sha)
    ensures ReadChain(f, sha) == ReadChain(Whole(f), sha)
  {
    if f.tail.Torn? {
      TornTailIsReadableAndRefused(f, Body("", "", "", "", "", "", "", [], None), sha);
    }
  }

  /** A row without its newline is read like any other. */
  lemma CutRowIsRead(f: ChainFile, r: Receipt, sha: BodyHash)
    requires Intact(f, sha) && f.tail.Blank? && ValidReceipt(r, sha) && r.body.previous == Link(ReadChain(f, sha))
    ensures ReadChain(f.(tail := Row(r)), sha) == ReadChain(f, sha) + [r] && Intact(f.(tail := Row(r)), sha)
  {
    IntactParts(f, sha);
    ReadFromConcat(f.lines, [Blank], None, sha);
    ReadFromConcat(f.lines, [Row(r)], None, sha);
    NonBlankConcat(f.lines, [Blank]);
    NonBlankConcat(f.lines, [Row(r)]);
    assert [Blank][1..] == [] && [Row(r)][1..] == [];
    var link := Link(ReadFrom(f.lines, None, sha));
    assert ReadFrom([Blank], link, sha) == [];
    assert ReadFrom([], Some(r.receiptHash), sha) == [] && NonBlank([]) == [];
    assert ReadFrom([Row(r)], link, sha) == [r];
  }

  lemma StepExtends(f: ChainFile, e: ChainEvent, sha: BodyHash)
    requires Readable(f, sha) && !Damages(f, e, sha)
    ensures Readable(StepFile(f, e, sha), sha)
    ensures ReadChain(f, sha) <= ReadChain(StepFile(f, e, sha), sha)
  {
    if Writes(f, e.value, sha) {
      var rows := ReadChain(f, sha);
      assert Intact(f, sha);
      IntactParts(f, sha);
      assert f.tail.Blank? && Whole(f) == f;
      var r := Seal(e.value, Link(rows), sha);
      match e
      case AppendEvent(value) => AppendLineEffect(f, r, sha);
      case TornAppend(value) => TornRemainderIsNotRead(f.(tail := Torn), sha);
      case CutAppend(value) => CutRowIsRead(f, r, sha);
    }
  }

  /** A damaging append, however much of it reaches the disk, takes the row it lands on away from readers
      and leaves a file that every later append refuses. */
  lemma DamageLosesARow(f: ChainFile, e: ChainEvent, sha: BodyHash)
    requires Readable(f, sha) && Damages(f, e, sha)
    ensures var rows, g := ReadChain(f, sha), StepFile(f, e, sha);
            rows != [] && ReadChain(g, sha) == rows[..|rows| - 1] && !Intact(g, sha)
  {
    var rows := ReadChain(f, sha);
    AppendLineEffect(f, Seal(e.value, Link(rows), sha), sha);
    if !e.AppendEvent? {
      TornOverRow(f, sha);
    }
  }

  lemma TornOverRow(f: ChainFile, sha: BodyHash)
    requires Intact(f, sha) && f.tail.Row?
    ensures var rows, g := ReadChain(f, sha), f.(tail := Torn);
            rows != [] && ReadChain(g, sha) == rows[..|rows| - 1] && !Intact(g, sha)
  {
    IntactParts(f, sha);
    ReadFromConcat(f.lines, [f.tail], None, sha);
    ReadFromConcat(f.lines, [Torn], None, sha);
    NonBlankConcat(f.lines, [f.tail]);
    NonBlankConcat(f.lines, [Torn]);
    assert [f.tail][1..] == [] && [Torn][1..] == [];
    var link := Link(ReadFrom(f.lines, None, sha));
    assert ReadFrom([Torn], link, sha) == [];
    assert |ReadFrom([f.tail], link, sha)| == 1;
  }

  lemma {:induction false} RefusedForEver(f: ChainFile, events: seq<ChainEvent>, sha: BodyHash)
    requires !Intact(f, sha)
    ensures RunFile(f, events, sha) == f
    decreases |events|
  {
    if events != [] {
      assert StepFile(f, events[0], sha) == f;
      RefusedForEver(f, events[1..], sha);
    }
  }

  // ---------- whole runs ----------

  /** Along any run without damage rows are only ever added at the end, every prefix ever read stays
      linked, and no identity is stored twice. */
  lemma {:induction false} RunOnlyExtends(f: ChainFile, events: seq<ChainEvent>, sha: BodyHash)
    requires Readable(f, sha) && NoDamage(f, events, sha)
    ensures var g := RunFile(f, events, sha);
            && Readable(g, sha)
            && ReadChain(f, sha) <= ReadChain(g, sha)
            && Chained(ReadChain(g, sha), sha)
            && DistinctIdentities(ReadChain(g, sha))
    decreases |events|
  {
    if events == [] {
      ReadChainIsLongest(f, sha);
      TornRemainderIsNotRead(f, sha);
    } else {
      StepExtends(f, events[0], sha);
      RunOnlyExtends(StepFile(f, events[0], sha), events[1..], sha);
    }
  }

  lemma RunOfPrefix(f: ChainFile, events: seq<ChainEvent>, i: nat, sha: BodyHash)
    requires 0 < i <= |events|
    ensures RunFile(f, events[..i], sha) == RunFile(StepFile(f, events[0], sha), events[1..][..i - 1], sha)
  {
    assert events[..i][1..] == events[1..][..i - 1];
  }

  lemma KeepsEveryRowStep(f: ChainFile, events: seq<ChainEvent>, sha: BodyHash)
    requires events != []
    ensures KeepsEveryRow(f, events, sha)
        <==> ReadChain(f, sha) <= ReadChain(RunFile(f, events, sha), sha)
             && KeepsEveryRow(StepFile(f, events[0], sha), events[1..], sha)
  {
    var f', rest := StepFile(f, events[0], sha), events[1..];
    assert events[..0] == [];
    if KeepsEveryRow(f, events, sha) {
      assert ReadChain(RunFile(f, events[..0], sha), sha) <= ReadChain(RunFile(f, events, sha), sha);
      forall i | 0 <= i <= |rest|
        ensures ReadChain(RunFile(f', rest[..i], sha), sha) <= ReadChain(RunFile(f', rest, sha), sha)
      {
        RunOfPrefix(f, events, i + 1, sha);
        assert ReadChain(RunFile(f, events[..i + 1], sha), sha) <= ReadChain(RunFile(f, events, sha), sha);
      }
    }
    if KeepsEveryRow(f', rest, sha) {
      forall i | 0 < i <= |events|
        ensures ReadChain(RunFile(f, events[..i], sha), sha) <= ReadChain(RunFile(f, events, sha), sha)
      {
        RunOfPrefix(f, events, i, sha);
        assert ReadChain(RunFile(f', rest[..i - 1], sha), sha) <= ReadChain(RunFile(f', rest, sha), sha);
      }
    }
  }

  /** A run keeps every row it ever showed if and only if no append lands on a row without its newline. */
  lemma {:induction false} RunKeepsRowsExactlyWhenUndamaged(f: ChainFile, events: seq<ChainEvent>, sha: BodyHash)
    requires Readable(f, sha)
    ensures KeepsEveryRow(f, events, sha) <==> NoDamage(f, events, sha)
    decreases |events|
  {
    if events == [] {
      assert events[..0] == events;
    } else {
      var e, rest := events[0], events[1..];
      KeepsEveryRowStep(f, events, sha);
      if Damages(f, e, sha) {
        DamageLosesARow(f, e, sha);
        RefusedForEver(StepFile(f, e, sha), rest, sha);
      } else {
        StepExtends(f, e, sha);
        RunKeepsRowsExactlyWhenUndamaged(StepFile(f, e, sha), rest, sha);
        if NoDamage(f, events, sha) {
          RunOnlyExtends(f, events, sha);
        }
      }
    }
  }

  /** Appends that are whole or torn inside their row never damage a terminated file. */
  lemma {:induction false} WithoutCutsNothingIsDamaged(f: ChainFile, events: seq<ChainEvent>, sha: BodyHash)
    requires Readable(f, sha) && !f.tail.Row?
    requires forall i | 0 <= i < |events| :: !events[i].CutAppend?
    ensures NoDamage(f, events, sha)
    decreases |events|
  {
    if events != [] {
      StepExtends(f, events[0], sha);
      assert !StepFile(f, events[0], sha).tail.Row?;
      WithoutCutsNothingIsDamaged(StepFile(f, events[0], sha), events[1..], sha);
    }
  }
}
