/** Publication receipts, their hash chain on disk, and the reader and appender of that chain
    (autoresearch/common/commit_chain.py, autoresearch/contracts/publication.py). */
module CommitChain {
  import opened Wrappers
  import opened Strings

  type Digest = string

  datatype EffectStatus = Applied | AlreadyApplied | SupersededByNewer | Conflict

  datatype StateEffect = StateEffect(target: string, status: EffectStatus, before: Option<Digest>, after: Digest)

  /** Everything in a receipt that its own hash covers. */
  datatype Body = Body(
    engine: string,
    runId: string,
    publicationId: string,
    bundleHash: Digest,
    capsuleRootHash: Digest,
    canonicalPath: string,
    committedAt: string,
    effects: seq<StateEffect>,
    previous: Option<Digest>)

  datatype Receipt = Receipt(body: Body, receiptHash: Digest)

  /** The digest of a receipt without its own hash field. Nothing is assumed about it
      except, where a lemma says so, that it does not collide on the receipts at hand. */
  type BodyHash = Body -> Digest

  // ---------- identities ----------

  /** `[0-9]{8}T[0-9]{12}Z` */
  predicate IsRunId(s: string) {
    && |s| == 22 && s[8] == 'T' && s[21] == 'Z'
    && forall i | 0 <= i < 21 && i != 8 :: IsDigit(s[i])
  }

  /** `p[1-9][0-9]*` */
  predicate IsPublicationId(s: string) {
    && |s| >= 2 && s[0] == 'p' && s[1] != '0'
    && forall i | 1 <= i < |s| :: IsDigit(s[i])
  }

  predicate SameIdentity(a: Body, b: Body) {
    a.engine == b.engine && a.runId == b.runId && a.publicationId == b.publicationId
  }

  predicate ValidReceipt(r: Receipt, sha: BodyHash) {
    && r.body.engine in {"claude", "codex"}
    && IsRunId(r.body.runId)
    && IsPublicationId(r.body.publicationId)
    && r.body.canonicalPath == "runs/" + r.body.runId + "/" + r.body.publicationId
    && (forall i | 0 <= i < |r.body.effects| :: r.body.effects[i].status != Conflict)
    && (forall i, j | 0 <= i < j < |r.body.effects| :: r.body.effects[i].target != r.body.effects[j].target)
    && r.receiptHash == sha(r.body)
  }

  function Seal(value: Body, previous: Option<Digest>, sha: BodyHash): Receipt {
    var body := value.(previous := previous);
    Receipt(body, sha(body))
  }

  // ---------- the file ----------

  /** One physical line: white space, text that is not a JSON document, or a parsed object. */
  datatype Line = Blank | Torn | Row(receipt: Receipt)

  /** Newline-terminated lines, then whatever follows the last newline (`Blank` when nothing does). */
  datatype ChainFile = ChainFile(lines: seq<Line>, tail: Line)

  const EMPTY_FILE := ChainFile([], Blank)

  function Physical(f: ChainFile): seq<Line> { f.lines + [f.tail] }

  function NonBlank(lines: seq<Line>): seq<Line> {
    if lines == [] then []
    else if lines[0].Blank? then NonBlank(lines[1..])
    else [lines[0]] + NonBlank(lines[1..])
  }

  /** Text written after an unterminated remainder shares its line: a second document on a
      line that already holds text does not parse. */
  function Glue(tail: Line, r: Receipt): Line {
    if tail.Blank? then Row(r) else Torn
  }

  function AppendLine(f: ChainFile, r: Receipt): ChainFile {
    ChainFile(f.lines + [Glue(f.tail, r)], Blank)
  }

  /** The hash the row after `rows` has to name, when the row before `rows` had hash `previous`. */
  function LinkAfter(previous: Option<Digest>, rows: seq<Receipt>): Option<Digest> {
    if rows == [] then previous else Some(rows[|rows| - 1].receiptHash)
  }

  function Link(rows: seq<Receipt>): Option<Digest> { LinkAfter(None, rows) }

  predicate LinkedAt(previous: Option<Digest>, rows: seq<Receipt>, i: nat, sha: BodyHash)
    requires i < |rows|
  {
    && ValidReceipt(rows[i], sha)
    && rows[i].body.previous == if i == 0 then previous else Some(rows[i - 1].receiptHash)
  }

  /** Every row is valid and names the hash of the row before it. */
  predicate ChainedFrom(previous: Option<Digest>, rows: seq<Receipt>, sha: BodyHash) {
    forall i | 0 <= i < |rows| :: LinkedAt(previous, rows, i, sha)
  }

  predicate Chained(rows: seq<Receipt>, sha: BodyHash) { ChainedFrom(None, rows, sha) }

  predicate DistinctIdentities(rows: seq<Receipt>) {
    forall i, j | 0 <= i < j < |rows| :: !SameIdentity(rows[i].body, rows[j].body)
  }

  // ---------- reading ----------

  predicate Extends(r: Receipt, previous: Option<Digest>, rows: seq<Receipt>, sha: BodyHash) {
    ValidReceipt(r, sha) && r.body.previous == LinkAfter(previous, rows)
  }

  function ReadFrom(lines: seq<Line>, previous: Option<Digest>, sha: BodyHash): seq<Receipt> {
    if lines == [] || lines[0].Torn? then []
    else if lines[0].Blank? then ReadFrom(lines[1..], previous, sha)
    else
      var r := lines[0].receipt;
      if Extends(r, previous, [], sha)
      then [r] + ReadFrom(lines[1..], Some(r.receiptHash), sha)
      else []
  }

  function ReadChain(f: ChainFile, sha: BodyHash): seq<Receipt> {
    ReadFrom(Physical(f), None, sha)
  }

  /** What readers are promised: the rows are the leading non-blank lines, they form a chain,
      and the next line, if there is one, does not extend it. */
  predicate LongestFrom(previous: Option<Digest>, rows: seq<Receipt>, nonBlank: seq<Line>, sha: BodyHash) {
    && |rows| <= |nonBlank|
    && (forall i | 0 <= i < |rows| :: nonBlank[i] == Row(rows[i]))
    && ChainedFrom(previous, rows, sha)
    && (|rows| < |nonBlank| ==>
          !(nonBlank[|rows|].Row? && Extends(nonBlank[|rows|].receipt, previous, rows, sha)))
  }

  predicate LongestValidPrefix(rows: seq<Receipt>, nonBlank: seq<Line>, sha: BodyHash) {
    LongestFrom(None, rows, nonBlank, sha)
  }

  lemma {:induction false} ReadFromIsLongest(lines: seq<Line>, previous: Option<Digest>, sha: BodyHash)
    ensures LongestFrom(previous, ReadFrom(lines, previous, sha), NonBlank(lines), sha)
    decreases |lines|
  {
    if lines != [] {
      if lines[0].Blank? {
        ReadFromIsLongest(lines[1..], previous, sha);
      } else if lines[0].Row? && Extends(lines[0].receipt, previous, [], sha) {
        var r := lines[0].receipt;
        ReadFromIsLongest(lines[1..], Some(r.receiptHash), sha);
        var rest := ReadFrom(lines[1..], Some(r.receiptHash), sha);
        assert NonBlank(lines) == [Row(r)] + NonBlank(lines[1..]);
        assert ReadFrom(lines, previous, sha) == [r] + rest;
        ConsIsLongest(r, previous, rest, NonBlank(lines[1..]), sha);
      } else {
        assert ReadFrom(lines, previous, sha) == [];
      }
    }
  }

  lemma ConsIsLongest(r: Receipt, previous: Option<Digest>, rest: seq<Receipt>, nonBlank: seq<Line>, sha: BodyHash)
    requires Extends(r, previous, [], sha)
    requires LongestFrom(Some(r.receiptHash), rest, nonBlank, sha)
    ensures LongestFrom(previous, [r] + rest, [Row(r)] + nonBlank, sha)
  {
    var rows := [r] + rest;
    forall i | 0 <= i < |rows| ensures LinkedAt(previous, rows, i, sha) {
      if i > 0 {
        assert LinkedAt(Some(r.receiptHash), rest, i - 1, sha);
      }
    }
    assert LinkAfter(previous, rows) == LinkAfter(Some(r.receiptHash), rest);
  }

  lemma ReadChainIsLongest(f: ChainFile, sha: BodyHash)
    ensures LongestValidPrefix(ReadChain(f, sha), NonBlank(Physical(f)), sha)
  {
    ReadFromIsLongest(Physical(f), None, sha);
  }

  /** The promise determines the rows. */
  lemma LongestValidPrefixIsUnique(a: seq<Receipt>, b: seq<Receipt>, nonBlank: seq<Line>, sha: BodyHash)
    requires LongestValidPrefix(a, nonBlank, sha) && LongestValidPrefix(b, nonBlank, sha)
    ensures a == b
  {
    if |a| < |b| {
      ShorterIsExtended(a, b, nonBlank, sha);
    } else if |b| < |a| {
      ShorterIsExtended(b, a, nonBlank, sha);
    }
  }

  /** When one run of leading rows is shorter than another, its next line extends it. */
  lemma ShorterIsExtended(a: seq<Receipt>, b: seq<Receipt>, nonBlank: seq<Line>, sha: BodyHash)
    requires |a| < |b| <= |nonBlank|
    requires forall i | 0 <= i < |a| :: nonBlank[i] == Row(a[i])
    requires forall i | 0 <= i < |b| :: nonBlank[i] == Row(b[i])
    requires Chained(b, sha)
    ensures nonBlank[|a|].Row? && Extends(nonBlank[|a|].receipt, None, a, sha)
  {
    assert nonBlank[|a|] == Row(b[|a|]);
    assert LinkedAt(None, b, |a|, sha);
    assert |a| > 0 ==> Row(a[|a| - 1]) == nonBlank[|a| - 1] == Row(b[|a| - 1]);
  }

  lemma {:induction false} ReadFromConcat(a: seq<Line>, b: seq<Line>, previous: Option<Digest>, sha: BodyHash)
    requires |ReadFrom(a, previous, sha)| == |NonBlank(a)|
    ensures var rows := ReadFrom(a, previous, sha);
            ReadFrom(a + b, previous, sha) == rows + ReadFrom(b, LinkAfter(previous, rows), sha)
    decreases |a|
  {
    if a == [] {
      assert a + b == b;
    } else {
      assert (a + b)[1..] == a[1..] + b;
      if a[0].Blank? {
        ReadFromConcat(a[1..], b, previous, sha);
      } else {
        assert a[0].Row? && Extends(a[0].receipt, previous, [], sha);
        var r := a[0].receipt;
        var rest := ReadFrom(a[1..], Some(r.receiptHash), sha);
        ReadFromConcat(a[1..], b, Some(r.receiptHash), sha);
        assert ReadFrom(a, previous, sha) == [r] + rest;
        assert LinkAfter(previous, [r] + rest) == LinkAfter(Some(r.receiptHash), rest);
      }
    }
  }

  lemma {:induction false} NonBlankConcat(a: seq<Line>, b: seq<Line>)
    ensures NonBlank(a + b) == NonBlank(a) + NonBlank(b)
    decreases |a|
  {
    if a == [] {
      assert a + b == b;
    } else {
      assert (a + b)[1..] == a[1..] + b;
      NonBlankConcat(a[1..], b);
    }
  }

  // ---------- appending ----------

  datatype AppendError = Corrupt | IdentityConflict | InvalidReceipt

  /** Every non-blank line was readable. The appender refuses any other file. */
  predicate Intact(f: ChainFile, sha: BodyHash) {
    |ReadChain(f, sha)| == |NonBlank(Physical(f))|
  }

  function FindIdentity(rows: seq<Receipt>, value: Body): (i: nat)
    ensures i <= |rows|
    ensures i < |rows| ==> SameIdentity(rows[i].body, value)
    ensures forall j | 0 <= j < i :: !SameIdentity(rows[j].body, value)
  {
    if rows == [] || SameIdentity(rows[0].body, value) then 0
    else
      var rest := FindIdentity(rows[1..], value);
      assert forall j | 1 <= j < |rows| :: rows[j] == rows[1..][j - 1];
      1 + rest
  }

  /** The file and the answer after one append. */
  function AppendTo(f: ChainFile, value: Body, sha: BodyHash): (ChainFile, Result<Receipt, AppendError>) {
    var rows := ReadChain(f, sha);
    if !Intact(f, sha) then (f, Err(Corrupt))
    else
      var i := FindIdentity(rows, value);
      if i < |rows| then
        if Seal(value, rows[i].body.previous, sha) == rows[i] then (f, Ok(rows[i])) else (f, Err(IdentityConflict))
      else
        var r := Seal(value, Link(rows), sha);
        if ValidReceipt(r, sha) then (AppendLine(f, r), Ok(r)) else (f, Err(InvalidReceipt))
  }

  /** The file as the processes that share it see it. */
  class ChainLog {
    const sha: BodyHash
    var file: ChainFile

    constructor (sha: BodyHash)
      ensures this.sha == sha && file == EMPTY_FILE
    {
      this.sha := sha;
      file := EMPTY_FILE;
    }

    method Read() returns (rows: seq<Receipt>)
      ensures rows == ReadChain(file, sha)
      ensures LongestValidPrefix(rows, NonBlank(Physical(file)), sha)
    {
      rows := [];
      var previous: Option<Digest> := None;
      var lines := Physical(file);
      var i := 0;
      while i < |lines|
        invariant 0 <= i <= |lines|
        invariant rows + ReadFrom(lines[i..], previous, sha) == ReadFrom(lines, None, sha)
      {
        var line := lines[i];
        assert lines[i..][1..] == lines[i + 1..];
        if line.Blank? {
          i := i + 1;
          continue;
        }
        if line.Torn? || !ValidReceipt(line.receipt, sha) {
          break;
        }
        if line.receipt.body.previous != previous {
          break;
        }
        rows := rows + [line.receipt];
        previous := Some(line.receipt.receiptHash);
        i := i + 1;
      }
      ReadChainIsLongest(file, sha);
    }

    method Append(value: Body) returns (answer: Result<Receipt, AppendError>)
      modifies this
      ensures (file, answer) == AppendTo(old(file), value, sha)
    {
      var rows := Read();
      if |rows| != |NonBlank(Physical(file))| {
        return Err(Corrupt);
      }
      ghost var found := FindIdentity(rows, value);
      var i := 0;
      while i < |rows|
        invariant 0 <= i <= found <= |rows|
        invariant file == old(file)
      {
        if SameIdentity(rows[i].body, value) {
          var candidate := Seal(value, rows[i].body.previous, sha);
          if candidate != rows[i] {
            return Err(IdentityConflict);
          }
          return Ok(rows[i]);
        }
        i := i + 1;
      }
      var result := Seal(value, Link(rows), sha);
      if !ValidReceipt(result, sha) {
        return Err(InvalidReceipt);
      }
      file := AppendLine(file, result);
      return Ok(result);
    }
  }

  // ---------- what appending does ----------

  /** Appending a new valid receipt to an intact file: readers see exactly one more row when the
      file ended with a newline; otherwise the write lands on the last row's line and readers
      lose that row as well as the new one. */
  lemma AppendLineEffect(f: ChainFile, r: Receipt, sha: BodyHash)
    requires Intact(f, sha)
    requires ValidReceipt(r, sha) && r.body.previous == Link(ReadChain(f, sha))
    ensures f.tail.Blank? ==>
              ReadChain(AppendLine(f, r), sha) == ReadChain(f, sha) + [r] && Intact(AppendLine(f, r), sha)
    ensures !f.tail.Blank? ==>
              var rows := ReadChain(f, sha);
              rows != [] && ReadChain(AppendLine(f, r), sha) == rows[..|rows| - 1] && !Intact(AppendLine(f, r), sha)
  {
    var rows := ReadChain(f, sha);
    var g := AppendLine(f, r);
    IntactParts(f, sha);
    var body := ReadFrom(f.lines, None, sha);
    var last := [Glue(f.tail, r), Blank];
    assert Physical(g) == f.lines + last;
    ReadFromConcat(f.lines, last, None, sha);
    NonBlankConcat(f.lines, last);
    ReadFromConcat(f.lines, [f.tail], None, sha);
    NonBlankConcat(f.lines, [f.tail]);
    var link := Link(body);
    assert last[1..] == [Blank] && [Blank][1..] == [] && [f.tail][1..] == [];
    assert ReadFrom([Blank], Some(r.receiptHash), sha) == [];
    assert NonBlank([Blank]) == [];
    if f.tail.Blank? {
      assert ReadFrom([f.tail], link, sha) == [];
      assert rows == body;
      assert ReadFrom(last, link, sha) == [r];
      assert NonBlank(last) == [Row(r)];
    } else {
      assert |ReadFrom([f.tail], link, sha)| == 1;
      assert rows[..|rows| - 1] == body;
      assert NonBlank(last) == [Torn] + NonBlank([Blank]);
    }
  }

  lemma {:induction false} IntactPrefix(a: seq<Line>, b: seq<Line>, previous: Option<Digest>, sha: BodyHash)
    requires |ReadFrom(a + b, previous, sha)| == |NonBlank(a + b)|
    ensures |ReadFrom(a, previous, sha)| == |NonBlank(a)|
    decreases |a|
  {
    if a != [] {
      assert (a + b)[1..] == a[1..] + b;
      if a[0].Blank? {
        IntactPrefix(a[1..], b, previous, sha);
      } else {
        assert NonBlank(a + b) != [];
        IntactPrefix(a[1..], b, Some(a[0].receipt.receiptHash), sha);
      }
    }
  }

  lemma IntactParts(f: ChainFile, sha: BodyHash)
    requires Intact(f, sha)
    ensures |ReadFrom(f.lines, None, sha)| == |NonBlank(f.lines)|
    ensures !f.tail.Torn?
  {
    IntactPrefix(f.lines, [f.tail], None, sha);
    ReadFromConcat(f.lines, [f.tail], None, sha);
    NonBlankConcat(f.lines, [f.tail]);
    assert [f.tail][1..] == [];
  }

  /** For an intact file and a receipt whose identity is new: readers gain the receipt and keep
      every earlier row if and only if nothing but white space followed the last newline. */
  lemma AppendIsSafeExactlyAfterNewline(f: ChainFile, value: Body, sha: BodyHash)
    requires Intact(f, sha)
    requires FindIdentity(ReadChain(f, sha), value) == |ReadChain(f, sha)|
    requires ValidReceipt(Seal(value, Link(ReadChain(f, sha)), sha), sha)
    ensures var (g, answer) := AppendTo(f, value, sha);
            answer.Ok? && (ReadChain(g, sha) == ReadChain(f, sha) + [answer.value] <==> f.tail.Blank?)
  {
    AppendLineEffect(f, Seal(value, Link(ReadChain(f, sha)), sha), sha);
  }

  /** A file that lost only its final newline is read in full and accepted by the appender, and
      the accepted append then hides the row that was there. */
  lemma LostNewlineHidesACommittedReceipt(sha: BodyHash, first: Body, second: Body)
    requires ValidReceipt(Seal(first, None, sha), sha)
    requires ValidReceipt(Seal(second, Some(sha(first.(previous := None))), sha), sha)
    requires !SameIdentity(first, second)
    ensures var f := ChainFile([], Row(Seal(first, None, sha)));
            var (g, answer) := AppendTo(f, second, sha);
            ReadChain(f, sha) == [Seal(first, None, sha)] && answer.Ok? && ReadChain(g, sha) == []
  {
    var r := Seal(first, None, sha);
    var f := ChainFile([], Row(r));
    assert Physical(f) == [Row(r)] && [Row(r)][1..] == [];
    assert ReadFrom([], Some(r.receiptHash), sha) == [];
    assert ReadChain(f, sha) == [r] + [];
    assert NonBlank(Physical(f)) == [Row(r)] + NonBlank([]);
    AppendLineEffect(f, Seal(second, Link([r]), sha), sha);
  }

  // ---------- sound files ----------

  /** Terminated lines only, all readable, no identity twice; at most a torn remainder. */
  predicate Sound(f: ChainFile, sha: BodyHash) {
    && !f.tail.Row?
    && Intact(f.(tail := Blank), sha)
    && DistinctIdentities(ReadChain(f.(tail := Blank), sha))
  }

  /** A torn remainder leaves readers with the whole chain and makes every append refuse. */
  lemma TornTailIsReadableAndRefused(f: ChainFile, value: Body, sha: BodyHash)
    requires Sound(f, sha)
    ensures ReadChain(f, sha) == ReadChain(f.(tail := Blank), sha)
    ensures f.tail.Torn? ==> AppendTo(f, value, sha) == (f, Err(Corrupt))
  {
    var whole := f.(tail := Blank);
    IntactParts(whole, sha);
    ReadFromConcat(f.lines, [Blank], None, sha);
    ReadFromConcat(f.lines, [f.tail], None, sha);
    NonBlankConcat(f.lines, [Blank]);
    NonBlankConcat(f.lines, [f.tail]);
    assert [Blank][1..] == [] && [f.tail][1..] == [];
    var link := Link(ReadFrom(f.lines, None, sha));
    assert ReadFrom([Blank], link, sha) == [] == ReadFrom([f.tail], link, sha);
    assert NonBlank([Blank]) == [];
    assert f.tail.Torn? ==> NonBlank([f.tail]) == [Torn] + NonBlank([]);
  }

  /** A whole append keeps a sound file sound and adds at most one row, at the end. */
  lemma AppendKeepsSound(f: ChainFile, value: Body, sha: BodyHash)
    requires Sound(f, sha)
    ensures Sound(AppendTo(f, value, sha).0, sha)
    ensures ReadChain(f, sha) <= ReadChain(AppendTo(f, value, sha).0, sha)
  {
    var g := AppendTo(f, value, sha).0;
    TornTailIsReadableAndRefused(f, value, sha);
    if g != f {
      assert f == f.(tail := Blank);
      AppendLineEffect(f, Seal(value, Link(ReadChain(f, sha)), sha), sha);
      assert g == g.(tail := Blank);
    }
  }

  /** Appending a stored receipt again, whatever link the caller supplies, writes nothing and
      returns the stored row. */
  lemma ReappendReturnsStored(f: ChainFile, i: nat, link: Option<Digest>, sha: BodyHash)
    requires Sound(f, sha) && f.tail.Blank?
    requires i < |ReadChain(f, sha)|
    ensures AppendTo(f, ReadChain(f, sha)[i].body.(previous := link), sha) == (f, Ok(ReadChain(f, sha)[i]))
  {
    assert f == f.(tail := Blank);
    ReadChainIsLongest(f, sha);
    var rows := ReadChain(f, sha);
    var value := rows[i].body.(previous := link);
    var j := FindIdentity(rows, value);
    assert SameIdentity(rows[i].body, value);
    assert j <= i;
    assert j == i;
    assert LinkedAt(None, rows, i, sha);
    assert value.(previous := rows[i].body.previous) == rows[i].body;
  }

  // ---------- the tip fixes the history ----------

  predicate CollisionFree(a: seq<Receipt>, b: seq<Receipt>, sha: BodyHash) {
    forall i, j | 0 <= i < |a| && 0 <= j < |b| :: sha(a[i].body) == sha(b[j].body) ==> a[i].body == b[j].body
  }

  /** Two chains on whose rows the hash does not collide and whose last hashes agree are the
      same chain, row by row and in length. */
  lemma {:induction false} TipFixesHistory(a: seq<Receipt>, b: seq<Receipt>, sha: BodyHash)
    requires Chained(a, sha) && Chained(b, sha)
    requires CollisionFree(a, b, sha)
    requires Link(a) == Link(b)
    ensures a == b
    decreases |a|
  {
    if a != [] {
      var m, n := |a| - 1, |b| - 1;
      assert LinkedAt(None, a, m, sha) && LinkedAt(None, b, n, sha);
      assert sha(a[m].body) == sha(b[n].body);
      assert a[m] == b[n];
      assert a[..m] != [] ==> a[..m][m - 1] == a[m - 1];
      assert b[..n] != [] ==> b[..n][n - 1] == b[n - 1];
      ChainedPrefix(a, m, sha);
      ChainedPrefix(b, n, sha);
      TipFixesHistory(a[..m], b[..n], sha);
      assert a == a[..m] + [a[m]] && b == b[..n] + [b[n]];
    }
  }

  lemma ChainedPrefix(rows: seq<Receipt>, n: nat, sha: BodyHash)
    requires Chained(rows, sha) && n <= |rows|
    ensures Chained(rows[..n], sha)
  {
    forall i | 0 <= i < n ensures LinkedAt(None, rows[..n], i, sha) {
      assert LinkedAt(None, rows, i, sha);
    }
  }
}
