/** Which receipts are valid (autoresearch/contracts/publication.py), on their own fields, and what an append to a
    complete log answers and writes (autoresearch/common/commit_chain.py). */
module ReceiptRules {
  import opened Wrappers
  import opened Strings
  import opened CommitChain

  const DIGITS := "0123456789"

  predicate AllDigits(s: string) { forall c | c in s :: c in DIGITS }

  /** Eight digits, a T, twelve digits, and a Z. */
  predicate RunName(s: string) {
    |s| == 22 && s[8..9] == "T" && s[21..] == "Z" && AllDigits(s[..8]) && AllDigits(s[9..21])
  }

  /** A p and a positive number without leading zeros. */
  predicate PublicationName(s: string) { |s| > 1 && s[..1] == "p" && AllDigits(s[1..]) && s[1] in "123456789" }

  lemma DigitIs(c: char)
    ensures IsDigit(c) <==> c in DIGITS
    ensures c in "123456789" <==> c in DIGITS && c != '0'
  {
    if IsDigit(c) {
      assert DIGITS[c as int - '0' as int] == c;
    }
  }

  lemma DigitsOfPart(s: string, i: nat, j: nat)
    requires i <= j <= |s|
    ensures AllDigits(s[i..j]) <==> forall k | i <= k < j :: IsDigit(s[k])
  {
    forall c ensures IsDigit(c) <==> c in DIGITS {
      DigitIs(c);
    }
    hide IsDigit;
    var part := s[i..j];
    assert forall k | 0 <= k < |part| :: part[k] in part && part[k] == s[i + k];
    if AllDigits(part) {
      forall k | i <= k < j ensures IsDigit(s[k]) {
        assert part[k - i] == s[k];
      }
    }
  }

  lemma RunNamesAreIds(s: string)
    ensures IsRunId(s) <==> RunName(s)
  {
    if |s| == 22 {
      DigitsOfPart(s, 0, 8);
      DigitsOfPart(s, 9, 21);
      assert s[8..9] == [s[8]] && s[21..] == [s[21]] && s[..8] == s[0..8];
    }
  }

  lemma PublicationNamesAreIds(s: string)
    ensures IsPublicationId(s) <==> PublicationName(s)
  {
    if |s| > 1 {
      DigitsOfPart(s, 1, |s|);
      DigitIs(s[1]);
      assert s[..1] == [s[0]] && s[1..] == s[1..|s|];
      assert s[1] in s[1..];
    }
  }

  /** A receipt is valid if and only if it is of one of the two engines, its names are in order, its path is made of
      them, no effect is a conflict, no two are about one target, and it carries the digest of everything else. */
  lemma ReceiptIsValidExactlyWhen(r: Receipt, sha: BodyHash)
    ensures ValidReceipt(r, sha)
            <==> && (r.body.engine == "claude" || r.body.engine == "codex")
                 && RunName(r.body.runId) && PublicationName(r.body.publicationId)
                 && r.body.canonicalPath == "runs/" + r.body.runId + "/" + r.body.publicationId
                 && (forall effect | effect in r.body.effects ::
                       effect.status in {Applied, AlreadyApplied, SupersededByNewer})
                 && !(exists i, j :: 0 <= i < j < |r.body.effects|
                                     && r.body.effects[i].target == r.body.effects[j].target)
                 && sha(r.body) == r.receiptHash
  {
    RunNamesAreIds(r.body.runId);
    PublicationNamesAreIds(r.body.publicationId);
    hide IsRunId, RunName, IsPublicationId, PublicationName;
    assert forall i | 0 <= i < |r.body.effects| :: r.body.effects[i] in r.body.effects;
  }

  /** The log holds these rows and nothing else, the last of them with its newline; each is valid and names the hash of
      the one before it. */
  predicate Complete(f: ChainFile, rows: seq<Receipt>, sha: BodyHash) {
    && f.tail == Blank && |f.lines| == |rows| && (forall i | 0 <= i < |rows| :: f.lines[i] == Row(rows[i]))
    && forall i: nat | i < |rows| :: Fits(rows, i, sha)
  }

  predicate Fits(rows: seq<Receipt>, i: nat, sha: BodyHash)
    requires i < |rows|
  {
    ValidReceipt(rows[i], sha) && rows[i].body.previous == if i > 0 then Some(rows[i - 1].receiptHash) else None
  }

  lemma {:induction false} RowsOnly(lines: seq<Line>, rows: seq<Receipt>)
    requires |lines| == |rows| + 1 && lines[|rows|] == Blank && forall i | 0 <= i < |rows| :: lines[i] == Row(rows[i])
    ensures |NonBlank(lines)| == |rows| && forall i | 0 <= i < |rows| :: NonBlank(lines)[i] == Row(rows[i])
    decreases |rows|
  {
    if rows == [] {
      assert lines == [Blank] && lines[1..] == [];
      assert NonBlank(lines) == NonBlank(lines[1..]) == [];
    } else {
      RowsOnly(lines[1..], rows[1..]);
      assert NonBlank(lines) == [lines[0]] + NonBlank(lines[1..]);
    }
  }

  lemma CompleteIsRead(f: ChainFile, rows: seq<Receipt>, sha: BodyHash)
    requires Complete(f, rows, sha)
    ensures ReadChain(f, sha) == rows && Intact(f, sha)
  {
    hide ReadFrom, NonBlank;
    RowsOnly(Physical(f), rows);
    var lines := NonBlank(Physical(f));
    forall i | 0 <= i < |rows| ensures LinkedAt(None, rows, i, sha) {
      assert Fits(rows, i, sha);
    }
    assert LongestValidPrefix(rows, lines, sha);
    ReadChainIsLongest(f, sha);
    LongestValidPrefixIsUnique(ReadChain(f, sha), rows, lines, sha);
  }

  /** The first row of an engine, a run and a publication. */
  predicate FirstOf(rows: seq<Receipt>, value: Body, i: nat) {
    && i < |rows| && rows[i].body.engine == value.engine && rows[i].body.runId == value.runId
    && rows[i].body.publicationId == value.publicationId
    && forall j | 0 <= j < i ::
         rows[j].body.engine != value.engine || rows[j].body.runId != value.runId
         || rows[j].body.publicationId != value.publicationId
  }

  /** A receipt that is there already is answered with, if it says the same but for its link, and otherwise refused; a
      new one is linked to the last row and written behind it if it is valid, and otherwise refused. */
  lemma AppendAnswers(f: ChainFile, rows: seq<Receipt>, value: Body, sha: BodyHash)
    requires Complete(f, rows, sha)
    ensures var (g, answer) := AppendTo(f, value, sha);
            var body := value.(previous := if |rows| > 0 then Some(rows[|rows| - 1].receiptHash) else None);
            var sealed := Receipt(body, sha(body));
            && (forall i: nat | FirstOf(rows, value, i) ::
                  g == f && answer == if value.(previous := rows[i].body.previous) == rows[i].body then Ok(rows[i])
                                      else Err(IdentityConflict))
            && ((forall i: nat :: !FirstOf(rows, value, i)) ==>
                  if ValidReceipt(sealed, sha)
                  then && answer == Ok(sealed) && Complete(g, rows + [sealed], sha)
                  else g == f && answer == Err(InvalidReceipt))
  {
    CompleteIsRead(f, rows, sha);
    hide ReadChain, Intact, ValidReceipt, Complete;
    var i := FindIdentity(rows, value);
    if i < |rows| {
      assert FirstOf(rows, value, i);
      FirstIsOne(rows, value, i);
      ValidRow(f, rows, i, sha);
    } else {
      var r := Seal(value, Link(rows), sha);
      if ValidReceipt(r, sha) {
        OneMoreRow(f, rows, r, sha);
      }
    }
  }

  lemma FirstIsOne(rows: seq<Receipt>, value: Body, i: nat)
    requires FirstOf(rows, value, i)
    ensures forall j: nat | FirstOf(rows, value, j) :: j == i
  {
  }

  lemma ValidRow(f: ChainFile, rows: seq<Receipt>, i: nat, sha: BodyHash)
    requires Complete(f, rows, sha) && i < |rows|
    ensures rows[i].receiptHash == sha(rows[i].body)
  {
    assert Fits(rows, i, sha);
  }

  lemma OneMoreRow(f: ChainFile, rows: seq<Receipt>, r: Receipt, sha: BodyHash)
    requires Complete(f, rows, sha) && ValidReceipt(r, sha) && r.body.previous == Link(rows)
    ensures Complete(AppendLine(f, r), rows + [r], sha)
  {
    hide ValidReceipt;
    var more := rows + [r];
    forall i: nat | i < |more| ensures Fits(more, i, sha) {
      if i < |rows| {
        assert Fits(rows, i, sha);
      }
    }
  }

  /** A log with a line that is not such a row is not appended to. */
  lemma DamagedLogIsRefused(f: ChainFile, value: Body, sha: BodyHash, k: nat)
    requires k < |f.lines| && f.lines[k] == Torn
    ensures AppendTo(f, value, sha) == (f, Err(Corrupt))
  {
    hide ReadFrom, NonBlank, ValidReceipt;
    ReadChainIsLongest(f, sha);
    TornIsNotBlank(Physical(f), k);
    var rows, lines := ReadChain(f, sha), NonBlank(Physical(f));
    var i :| 0 <= i < |lines| && lines[i] == Torn;
    assert forall j | 0 <= j < |rows| :: lines[j] == Row(rows[j]) && lines[j] != Torn;
  }

  lemma {:induction false} TornIsNotBlank(lines: seq<Line>, k: nat)
    requires k < |lines| && lines[k] == Torn
    ensures Torn in NonBlank(lines)
    decreases k
  {
    if k > 0 {
      TornIsNotBlank(lines[1..], k - 1);
    }
  }
}
