/** The text of a receipt row, member by member (autoresearch/contracts/publication.py, autoresearch/common/atomic.py),
    and the lines of a text. */
module CanonicalRows {
  import opened Wrappers
  import opened CommitChain
  import opened ChainJson
  import opened ChainText

  /** Text that needs no escaping. */
  predicate Plain(s: string) { forall i | 0 <= i < |s| :: PlainChar(s[i]) }

  predicate PlainChar(c: char) { 0x20 <= c as int && c != '"' && c != '\\' }

  lemma {:induction false} PlainIsQuoted(s: string)
    requires Plain(s)
    ensures Quote(s) == InQuotes(s)
    decreases |s|
  {
    PlainIsItself(s);
  }

  lemma {:induction false} PlainIsItself(s: string)
    requires Plain(s)
    ensures Escape(s) == s
    decreases |s|
  {
    if s != "" {
      PlainIsItself(s[1..]);
      assert EscapeChar(s[0]) == [s[0]] && s == [s[0]] + s[1..];
    }
  }

  /** A text that needs no escaping, in quotes, and a member with such a key. */
  function InQuotes(s: string): string { "\"" + s + "\"" }

  function Named(key: string, value: string): string { InQuotes(key) + ":" + value }

  function OrNull(s: Option<string>): string { if s.Some? then Quote(s.value) else "null" }

  function Status(status: EffectStatus): string {
    match status
    case Applied => InQuotes("APPLIED")
    case AlreadyApplied => InQuotes("ALREADY_APPLIED")
    case SupersededByNewer => InQuotes("SUPERSEDED_BY_NEWER")
    case Conflict => InQuotes("CONFLICT")
  }

  function EffectText(e: StateEffect): string {
    ['{'] + Commas([Named("after_hash", Quote(e.after)), Named("before_hash", OrNull(e.before)),
                    Named("status", Status(e.status)), Named("target_key", Quote(e.target))]) + ['}']
  }

  lemma KeyIs(key: string, value: string)
    requires Plain(key)
    ensures PrintMember(key, value) == Named(key, value)
  {
    PlainIsQuoted(key);
  }

  lemma StatusIs(status: EffectStatus)
    ensures Quote(StatusText(status)) == Status(status)
  {
    hide InQuotes, Quote;
    PlainIsQuoted("APPLIED");
    PlainIsQuoted("ALREADY_APPLIED");
    PlainIsQuoted("SUPERSEDED_BY_NEWER");
    PlainIsQuoted("CONFLICT");
  }

  lemma FieldIs(fields: seq<Field>, i: nat, key: string, value: string)
    requires i < |fields| && fields[i].key == key && PrintValue(fields[i].value) == value
    requires Plain(key)
    ensures PrintFields(fields)[i] == Named(key, value)
  {
    KeyIs(key, value);
  }

  lemma EffectIs(e: StateEffect)
    ensures PrintObject(PrintFields(EffectFields(e))) == EffectText(e)
  {
    hide PrintMember, Quote, Commas, Named, InQuotes;
    var fields := EffectFields(e);
    StatusIs(e.status);
    FieldIs(fields, 0, "after_hash", Quote(e.after));
    FieldIs(fields, 1, "before_hash", OrNull(e.before));
    FieldIs(fields, 2, "status", Status(e.status));
    FieldIs(fields, 3, "target_key", Quote(e.target));
    assert PrintFields(fields)
        == [Named("after_hash", Quote(e.after)), Named("before_hash", OrNull(e.before)),
            Named("status", Status(e.status)), Named("target_key", Quote(e.target))];
  }

  /** The members of a row: names, hashes and times as they are, no link as `null`, the version 1, and the effects, each
      an object of its own. */
  function RowMembers(r: Receipt): seq<string> {
    [Named("bundle_hash", Quote(r.body.bundleHash)), Named("canonical_path", Quote(r.body.canonicalPath)),
     Named("capsule_root_hash", Quote(r.body.capsuleRootHash)), Named("committed_at", Quote(r.body.committedAt)),
     Named("engine", Quote(r.body.engine)), Named("previous_receipt_hash", OrNull(r.body.previous)),
     Named("publication_id", Quote(r.body.publicationId)), Named("receipt_hash", Quote(r.receiptHash)),
     Named("run_id", Quote(r.body.runId)), Named("schema_version", "1")]
  }

  lemma KeysArePlain()
    ensures Plain("bundle_hash") && Plain("canonical_path") && Plain("capsule_root_hash") && Plain("committed_at")
  {
  }

  lemma MoreKeysArePlain()
    ensures Plain("engine") && Plain("previous_receipt_hash") && Plain("publication_id") && Plain("receipt_hash")
    ensures Plain("run_id") && Plain("schema_version")
  {
  }

  lemma MembersAre(r: Receipt)
    ensures PrintFields(ReceiptFields(r)) == RowMembers(r)
  {
    hide PrintMember, Quote, Named, InQuotes, Plain;
    KeysArePlain();
    MoreKeysArePlain();
    var fields := ReceiptFields(r);
    FieldIs(fields, 0, "bundle_hash", Quote(r.body.bundleHash));
    FieldIs(fields, 1, "canonical_path", Quote(r.body.canonicalPath));
    FieldIs(fields, 2, "capsule_root_hash", Quote(r.body.capsuleRootHash));
    FieldIs(fields, 3, "committed_at", Quote(r.body.committedAt));
    FieldIs(fields, 4, "engine", Quote(r.body.engine));
    FieldIs(fields, 5, "previous_receipt_hash", OrNull(r.body.previous));
    FieldIs(fields, 6, "publication_id", Quote(r.body.publicationId));
    FieldIs(fields, 7, "receipt_hash", Quote(r.receiptHash));
    FieldIs(fields, 8, "run_id", Quote(r.body.runId));
    FieldIs(fields, 9, "schema_version", "1");
  }

  lemma RowIs(r: Receipt)
    ensures Print(r)
         == ['{']
            + Commas(RowMembers(r) + [Named("state_effects", ['['] + Commas(EffectTexts(r.body.effects)) + [']'])])
            + ['}']
  {
    hide PrintMember, Quote, Commas, RowMembers, ReceiptFields, EffectText, Named, InQuotes;
    var objects := EffectObjects(r.body.effects);
    forall i | 0 <= i < |objects| ensures PrintObjects(objects)[i] == EffectTexts(r.body.effects)[i] {
      EffectIs(r.body.effects[i]);
    }
    assert PrintObjects(objects) == EffectTexts(r.body.effects);
    MembersAre(r);
    KeyIs("state_effects", PrintList(objects));
  }

  function EffectTexts(effects: seq<StateEffect>): (texts: seq<string>)
    ensures |texts| == |effects|
  {
    seq(|effects|, i requires 0 <= i < |effects| => EffectText(effects[i]))
  }

  // ---------- lines ----------

  /** What `splitlines` takes for the end of a line: a carriage return with a newline, or one of these characters. */
  predicate LineEnd(s: string) {
    || s == "\r\n"
    || (|s| == 1 && (0xa <= s[0] as int <= 0xd || 0x1c <= s[0] as int <= 0x1e || s[0] as int == 0x85
                     || 0x2028 <= s[0] as int <= 0x2029))
  }

  predicate OneLine(s: string) { forall i | 0 <= i < |s| :: !LineEnd([s[i]]) }

  /** Pieces with a line end between each two. */
  function Woven(pieces: seq<string>, ends: seq<string>): string
    requires |pieces| == |ends| + 1
    decreases |ends|
  {
    if ends == [] then pieces[0] else pieces[0] + ends[0] + Woven(pieces[1..], ends[1..])
  }

  lemma EndsAreLineEnds(c: char)
    ensures EndsLine(c) <==> LineEnd([c])
  {
  }

  /** The pieces of a text have no line end in them, and make up the text with line ends in between. */
  lemma {:induction false} PiecesAreLines(text: string) returns (ends: seq<string>)
    ensures |Pieces(text)| == |ends| + 1 && (forall piece | piece in Pieces(text) :: OneLine(piece))
    ensures (forall end | end in ends :: LineEnd(end)) && Woven(Pieces(text), ends) == text
    decreases |text|
  {
    hide LineEnd, EndsLine;
    if text == "" {
      ends := [];
    } else {
      EndsAreLineEnds(text[0]);
      if EndsLine(text[0]) {
        var n := Boundary(text);
        var rest := PiecesAreLines(text[n..]);
        ends := [text[..n]] + rest;
        BoundaryIsAnEnd(text);
        assert Pieces(text)[1..] == Pieces(text[n..]) && ends[1..] == rest;
        assert text == "" + text[..n] + text[n..];
      } else {
        ends := PiecesAreLines(text[1..]);
        var pieces := Pieces(text[1..]);
        assert Pieces(text)[1..] == pieces[1..] && Pieces(text)[0] == [text[0]] + pieces[0];
        FirstGrows(text[0], pieces, ends);
        assert pieces[0] in pieces;
      }
    }
  }

  lemma BoundaryIsAnEnd(text: string)
    requires text != "" && EndsLine(text[0])
    ensures LineEnd(text[..Boundary(text)])
  {
    EndsAreLineEnds(text[0]);
    if Boundary(text) == 2 {
      assert text[..2] == [text[0], text[1]];
    } else {
      assert text[..1] == [text[0]];
    }
  }

  lemma FirstGrows(c: char, pieces: seq<string>, ends: seq<string>)
    requires |pieces| == |ends| + 1
    ensures Woven([[c] + pieces[0]] + pieces[1..], ends) == [c] + Woven(pieces, ends)
  {
    var more := [[c] + pieces[0]] + pieces[1..];
    assert more[1..] == pieces[1..];
    if ends != [] {
      assert [c] + pieces[0] + ends[0] + Woven(pieces[1..], ends[1..])
          == [c] + (pieces[0] + ends[0] + Woven(pieces[1..], ends[1..]));
    }
  }
}
