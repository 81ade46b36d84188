/** What one publication receipt makes visible. */
module Committing {
  import opened Wrappers
  import opened CommitChain
  import opened PublishedState
  import opened StoreInvariant
  import opened Staging

  /** The receipt chain of a root, then its receipt file, as `execute_publication` writes them. */
  function AppendReceipt(env: Env, reports: Reports, scope: Scope, value: Body)
    : (Reports, Result<Receipt, AppendError>)
  {
    var (file, answer) := AppendTo(ChainAt(reports, scope), value, env.bodySha);
    (reports.(chains := reports.chains[scope := file]), answer)
  }

  function WriteReceipt(reports: Reports, scope: Scope, r: Receipt): Reports {
    reports.(receipts := reports.receipts[ReceiptRef(scope, r.body.runId, r.body.publicationId) := r])
  }

  predicate ReceiptOk(env: Env, reports: Reports, key: ReceiptRef)
    requires key in reports.receipts
  {
    var r := reports.receipts[key];
    && r.body.runId == key.runId && r.body.publicationId == key.publicationId
    && r in ReadChain(ChainAt(reports, key.scope), env.bodySha)
  }

  /** Chains are sound, and every receipt file is a row of its chain. */
  ghost predicate ReportsInv(env: Env, reports: Reports) {
    && (forall s | s in reports.chains :: Sound(reports.chains[s], env.bodySha))
    && (forall key | key in reports.receipts :: ReceiptOk(env, reports, key))
  }

  lemma EmptyFileIsSound(sha: BodyHash)
    ensures Sound(EMPTY_FILE, sha) && ReadChain(EMPTY_FILE, sha) == []
  {
    assert Physical(EMPTY_FILE) == [Blank] && [Blank][1..] == [];
    assert ReadFrom([], None, sha) == [] && NonBlank([]) == [];
    assert ReadFrom([Blank], None, sha) == ReadFrom([], None, sha);
  }

  /** A successful append leaves the root's chain sound, keeps its rows, and stores the answer. */
  lemma AppendStores(f: ChainFile, value: Body, sha: BodyHash)
    requires Sound(f, sha) && AppendTo(f, value, sha).1.Ok?
    ensures var (g, answer) := AppendTo(f, value, sha);
            && Sound(g, sha)
            && ReadChain(f, sha) <= ReadChain(g, sha)
            && answer.value in ReadChain(g, sha)
            && ValidReceipt(answer.value, sha)
            && answer.value.body == value.(previous := answer.value.body.previous)
  {
    var (g, answer) := AppendTo(f, value, sha);
    AppendKeepsSound(f, value, sha);
    TornTailIsReadableAndRefused(f, value, sha);
    assert f.(tail := Blank) == f;
    var rows := ReadChain(f, sha);
    var i := FindIdentity(rows, value);
    if i < |rows| {
      ReadChainIsLongest(f, sha);
      assert LinkedAt(None, rows, i, sha);
    } else {
      AppendLineEffect(f, Seal(value, Link(rows), sha), sha);
      assert ReadChain(g, sha)[|rows|] == answer.value;
    }
  }

  lemma RootIsSound(env: Env, reports: Reports, scope: Scope)
    requires ReportsInv(env, reports)
    ensures Sound(ChainAt(reports, scope), env.bodySha)
  {
    EmptyFileIsSound(env.bodySha);
  }

  /** Appending to the chain alone commits nothing and uncommits nothing. */
  lemma AppendReceiptIsInvisible(env: Env, reports: Reports, scope: Scope, value: Body, publication: Publication,
                                 reader: Scope)
    requires ReportsInv(env, reports) && AppendReceipt(env, reports, scope, value).1.Ok?
    ensures var (reports', answer) := AppendReceipt(env, reports, scope, value);
            && ReportsInv(env, reports')
            && Committed(env, reports', publication, reader) == Committed(env, reports, publication, reader)
  {
    hide ReadChain;
    var (reports', answer) := AppendReceipt(env, reports, scope, value);
    RootIsSound(env, reports, scope);
    AppendStores(ChainAt(reports, scope), value, env.bodySha);
    forall key | key in reports'.receipts ensures ReceiptOk(env, reports', key) {
      assert ReceiptOk(env, reports, key);
    }
    var root := ReceiptScope(publication, reader);
    if root.Some? {
      var key := ReceiptRef(root.value, publication.runId, publication.publicationId);
      if key in reports.receipts {
        assert ReceiptOk(env, reports, key) && ReceiptOk(env, reports', key);
      }
    }
  }

  /** The publication a receipt is about, seen by a reader. */
  predicate Names(r: Receipt, scope: Scope, publication: Publication, reader: Scope) {
    && ReceiptScope(publication, reader) == Some(scope)
    && r.body.engine == publication.engine && r.body.runId == publication.runId
    && r.body.publicationId == publication.publicationId && r.body.bundleHash == publication.bundleHash
  }

  /** Writing the receipt file of a chain row commits exactly the publication it names. */
  lemma WriteReceiptCommits(env: Env, reports: Reports, scope: Scope, r: Receipt, publication: Publication,
                            reader: Scope)
    requires ReportsInv(env, reports)
    requires r in ReadChain(ChainAt(reports, scope), env.bodySha) && ValidReceipt(r, env.bodySha)
    requires ReceiptRef(scope, r.body.runId, r.body.publicationId) !in reports.receipts
    ensures ReportsInv(env, WriteReceipt(reports, scope, r))
    ensures Committed(env, WriteReceipt(reports, scope, r), publication, reader)
            <==> Names(r, scope, publication, reader) || Committed(env, reports, publication, reader)
  {
    var reports' := WriteReceipt(reports, scope, r);
    forall key | key in reports'.receipts ensures ReceiptOk(env, reports', key) {
      if key in reports.receipts {
        assert ReceiptOk(env, reports, key);
      }
    }
  }

  function CommitReports(env: Env, reports: Reports, scope: Scope, value: Body): Reports {
    var (reports', answer) := AppendReceipt(env, reports, scope, value);
    if answer.Ok? then WriteReceipt(reports', scope, answer.value) else reports'
  }

  lemma CommitEffect(env: Env, reports: Reports, scope: Scope, value: Body, publication: Publication, reader: Scope)
    requires ReportsInv(env, reports) && AppendReceipt(env, reports, scope, value).1.Ok?
    requires ReceiptRef(scope, value.runId, value.publicationId) !in reports.receipts
    ensures var r := AppendReceipt(env, reports, scope, value).1.value;
            && r.body == value.(previous := r.body.previous)
            && ReportsInv(env, CommitReports(env, reports, scope, value))
            && (Committed(env, CommitReports(env, reports, scope, value), publication, reader)
                <==> Names(r, scope, publication, reader) || Committed(env, reports, publication, reader))
  {
    var (reports', answer) := AppendReceipt(env, reports, scope, value);
    RootIsSound(env, reports, scope);
    AppendStores(ChainAt(reports, scope), value, env.bodySha);
    AppendReceiptIsInvisible(env, reports, scope, value, publication, reader);
    WriteReceiptCommits(env, reports', scope, answer.value, publication, reader);
  }

  lemma ReportsKeepInv(env: Env, d: Disk, rank: Rank, reports: Reports)
    requires Inv(env, d, rank)
    ensures Inv(env, d.(reports := reports), rank)
  {
    var d' := d.(reports := reports);
    assert forall r | r in d.pointers :: PredecessorOk(d, rank, r);
    forall r | r in d'.pointers ensures PredecessorOk(d', rank, r) {
      assert PredecessorOk(d, rank, r);
    }
    forall t | t in d'.heads ensures HeadOk(d', t) {
      assert HeadOk(d, t);
    }
  }

  /** One receipt commits everything. The chain row alone changes no answer. The receipt file then
      shows, for every target whose head is a pointer of the publication, that pointer and the
      staged bytes; every target the publication did not stage answers as before. */
  lemma OneReceiptCommitsEverything(env: Env, d: Disk, rank: Rank, scope: Scope, value: Body,
                                    target: TargetKey, reader: Scope)
    requires Hashes(env) && Inv(env, d, rank) && ReportsInv(env, d.reports)
    requires AppendReceipt(env, d.reports, scope, value).1.Ok?
    requires ReceiptRef(scope, value.runId, value.publicationId) !in d.reports.receipts
    ensures SameAnswers(env, d, d.(reports := AppendReceipt(env, d.reports, scope, value).0), target, reader)
    ensures var r := AppendReceipt(env, d.reports, scope, value).1.value;
            var d' := d.(reports := CommitReports(env, d.reports, scope, value));
            var ref := PointerRef(target, value.runId, value.publicationId);
            && Inv(env, d', rank) && ReportsInv(env, d'.reports)
            && (HeadRef(d, target) == Some(ref) && ref in d.pointers
                && Names(r, scope, d.pointers[ref].publication, reader) ==>
                  && CommittedPointer(env, d', target, reader) == Some(d.pointers[ref])
                  && d.pointers[ref].version in d.versions
                  && ReadCommitted(env, d', target, reader) == Some(d.versions[d.pointers[ref].version]))
            && (ref !in d.pointers ==> SameAnswers(env, d, d', target, reader))
  {
    hide Inv;
    var (reports1, answer) := AppendReceipt(env, d.reports, scope, value);
    var reports2 := CommitReports(env, d.reports, scope, value);
    var d1, d2 := d.(reports := reports1), d.(reports := reports2);
    forall p: Publication ensures Committed(env, reports1, p, reader) == Committed(env, d.reports, p, reader) {
      AppendReceiptIsInvisible(env, d.reports, scope, value, p, reader);
    }
    ChangedReports(env, d, rank, reports1, target, reader);
    forall p: Publication
      ensures Committed(env, reports2, p, reader)
              <==> Names(answer.value, scope, p, reader) || Committed(env, d.reports, p, reader)
    {
      CommitEffect(env, d.reports, scope, value, p, reader);
    }
    CommitEffect(env, d.reports, scope, value, Publication("", "", "", "", None), reader);
    ReportsKeepInv(env, d, rank, reports2);
    var ref := PointerRef(target, value.runId, value.publicationId);
    if ref !in d.pointers {
      forall r | r in d.pointers && r.target == target
        ensures Committed(env, reports2, d.pointers[r].publication, reader)
                == Committed(env, d.reports, d.pointers[r].publication, reader)
      {
        assert PointerOk(env, d.versions, r, d.pointers[r]);
      }
      ChangedReports(env, d, rank, reports2, target, reader);
    } else if HeadRef(d, target) == Some(ref) && Names(answer.value, scope, d.pointers[ref].publication, reader) {
      ReaderSeesFirstCommitted(env, d2, rank, target, reader);
      CommittedBytesAreReadable(env, d2, rank, target, reader);
    }
  }

  lemma ChangedReports(env: Env, d: Disk, rank: Rank, reports: Reports, target: TargetKey, reader: Scope)
    requires Hashes(env) && Inv(env, d, rank)
    requires forall r | r in d.pointers && r.target == target ::
               Committed(env, reports, d.pointers[r].publication, reader)
               == Committed(env, d.reports, d.pointers[r].publication, reader)
    ensures SameAnswers(env, d, d.(reports := reports), target, reader)
  {
    var d' := d.(reports := reports);
    ReportsKeepInv(env, d, rank, reports);
    ReaderSeesFirstCommitted(env, d, rank, target, reader);
    ReaderSeesFirstCommitted(env, d', rank, target, reader);
    FirstCommittedFrame(env, d, rank, d', rank, HeadRef(d, target), reader);
    SameBytes(env, d, rank, d', target, reader);
  }

  /** Staging again once the publication is committed and still shown writes nothing. */
  lemma RetryAfterCommit(env: Env, d: Disk, rank: Rank, m: Mutation, payload: Bytes, publication: Publication,
                         scope: Scope, value: Body)
    requires Hashes(env) && Inv(env, d, rank) && ReportsInv(env, d.reports)
    requires AppendReceipt(env, d.reports, scope, value).1.Ok?
    requires ReceiptRef(scope, value.runId, value.publicationId) !in d.reports.receipts
    requires Names(AppendReceipt(env, d.reports, scope, value).1.value, scope, publication, scope)
    requires env.sha(payload) == m.afterHash
    requires var ref := RefOf(m.target, publication);
             HeadRef(d, m.target) == Some(ref) && ref in d.pointers
             && SamePending(d, d.pointers[ref], m, payload, publication)
    ensures var d' := d.(reports := CommitReports(env, d.reports, scope, value));
            PlanStage(env, d', m, payload, publication, scope) == Ok(Plan(AlreadyApplied, Some(m.afterHash), []))
            && ReadCommitted(env, d', m.target, scope) == Some(payload)
  {
    CommitEffect(env, d.reports, scope, value, publication, scope);
    OneReceiptCommitsEverything(env, d, rank, scope, value, m.target, scope);
  }
}
