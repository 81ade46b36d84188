/** What makes a publication committed, and which bytes readers get (autoresearch/common/published_state.py), on the
    stored files. */
module CommittedReads {
  import opened Wrappers
  import opened CommitChain
  import opened PublishedState

  /** The reports root that decides about a publication: the one it names, if that is a plain name, or the reader's own
      if it names none. */
  predicate DecidesIn(publication: Publication, reader: Scope, scope: Scope) {
    if publication.scope in {None, Some("")} then scope == reader
    else publication.scope == Some(scope) && (forall i | 0 <= i < |scope| :: scope[i] != '/') && scope != "."
  }

  /** A stored receipt that is valid, is a row of the chain of its root, and is about just this publication. */
  predicate CommitsIt(env: Env, reports: Reports, publication: Publication, scope: Scope, r: Receipt) {
    var rows := ReadChain(if scope in reports.chains then reports.chains[scope] else ChainFile([], Blank), env.bodySha);
    && ReceiptRef(scope, publication.runId, publication.publicationId) in reports.receipts.Keys
    && reports.receipts[ReceiptRef(scope, publication.runId, publication.publicationId)] == r
    && ValidReceipt(r, env.bodySha) && r in rows
    && r.body.engine == publication.engine && r.body.runId == publication.runId
    && r.body.publicationId == publication.publicationId && r.body.bundleHash == publication.bundleHash
  }

  lemma CommittedExactlyWhen(env: Env, reports: Reports, publication: Publication, reader: Scope)
    ensures Committed(env, reports, publication, reader)
            <==> exists scope, r :: DecidesIn(publication, reader, scope)
                                    && CommitsIt(env, reports, publication, scope, r)
  {
    if Committed(env, reports, publication, reader) {
      var scope := ReceiptScope(publication, reader).value;
      assert DecidesIn(publication, reader, scope);
      var r := reports.receipts[ReceiptRef(scope, publication.runId, publication.publicationId)];
      assert CommitsIt(env, reports, publication, scope, r);
    }
    forall scope, r | DecidesIn(publication, reader, scope) && CommitsIt(env, reports, publication, scope, r)
      ensures Committed(env, reports, publication, reader)
    {
      assert ReceiptScope(publication, reader) == Some(scope);
    }
  }

  /** Readers get bytes exactly when the version of the pointer they see is there and has the digest the pointer
      records; a damaged version is not read. */
  lemma ReadExactlyWhenUndamaged(env: Env, d: Disk, target: TargetKey, reader: Scope, bytes: Bytes)
    ensures ReadCommitted(env, d, target, reader) == Some(bytes)
            <==> && CommittedPointer(env, d, target, reader).Some?
                 && var p := CommittedPointer(env, d, target, reader).value;
                    p.version in d.versions && d.versions[p.version] == bytes && env.sha(bytes) == p.afterHash
  {
  }

  /** Where the shown version is gone or damaged, a mutation that advances has nothing to compare with. */
  lemma AdvanceOverDamageIsRefused(env: Env, d: Disk, m: Mutation, payload: Bytes, publication: Publication,
                                   reader: Scope)
    requires env.sha(payload) == m.afterHash && m.policy == AdvanceIfNewer
    requires PointerRef(m.target, publication.runId, publication.publicationId) !in d.pointers
    requires CommittedPointer(env, d, m.target, reader).Some?
    requires var p := CommittedPointer(env, d, m.target, reader).value;
             p.afterHash != m.afterHash && (p.version in d.versions ==> env.sha(d.versions[p.version]) != p.afterHash)
    ensures PlanStage(env, d, m, payload, publication, reader) == Err(CurrentUnreadable)
  {
  }
}
