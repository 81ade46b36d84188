/** What one call of `stage_state_mutation` (autoresearch/common/published_state.py) answers and leaves behind, on the
    stored files: which mutations get through, which are refused, and which find nothing to do. */
module StagingOutcomes {
  import opened Wrappers
  import opened Strings
  import opened CommitChain
  import opened PublishedState
  import opened Staging

  // ---------- what is asked, on the stored files ----------

  /** The hash readers of the target see. */
  function ShownHash(env: Env, d: Disk, target: TargetKey, reader: Scope): Option<Digest> {
    var shown := CommittedPointer(env, d, target, reader);
    if shown.Some? then Some(shown.value.afterHash) else None
  }

  /** The file of the version is not there, or holds the payload. */
  predicate VersionFits(d: Disk, target: TargetKey, digest: Digest, payload: Bytes) {
    VersionRef(target, digest) in d.versions ==> d.versions[VersionRef(target, digest)] == payload
  }

  /** The store after a staging: the head names the publication's pointer, whose predecessor is what the head named
      before, and the version holds the payload. Nothing else has changed. */
  predicate IsStaged(env: Env, d: Disk, d': Disk, m: Mutation, payload: Bytes, publication: Publication) {
    var ref := PointerRef(m.target, publication.runId, publication.publicationId);
    var version := VersionRef(m.target, m.afterHash);
    var pointer := Pointer(
      env.sha(m.target + publication.runId + publication.publicationId + m.afterHash), m.target, m.afterHash, version,
      if m.target in d.heads then Some(d.heads[m.target]) else None, publication);
    && d'.heads == d.heads[m.target := ref]
    && d'.pointers == d.pointers[ref := pointer]
    && d'.versions == d.versions[version := payload]
    && d'.reports == d.reports
  }

  predicate Answers(plan: Result<Plan, StageError>, status: EffectStatus, before: Option<Digest>) {
    plan.Ok? && plan.value.status == status && plan.value.before == before
  }

  /** A mutation that none of the earlier answers is given to: its payload is the one announced, it is not what
      readers see, and its publication has no pointer yet. */
  predicate Undecided(env: Env, d: Disk, m: Mutation, payload: Bytes, publication: Publication, reader: Scope) {
    && env.sha(payload) == m.afterHash
    && PointerRef(m.target, publication.runId, publication.publicationId) !in d.pointers
    && ShownHash(env, d, m.target, reader) != Some(m.afterHash)
    && (ShownHash(env, d, m.target, reader).None? ==> m.expectedBefore != Some(m.afterHash))
  }

  // ---------- what is written ----------

  lemma FreshWritesStage(env: Env, d: Disk, m: Mutation, payload: Bytes, publication: Publication)
    requires VersionFits(d, m.target, m.afterHash, payload)
    ensures IsStaged(env, d, ApplyAll(d, FreshWrites(env, d, m, payload, publication)), m, payload, publication)
  {
    AllFreshWrites(env, d, m, payload, publication);
    var version := VersionRef(m.target, m.afterHash);
    assert version in d.versions ==> d.versions[version := payload] == d.versions;
  }

  // ---------- compare and swap ----------

  /** Over a shown value a mutation that replaces or appends gets through exactly when that value is the one it expects,
      and is a conflict otherwise. */
  lemma CasGetsThroughExactlyWhenExpected(env: Env, d: Disk, m: Mutation, payload: Bytes, publication: Publication,
                                          reader: Scope)
    requires Undecided(env, d, m, payload, publication, reader) && VersionFits(d, m.target, m.afterHash, payload)
    requires m.policy in {CasReplace, IdempotentAppend} && ShownHash(env, d, m.target, reader).Some?
    ensures var plan, shown := PlanStage(env, d, m, payload, publication, reader), ShownHash(env, d, m.target, reader);
            if m.expectedBefore == shown
            then Answers(plan, Applied, shown)
                 && IsStaged(env, d, ApplyAll(d, plan.value.writes), m, payload, publication)
            else plan == Err(MutationConflict)
  {
    FreshWritesStage(env, d, m, payload, publication);
  }

  /** Where nothing is shown there is nothing to compare with: every policy gets through, whatever it expects. */
  lemma NothingShownGetsThrough(env: Env, d: Disk, m: Mutation, payload: Bytes, publication: Publication,
                                reader: Scope)
    requires Undecided(env, d, m, payload, publication, reader) && VersionFits(d, m.target, m.afterHash, payload)
    requires ShownHash(env, d, m.target, reader).None?
    ensures var plan := PlanStage(env, d, m, payload, publication, reader);
            && Answers(plan, Applied, m.expectedBefore)
            && IsStaged(env, d, ApplyAll(d, plan.value.writes), m, payload, publication)
  {
    FreshWritesStage(env, d, m, payload, publication);
  }

  // ---------- advance if newer ----------

  /** The two fields of a payload that is a JSON object, and what stands in for them. */
  function AsOf(env: Env, payload: Bytes): string {
    if env.stamp(payload).Some? then env.stamp(payload).value.asOf else ""
  }

  function SessionRun(env: Env, payload: Bytes, runId: string): string {
    if env.stamp(payload).Some? && env.stamp(payload).value.sessionRunId != ""
    then env.stamp(payload).value.sessionRunId else runId
  }

  /** The offered payload is newer than the shown one: by date, or of one date by run. */
  predicate Newer(env: Env, offered: Bytes, offeredRun: string, shown: Bytes, shownRun: string) {
    || TextBefore(AsOf(env, shown), AsOf(env, offered))
    || (AsOf(env, shown) == AsOf(env, offered)
        && TextBefore(SessionRun(env, shown, shownRun), SessionRun(env, offered, offeredRun)))
  }

  lemma StampLessIsNewer(env: Env, offered: Bytes, offeredRun: string, shown: Bytes, shownRun: string)
    ensures StampLess(Ordering(env, shown, shownRun), Ordering(env, offered, offeredRun))
            <==> Newer(env, offered, offeredRun, shown, shownRun)
  {
    StringLessIsBefore(AsOf(env, shown), AsOf(env, offered));
    StringLessIsBefore(SessionRun(env, shown, shownRun), SessionRun(env, offered, offeredRun));
    StringLessIrreflexive(AsOf(env, shown));
  }

  /** A mutation that advances gets through exactly when its payload is newer than the shown one; otherwise it is
      superseded, and nothing is written. What it expects does not matter. */
  lemma AdvanceGetsThroughExactlyWhenNewer(env: Env, d: Disk, m: Mutation, payload: Bytes, publication: Publication,
                                           reader: Scope)
    requires Undecided(env, d, m, payload, publication, reader) && VersionFits(d, m.target, m.afterHash, payload)
    requires m.policy == AdvanceIfNewer && ReadCommitted(env, d, m.target, reader).Some?
    ensures var plan, shown := PlanStage(env, d, m, payload, publication, reader), ShownHash(env, d, m.target, reader);
            && CommittedPointer(env, d, m.target, reader).Some?
            && var shownRun := CommittedPointer(env, d, m.target, reader).value.publication.runId;
               if Newer(env, payload, publication.runId, ReadCommitted(env, d, m.target, reader).value, shownRun)
               then Answers(plan, Applied, shown)
                    && IsStaged(env, d, ApplyAll(d, plan.value.writes), m, payload, publication)
               else Answers(plan, SupersededByNewer, shown) && ApplyAll(d, plan.value.writes) == d
  {
    hide StampLess, Ordering, FreshWrites, IsStaged, Newer;
    var current := CommittedPointer(env, d, m.target, reader).value;
    StampLessIsNewer(env, payload, publication.runId, ReadCommitted(env, d, m.target, reader).value,
                     current.publication.runId);
    FreshWritesStage(env, d, m, payload, publication);
  }

  // ---------- the other answers ----------

  lemma WrongPayloadIsRefused(env: Env, d: Disk, m: Mutation, payload: Bytes, publication: Publication, reader: Scope)
    requires env.sha(payload) != m.afterHash
    ensures PlanStage(env, d, m, payload, publication, reader) == Err(PayloadMismatch)
  {
  }

  /** What readers see already, or a caller that expects nothing else where nothing is seen, is applied already. */
  lemma SeenIsAlreadyApplied(env: Env, d: Disk, m: Mutation, payload: Bytes, publication: Publication, reader: Scope)
    requires env.sha(payload) == m.afterHash
    requires var shown := ShownHash(env, d, m.target, reader);
             (if shown.Some? then shown else m.expectedBefore) == Some(m.afterHash)
    ensures var plan := PlanStage(env, d, m, payload, publication, reader);
            Answers(plan, AlreadyApplied, Some(m.afterHash)) && ApplyAll(d, plan.value.writes) == d
  {
  }

  /** The pointer the publication left earlier says what this call would say. */
  predicate SaysTheSame(d: Disk, m: Mutation, payload: Bytes, publication: Publication)
    requires PointerRef(m.target, publication.runId, publication.publicationId) in d.pointers
  {
    var p := d.pointers[PointerRef(m.target, publication.runId, publication.publicationId)];
    && p.target == m.target && p.afterHash == m.afterHash && p.publication == publication
    && p.version == VersionRef(m.target, m.afterHash)
    && VersionRef(m.target, m.afterHash) in d.versions
    && d.versions[VersionRef(m.target, m.afterHash)] == payload
  }

  /** A publication that left a pointer earlier gets through exactly when that pointer says the same. Only the head is
      written, whatever the policy, and whatever is expected. */
  lemma RetryGetsThroughExactlyWhenTheSame(env: Env, d: Disk, m: Mutation, payload: Bytes, publication: Publication,
                                           reader: Scope)
    requires env.sha(payload) == m.afterHash
    requires PointerRef(m.target, publication.runId, publication.publicationId) in d.pointers
    requires var shown := ShownHash(env, d, m.target, reader);
             (if shown.Some? then shown else m.expectedBefore) != Some(m.afterHash)
    ensures var plan, shown := PlanStage(env, d, m, payload, publication, reader), ShownHash(env, d, m.target, reader);
            var ref := PointerRef(m.target, publication.runId, publication.publicationId);
            if SaysTheSame(d, m, payload, publication)
            then Answers(plan, Applied, if shown.Some? then shown else m.expectedBefore)
                 && ApplyAll(d, plan.value.writes) == d.(heads := d.heads[m.target := ref])
            else plan == Err(PointerConflict)
  {
    ApplyOne(d, WriteHead(m.target, RefOf(m.target, publication)));
  }

  /** Another payload in the version file stops a mutation that would get through otherwise. */
  lemma CollisionIsRefused(env: Env, d: Disk, m: Mutation, payload: Bytes, publication: Publication, reader: Scope)
    requires Undecided(env, d, m, payload, publication, reader) && !VersionFits(d, m.target, m.afterHash, payload)
    requires m.policy in {CasReplace, IdempotentAppend}
    requires ShownHash(env, d, m.target, reader) in {None, m.expectedBefore}
    ensures PlanStage(env, d, m, payload, publication, reader) == Err(VersionCollision)
  {
  }
}
