/** The retry that moves a head back to a pending pointer. */
module RetryHead {
  import opened Wrappers
  import opened CommitChain
  import opened PublishedState
  import opened StoreInvariant
  import opened Staging
  import opened Committing

  /** `to` is `from` or one of its predecessors. */
  ghost predicate Descends(d: Disk, rank: Rank, from: Option<PointerRef>, to: PointerRef)
    requires Linked(d, rank)
    requires from.Some? ==> from.value in d.pointers
    decreases if from.None? then 0 else rank[from.value] + 1
  {
    from.Some? &&
    (from.value == to || (assert PredecessorOk(d, rank, from.value);
                          Descends(d, rank, d.pointers[from.value].predecessor, to)))
  }

  /** No committed pointer of the target has fallen off the head's predecessor path. */
  ghost predicate NothingLost(env: Env, d: Disk, rank: Rank, target: TargetKey, reader: Scope)
    requires Linked(d, rank)
    requires target in d.heads ==> d.heads[target] in d.pointers
  {
    forall r | r in d.pointers && r.target == target && Committed(env, d.reports, d.pointers[r].publication, reader) ::
      Descends(d, rank, HeadRef(d, target), r)
  }

  lemma {:induction false} FirstCommittedDescends(env: Env, d: Disk, rank: Rank, from: Option<PointerRef>,
                                                  target: TargetKey,
                                                  to: PointerRef, reader: Scope)
    requires Inv(env, d, rank)
    requires from.Some? ==> from.value in d.pointers && from.value.target == target
    ensures var c := FirstCommitted(env, d, rank, from, reader);
            && (c.Some? ==> Descends(d, rank, from, RefOf(target, c.value.publication)))
            && (Descends(d, rank, from, to) && to in d.pointers
                && Committed(env, d.reports, d.pointers[to].publication, reader)
                ==> c.Some? && RefOf(target, c.value.publication) in d.pointers
                    && Descends(d, rank, Some(RefOf(target, c.value.publication)), to))
    decreases if from.None? then 0 else rank[from.value] + 1
  {
    hide ValidReceipt;
    if from.Some? {
      assert PredecessorOk(d, rank, from.value);
      assert PointerOk(env, d.versions, from.value, d.pointers[from.value]);
      FirstCommittedDescends(env, d, rank, d.pointers[from.value].predecessor, target, to, reader);
    }
  }

  lemma {:induction false} DescendsIsOlder(d: Disk, rank: Rank, from: PointerRef, to: PointerRef)
    requires Linked(d, rank) && from in d.pointers && Descends(d, rank, Some(from), to)
    ensures to in d.pointers && rank[to] <= rank[from] && (rank[to] == rank[from] ==> to == from)
    decreases rank[from]
  {
    assert PredecessorOk(d, rank, from);
    if from != to {
      DescendsIsOlder(d, rank, d.pointers[from].predecessor.value, to);
    }
  }

  /** A retry puts the head back on the publication's own pointer without looking at what was
      committed in between. Readers of a store that has lost nothing keep their answers exactly
      when the pointer they see now, if any, is a predecessor of the retried one. */
  lemma RetryIsInvisibleExactlyWhenCurrentIsOlder(env: Env, d: Disk, rank: Rank, ref: PointerRef, other: TargetKey,
                                                     reader: Scope)
    requires Hashes(env) && Inv(env, d, rank)
    requires ref in d.pointers
    requires ref.target in d.heads ==> HeadOk(d, ref.target)
    requires NothingLost(env, d, rank, ref.target, reader)
    ensures var d' := ApplyWrite(d, WriteHead(ref.target, ref));
            var current := CommittedPointer(env, d, ref.target, reader);
            && (other != ref.target ==> SameAnswers(env, d, d', other, reader))
            && (SameAnswers(env, d, d', ref.target, reader)
                <==> (current.Some? ==> Descends(d, rank, Some(ref), RefOf(ref.target, current.value.publication))))
  {
    hide Inv;
    var t := ref.target;
    var d' := ApplyWrite(d, WriteHead(t, ref));
    OtherTargetKeepsItsAnswer(env, d, rank, ref, other, reader);
    HeadMoves(env, d, rank, ref, t, reader);
    ReaderSeesFirstCommitted(env, d, rank, t, reader);
    NearestCommitted(env, d, rank, ref, reader);
    SamePointerSameAnswers(env, d, rank, d', t, reader);
  }

  lemma SamePointerSameAnswers(env: Env, d: Disk, rank: Rank, d': Disk, t: TargetKey, reader: Scope)
    requires Hashes(env) && Inv(env, d, rank) && d'.versions == d.versions
    ensures CommittedPointer(env, d', t, reader) == CommittedPointer(env, d, t, reader)
            <==> SameAnswers(env, d, d', t, reader)
  {
    if CommittedPointer(env, d', t, reader) == CommittedPointer(env, d, t, reader) {
      SameBytes(env, d, rank, d', t, reader);
    }
  }

  lemma OtherTargetKeepsItsAnswer(env: Env, d: Disk, rank: Rank, ref: PointerRef, other: TargetKey, reader: Scope)
    requires Hashes(env) && Inv(env, d, rank) && ref in d.pointers
    ensures other != ref.target ==> SameAnswers(env, d, ApplyWrite(d, WriteHead(ref.target, ref)), other, reader)
  {
    hide Inv;
    var d' := ApplyWrite(d, WriteHead(ref.target, ref));
    assert d'.versions == d.versions;
    if other != ref.target {
      HeadMoves(env, d, rank, ref, other, reader);
      SameBytes(env, d, rank, d', other, reader);
    }
  }

  lemma NearestCommitted(env: Env, d: Disk, rank: Rank, ref: PointerRef, reader: Scope)
    requires Inv(env, d, rank)
    requires ref in d.pointers
    requires ref.target in d.heads ==> HeadOk(d, ref.target)
    requires NothingLost(env, d, rank, ref.target, reader)
    ensures var current := FirstCommitted(env, d, rank, HeadRef(d, ref.target), reader);
            FirstCommitted(env, d, rank, Some(ref), reader) == current
            <==> (current.Some? ==> Descends(d, rank, Some(ref), RefOf(ref.target, current.value.publication)))
  {
    var t := ref.target;
    var current := FirstCommitted(env, d, rank, HeadRef(d, t), reader);
    var after := FirstCommitted(env, d, rank, Some(ref), reader);
    FirstCommittedIsStored(env, d, rank, Some(ref), t, reader);
    FirstCommittedIsStored(env, d, rank, HeadRef(d, t), t, reader);
    FirstCommittedDescends(env, d, rank, Some(ref), t, ref, reader);
    if after.Some? {
      var a := RefOf(t, after.value.publication);
      assert Descends(d, rank, HeadRef(d, t), a);
      FirstCommittedDescends(env, d, rank, HeadRef(d, t), t, a, reader);
      var c := RefOf(t, current.value.publication);
      if Descends(d, rank, Some(ref), c) {
        FirstCommittedDescends(env, d, rank, Some(ref), t, c, reader);
        DescendsIsOlder(d, rank, a, c);
        DescendsIsOlder(d, rank, c, a);
      }
    } else if current.Some? {
      FirstCommittedDescends(env, d, rank, Some(ref), t, RefOf(t, current.value.publication), reader);
    }
  }

  const EMPTY_DISK := Disk(map[], map[], map[], Reports(map[], map[]))

  lemma EmptyDiskIsOk(env: Env)
    ensures Inv(env, EMPTY_DISK, map[]) && ReportsInv(env, EMPTY_DISK.reports)
  {
  }

  /** A first staging of a target that shows nothing: the head is the new pointer over the old head. */
  lemma FirstStaging(env: Env, d: Disk, rank: Rank, m: Mutation, payload: Bytes, publication: Publication, scope: Scope)
    requires Hashes(env) && Inv(env, d, rank)
    requires env.sha(payload) == m.afterHash && Request(env, m, publication) && m.expectedBefore != Some(m.afterHash)
    requires RefOf(m.target, publication) !in d.pointers && VersionRef(m.target, m.afterHash) !in d.versions
    requires CommittedPointer(env, d, m.target, scope) == None && !Committed(env, d.reports, publication, scope)
    ensures var plan := PlanStage(env, d, m, payload, publication, scope);
            plan.Ok? &&
            var d' := ApplyAll(d, plan.value.writes);
            var ref := RefOf(m.target, publication);
            && Inv(env, d', RankWith(rank, d', ref))
            && d' == Disk(d.heads[m.target := ref],
                          d.pointers[ref := NewPointer(env, m.target, m.afterHash, HeadRef(d, m.target), publication)],
                          d.versions[VersionRef(m.target, m.afterHash) := payload],
                          d.reports)
            && CommittedPointer(env, d', m.target, scope) == None
            && |plan.value.writes| == 3
  {
    hide Inv;
    var writes := FreshWrites(env, d, m, payload, publication);
    FirstPlan(env, d, m, payload, publication, scope);
    AllFreshWrites(env, d, m, payload, publication);
    StagingIsInvisible(env, d, rank, m, payload, publication, scope, |writes|, m.target, scope);
    assert writes[..|writes|] == writes;
  }

  lemma FirstPlan(env: Env, d: Disk, m: Mutation, payload: Bytes, publication: Publication, scope: Scope)
    requires env.sha(payload) == m.afterHash && m.expectedBefore != Some(m.afterHash)
    requires RefOf(m.target, publication) !in d.pointers && VersionRef(m.target, m.afterHash) !in d.versions
    requires CommittedPointer(env, d, m.target, scope) == None
    ensures PlanStage(env, d, m, payload, publication, scope)
         == Ok(Plan(Applied, m.expectedBefore, FreshWrites(env, d, m, payload, publication)))
  {
  }

  /** Moving the head to an uncommitted pointer without a predecessor hides everything. */
  lemma HeadWithoutPast(env: Env, d: Disk, rank: Rank, ref: PointerRef, scope: Scope)
    requires Hashes(env) && Inv(env, d, rank)
    requires ref in d.pointers && d.pointers[ref].predecessor == None
    requires !Committed(env, d.reports, d.pointers[ref].publication, scope)
    ensures ReadCommitted(env, ApplyWrite(d, WriteHead(ref.target, ref)), ref.target, scope) == None
  {
    HeadMoves(env, d, rank, ref, ref.target, scope);
  }

  /** A publication that staged a target and died before its receipt, retried after another
      publication staged and committed the same target: the retry is accepted whatever hash the
      mutation expected, and readers lose the committed value. */
  lemma CrashedRetryHidesACommit(env: Env, m1: Mutation, payload1: Bytes, p1: Publication,
                                 m2: Mutation, payload2: Bytes, p2: Publication, scope: Scope, value: Body)
    requires Hashes(env)
    requires env.sha(payload1) == m1.afterHash && Request(env, m1, p1) && m1.expectedBefore != Some(m1.afterHash)
    requires env.sha(payload2) == m2.afterHash && Request(env, m2, p2) && m2.expectedBefore != Some(m2.afterHash)
    requires m1.target == m2.target && m1.afterHash != m2.afterHash
    requires RefOf(m1.target, p1) != RefOf(m1.target, p2)
    requires p1.scope == p2.scope == Some(scope) && scope != "" && SimpleName(scope)
    requires value.engine == p2.engine && value.runId == p2.runId && value.publicationId == p2.publicationId
    requires value.bundleHash == p2.bundleHash
    requires ValidReceipt(Seal(value, None, env.bodySha), env.bodySha)
    ensures var t := m1.target;
            var plan1 := PlanStage(env, EMPTY_DISK, m1, payload1, p1, scope);
            plan1.Ok? &&
            var d1 := ApplyAll(EMPTY_DISK, plan1.value.writes);
            var plan2 := PlanStage(env, d1, m2, payload2, p2, scope);
            plan2.Ok? &&
            var d2 := ApplyAll(d1, plan2.value.writes);
            var d3 := d2.(reports := CommitReports(env, d2.reports, scope, value));
            var plan3 := PlanStage(env, d3, m1, payload1, p1, scope);
            plan3.Ok? &&
            var d4 := ApplyAll(d3, plan3.value.writes);
            && ReadCommitted(env, d3, t, scope) == Some(payload2)
            && plan3.value.status == Applied
            && ReadCommitted(env, d4, t, scope) == None
  {
    hide Inv;
    var rank := TwoStagings(env, m1, payload1, p1, m2, payload2, p2, scope);
    var d1 := ApplyAll(EMPTY_DISK, PlanStage(env, EMPTY_DISK, m1, payload1, p1, scope).value.writes);
    var d2 := ApplyAll(d1, PlanStage(env, d1, m2, payload2, p2, scope).value.writes);
    EmptyFileIsSound(env.bodySha);
    assert NonBlank(Physical(EMPTY_FILE)) == [];
    SecondCommits(env, d2, rank, m1, payload1, p1, m2, p2, scope, value);
    var d3 := d2.(reports := CommitReports(env, d2.reports, scope, value));
    ApplyOne(d3, WriteHead(m1.target, RefOf(m1.target, p1)));
    HeadWithoutPast(env, d3, rank, RefOf(m1.target, p1), scope);
  }

  /** The other way round: the second publication staged the target over the first and died before its receipt, the
      retry of the first puts the head back, and the second, which need not stage again, commits. It is committed,
      and no reader sees it. */
  lemma CommitAfterARetryIsNotSeen(env: Env, m1: Mutation, payload1: Bytes, p1: Publication,
                                   m2: Mutation, payload2: Bytes, p2: Publication, scope: Scope, value: Body)
    requires Hashes(env)
    requires env.sha(payload1) == m1.afterHash && Request(env, m1, p1) && m1.expectedBefore != Some(m1.afterHash)
    requires env.sha(payload2) == m2.afterHash && Request(env, m2, p2) && m2.expectedBefore != Some(m2.afterHash)
    requires m1.target == m2.target && m1.afterHash != m2.afterHash
    requires RefOf(m1.target, p1) != RefOf(m1.target, p2)
    requires p1.scope == p2.scope == Some(scope) && scope != "" && SimpleName(scope)
    requires value.engine == p2.engine && value.runId == p2.runId && value.publicationId == p2.publicationId
    requires value.bundleHash == p2.bundleHash
    requires ValidReceipt(Seal(value, None, env.bodySha), env.bodySha)
    ensures var t := m1.target;
            var plan1 := PlanStage(env, EMPTY_DISK, m1, payload1, p1, scope);
            plan1.Ok? &&
            var d1 := ApplyAll(EMPTY_DISK, plan1.value.writes);
            var plan2 := PlanStage(env, d1, m2, payload2, p2, scope);
            plan2.Ok? &&
            var d2 := ApplyAll(d1, plan2.value.writes);
            var plan3 := PlanStage(env, d2, m1, payload1, p1, scope);
            plan3.Ok? &&
            var d3 := ApplyAll(d2, plan3.value.writes);
            var d4 := d3.(reports := CommitReports(env, d3.reports, scope, value));
            && AppendReceipt(env, d3.reports, scope, value).1.Ok?
            && Committed(env, d4.reports, p2, scope)
            && ReadCommitted(env, d4, t, scope) == None
  {
    hide Inv;
    var rank := TwoStagings(env, m1, payload1, p1, m2, payload2, p2, scope);
    var d1 := ApplyAll(EMPTY_DISK, PlanStage(env, EMPTY_DISK, m1, payload1, p1, scope).value.writes);
    var d2 := ApplyAll(d1, PlanStage(env, d1, m2, payload2, p2, scope).value.writes);
    EmptyDiskIsOk(env);
    EmptyFileIsSound(env.bodySha);
    assert NonBlank(Physical(EMPTY_FILE)) == [];
    RetryBeforeAnyCommit(env, d2, rank, m1, payload1, p1, m2, payload2, p2, scope);
    CommitOffThePath(env, ApplyWrite(d2, WriteHead(m1.target, RefOf(m1.target, p1))), RefOf(m1.target, p1), p1, p2,
                     scope, value);
  }

  lemma RetryBeforeAnyCommit(env: Env, d: Disk, rank: Rank, m1: Mutation, payload1: Bytes, p1: Publication,
                             m2: Mutation, payload2: Bytes, p2: Publication, scope: Scope)
    requires Hashes(env) && Inv(env, d, rank) && d.reports == EMPTY_DISK.reports
    requires env.sha(payload1) == m1.afterHash && m1.expectedBefore != Some(m1.afterHash)
    requires BothStaged(d, m1, payload1, p1, m2, payload2, p2)
    ensures var plan := PlanStage(env, d, m1, payload1, p1, scope);
            plan.Ok? && plan.value.writes == [WriteHead(m1.target, RefOf(m1.target, p1))]
            && ApplyAll(d, plan.value.writes) == ApplyWrite(d, WriteHead(m1.target, RefOf(m1.target, p1)))
  {
    hide Inv;
    CommittedBytesAreReadable(env, d, rank, m1.target, scope);
    ApplyOne(d, WriteHead(m1.target, RefOf(m1.target, p1)));
  }

  lemma CommitOffThePath(env: Env, d: Disk, head: PointerRef, p1: Publication, p2: Publication, scope: Scope,
                         value: Body)
    requires ReportsInv(env, d.reports) && head == RefOf(head.target, p1) != RefOf(head.target, p2)
    requires HeadRef(d, head.target) == Some(head) && head in d.pointers
    requires d.pointers[head].predecessor == None && d.pointers[head].publication == p1
    requires p1.scope == p2.scope == Some(scope) && scope != "" && SimpleName(scope)
    requires value.engine == p2.engine && value.runId == p2.runId && value.publicationId == p2.publicationId
    requires value.bundleHash == p2.bundleHash
    requires AppendReceipt(env, d.reports, scope, value).1.Ok?
    requires ReceiptRef(scope, value.runId, value.publicationId) !in d.reports.receipts
    requires !Committed(env, d.reports, p1, scope)
    ensures var reports := CommitReports(env, d.reports, scope, value);
            Committed(env, reports, p2, scope)
            && ReadCommitted(env, d.(reports := reports), head.target, scope) == None
  {
    hide AppendReceipt, CommitReports;
    CommitEffect(env, d.reports, scope, value, p1, scope);
    CommitEffect(env, d.reports, scope, value, p2, scope);
    LoneHeadIsNotSeen(env, d.(reports := CommitReports(env, d.reports, scope, value)), head, scope);
  }

  lemma LoneHeadIsNotSeen(env: Env, d: Disk, head: PointerRef, reader: Scope)
    requires HeadRef(d, head.target) == Some(head) && head in d.pointers && d.pointers[head].predecessor == None
    requires !Committed(env, d.reports, d.pointers[head].publication, reader)
    ensures ReadCommitted(env, d, head.target, reader) == None
  {
    hide Committed;
    var p := d.pointers[head];
    assert Walk(env, d, ReadPointer(d, p.predecessor), head.target, reader, {} + {p.pointerId}) == None;
    assert ReadPointer(d, HeadRef(d, head.target)) == Some(p);
  }

  lemma TwoStagings(env: Env, m1: Mutation, payload1: Bytes, p1: Publication,
                    m2: Mutation, payload2: Bytes, p2: Publication, scope: Scope) returns (rank: Rank)
    requires Hashes(env)
    requires env.sha(payload1) == m1.afterHash && Request(env, m1, p1) && m1.expectedBefore != Some(m1.afterHash)
    requires env.sha(payload2) == m2.afterHash && Request(env, m2, p2) && m2.expectedBefore != Some(m2.afterHash)
    requires m1.target == m2.target && m1.afterHash != m2.afterHash
    requires RefOf(m1.target, p1) != RefOf(m1.target, p2)
    ensures var plan1 := PlanStage(env, EMPTY_DISK, m1, payload1, p1, scope);
            plan1.Ok? &&
            var d1 := ApplyAll(EMPTY_DISK, plan1.value.writes);
            var plan2 := PlanStage(env, d1, m2, payload2, p2, scope);
            plan2.Ok? &&
            var d2 := ApplyAll(d1, plan2.value.writes);
            && Inv(env, d2, rank)
            && |plan1.value.writes| == 3 && |plan2.value.writes| == 3
            && d2.reports == EMPTY_DISK.reports
            && BothStaged(d2, m1, payload1, p1, m2, payload2, p2)
  {
    hide Inv;
    EmptyDiskIsOk(env);
    FirstStaging(env, EMPTY_DISK, map[], m1, payload1, p1, scope);
    var writes1 := PlanStage(env, EMPTY_DISK, m1, payload1, p1, scope).value.writes;
    var d1, rank1 := ApplyAll(EMPTY_DISK, writes1),
        RankWith(map[], ApplyAll(EMPTY_DISK, writes1), RefOf(m1.target, p1));
    SecondStaging(env, d1, rank1, m1, payload1, p1, m2, payload2, p2, scope);
    rank := RankWith(rank1, ApplyAll(d1, PlanStage(env, d1, m2, payload2, p2, scope).value.writes),
        RefOf(m2.target, p2));
  }

  lemma SecondStaging(env: Env, d: Disk, rank: Rank, m1: Mutation, payload1: Bytes, p1: Publication,
                      m2: Mutation, payload2: Bytes, p2: Publication, scope: Scope)
    requires Hashes(env) && Inv(env, d, rank)
    requires env.sha(payload2) == m2.afterHash && Request(env, m2, p2) && m2.expectedBefore != Some(m2.afterHash)
    requires m1.target == m2.target && RefOf(m1.target, p1) != RefOf(m1.target, p2) && m1.afterHash != m2.afterHash
    requires d.pointers.Keys == {RefOf(m1.target, p1)} && d.versions.Keys == {VersionRef(m1.target, m1.afterHash)}
    requires d.pointers[RefOf(m1.target, p1)].predecessor == None
    requires SamePending(d, d.pointers[RefOf(m1.target, p1)], m1, payload1, p1)
    requires CommittedPointer(env, d, m1.target, scope) == None && d.reports == EMPTY_DISK.reports
    ensures var plan := PlanStage(env, d, m2, payload2, p2, scope);
            plan.Ok? &&
            var d' := ApplyAll(d, plan.value.writes);
            && Inv(env, d', RankWith(rank, d', RefOf(m2.target, p2)))
            && |plan.value.writes| == 3
            && d'.reports == d.reports
            && BothStaged(d', m1, payload1, p1, m2, payload2, p2)
  {
    FirstStaging(env, d, rank, m2, payload2, p2, scope);
    var d' := ApplyAll(d, PlanStage(env, d, m2, payload2, p2, scope).value.writes);
    SecondIsStaged(env, d, d', m1, payload1, p1, m2, payload2, p2);
  }

  lemma SecondIsStaged(env: Env, d: Disk, d': Disk, m1: Mutation, payload1: Bytes, p1: Publication,
                       m2: Mutation, payload2: Bytes, p2: Publication)
    requires d.pointers.Keys == {RefOf(m1.target, p1)} && RefOf(m1.target, p1) != RefOf(m2.target, p2)
    requires m1.afterHash != m2.afterHash
    requires SamePending(d, d.pointers[RefOf(m1.target, p1)], m1, payload1, p1)
    requires d.pointers[RefOf(m1.target, p1)].predecessor == None
    requires var ref2 := RefOf(m2.target, p2);
             d' == Disk(d.heads[m2.target := ref2],
                        d.pointers[ref2 := NewPointer(env, m2.target, m2.afterHash, HeadRef(d, m2.target), p2)],
                        d.versions[VersionRef(m2.target, m2.afterHash) := payload2],
                        d.reports)
    ensures BothStaged(d', m1, payload1, p1, m2, payload2, p2)
  {
  }

  predicate BothStaged(d: Disk, m1: Mutation, payload1: Bytes, p1: Publication, m2: Mutation, payload2: Bytes,
                       p2: Publication)
  {
    var r1, r2 := RefOf(m1.target, p1), RefOf(m2.target, p2);
    && d.pointers.Keys == {r1, r2}
    && SamePending(d, d.pointers[r1], m1, payload1, p1) && d.pointers[r1].predecessor == None
    && SamePending(d, d.pointers[r2], m2, payload2, p2)
    && HeadRef(d, m2.target) == Some(r2)
  }

  lemma SecondCommits(env: Env, d: Disk, rank: Rank, m1: Mutation, payload1: Bytes, p1: Publication,
                      m2: Mutation, p2: Publication, scope: Scope, value: Body)
    requires Hashes(env) && Inv(env, d, rank) && ReportsInv(env, d.reports)
    requires m1.target == m2.target && m1.afterHash != m2.afterHash && env.sha(payload1) == m1.afterHash
    requires RefOf(m1.target, p1) != RefOf(m1.target, p2)
    requires RefOf(m1.target, p1) in d.pointers && SamePending(d, d.pointers[RefOf(m1.target, p1)], m1, payload1, p1)
    requires HeadRef(d, m2.target) == Some(RefOf(m2.target, p2)) && RefOf(m2.target, p2) in d.pointers
    requires d.pointers[RefOf(m2.target, p2)].publication == p2
             && d.pointers[RefOf(m2.target, p2)].afterHash == m2.afterHash
    requires p1.scope == p2.scope == Some(scope) && scope != "" && SimpleName(scope)
    requires value.engine == p2.engine && value.runId == p2.runId && value.publicationId == p2.publicationId
    requires value.bundleHash == p2.bundleHash
    requires AppendReceipt(env, d.reports, scope, value).1 == Ok(Seal(value, None, env.bodySha))
    requires ReceiptRef(scope, value.runId, value.publicationId) !in d.reports.receipts
    requires !Committed(env, d.reports, p1, scope)
    ensures var d' := d.(reports := CommitReports(env, d.reports, scope, value));
            && Inv(env, d', rank)
            && ReadCommitted(env, d', m1.target, scope) == Some(d.versions[d.pointers[RefOf(m2.target, p2)].version])
            && PlanStage(env, d', m1, payload1, p1, scope)
               == Ok(Plan(Applied, Some(m2.afterHash), [WriteHead(m1.target, RefOf(m1.target, p1))]))
            && !Committed(env, d'.reports, p1, scope)
  {
    hide Inv, AppendReceipt;
    OneReceiptCommitsEverything(env, d, rank, scope, value, m1.target, scope);
    CommitEffect(env, d.reports, scope, value, p1, scope);
  }
}
