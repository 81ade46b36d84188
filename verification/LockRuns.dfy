/** Two runs under the target locks alone that lose a committed value: to a retry that resets the head, and to a
    receipt for a pointer that a retry took off the path (autoresearch/trace/publication.py,
    execute_publication). */
module LockRuns {
  import opened Wrappers
  import opened CommitChain
  import opened PublishedState
  import opened StoreInvariant
  import opened Staging
  import opened Committing
  import opened RetryHead
  import opened PublicationProtocol
  import opened Locks = PublicationLocks
  import PublicationHistory

  const EMPTY_STORE := Store(EMPTY_DISK, map[], map[])

  // ---------- a run of stagings ----------

  lemma {:induction false} RunsConcat(env: Env, s: Store, a: seq<Event>, b: seq<Event>)
    ensures Run(env, s, a + b) == Run(env, Run(env, s, a), b)
    ensures AllEnabled(env, s, a + b) <==> AllEnabled(env, s, a) && AllEnabled(env, Run(env, s, a), b)
    decreases |a|
  {
    if a == [] {
      assert a + b == b;
    } else {
      assert (a + b)[1..] == a[1..] + b;
      RunsConcat(env, Locks.Step(env, s, a[0]), a[1..], b);
    }
  }

  function Writes(target: TargetKey, n: nat): seq<Event> { seq(n, _ => WriteNext(target)) }

  function RanksAfter(rank: Rank, writes: seq<Write>): Rank
    decreases |writes|
  {
    if writes == [] then rank else RanksAfter(RankAfter(rank, writes[0]), writes[1..])
  }

  lemma {:induction false} AllWritten(env: Env, s: Store, t: TargetKey, l: Live)
    requires t in s.live && s.live[t] == l
    ensures var events := Writes(t, |l.hold.todo|);
            && AllEnabled(env, s, events)
            && Run(env, s, events) == Store(ApplyAll(s.disk, l.hold.todo), RanksAfter(s.rank, l.hold.todo),
                                            s.live[t := l.(hold := l.hold.(todo := []))])
    decreases |l.hold.todo|
  {
    var todo := l.hold.todo;
    if todo == [] {
      assert s.live[t := l] == s.live && l.(hold := l.hold.(todo := [])) == l;
    } else {
      var s' := Locks.Step(env, s, WriteNext(t));
      assert Writes(t, |todo|)[1..] == Writes(t, |todo| - 1);
      AllWritten(env, s', t, s'.live[t]);
    }
  }

  /** A publication stages one target to the end and dies. */
  function Staged(m: Mutation, payload: Bytes, p: Publication, stager: Scope, n: nat): seq<Event> {
    [Begin(m, payload, p, stager)] + Writes(m.target, n) + [Crash(m.target)]
  }

  lemma OneStep(env: Env, s: Store, e: Event)
    ensures Run(env, s, [e]) == Locks.Step(env, s, e) && (AllEnabled(env, s, [e]) <==> Locks.Enabled(env, s, e))
  {
    hide Locks.Step, Locks.Enabled;
    assert [e][1..] == [];
  }

  lemma StagedToTheEnd(env: Env, s: Store, m: Mutation, payload: Bytes, p: Publication, stager: Scope,
                       writes: seq<Write>)
    requires Request(env, m, p) && Scoped(p) && KeyOf(p) !in s.disk.reports.receipts && m.target !in s.live
    requires PlanStage(env, s.disk, m, payload, p, stager).Ok?
    requires PlanStage(env, s.disk, m, payload, p, stager).value.writes == writes
    ensures var events := Staged(m, payload, p, stager, |writes|);
            && AllEnabled(env, s, events)
            && Run(env, s, events) == Store(ApplyAll(s.disk, writes), RanksAfter(s.rank, writes), s.live)
  {
    hide PlanStage, Request, Scoped, RanksAfter, ApplyAll, Run, AllEnabled;
    var begin, crash := Begin(m, payload, p, stager), Crash(m.target);
    var s1 := Locks.Step(env, s, begin);
    var s2 := Run(env, s1, Writes(m.target, |writes|));
    OneStep(env, s, begin);
    AllWritten(env, s1, m.target, s1.live[m.target]);
    OneStep(env, s2, crash);
    RunsConcat(env, s, [begin], Writes(m.target, |writes|));
    RunsConcat(env, s, [begin] + Writes(m.target, |writes|), [crash]);
    assert Locks.Step(env, s2, crash).live == s.live;
  }

  // ---------- before anything is committed ----------

  predicate Stages(events: seq<Event>) {
    forall i | 0 <= i < |events| :: events[i].Begin? || events[i].WriteNext? || events[i].Crash?
  }

  lemma NothingToLose(env: Env, s: Store, target: TargetKey)
    requires LockInv(env, s) && s.disk.reports == EMPTY_DISK.reports
    ensures Inv(env, s.disk, s.rank) && PublicationHistory.Kept(env, s.disk, s.rank, target)
  {
    assert target in s.disk.heads ==> HeadOk(s.disk, target);
  }

  lemma {:induction false} StagingLosesNothing(env: Env, s: Store, events: seq<Event>, target: TargetKey)
    requires Hashes(env) && LockInv(env, s) && s.disk.reports == EMPTY_DISK.reports
    requires Stages(events) && AllEnabled(env, s, events)
    ensures NeverLoses(env, s, events, target) && LockInv(env, Run(env, s, events))
    ensures Run(env, s, events).disk.reports == EMPTY_DISK.reports
    decreases |events|
  {
    hide LockInv, Inv, PublicationHistory.Kept;
    NothingToLose(env, s, target);
    if events != [] {
      var s' := Locks.Step(env, s, events[0]);
      StepKeepsLockInv(env, s, events[0]);
      assert s'.disk.reports == s.disk.reports;
      StagingLosesNothing(env, s', events[1..], target);
    }
  }

  // ---------- losing a commit ----------

  lemma {:induction false} LossesConcat(env: Env, s: Store, a: seq<Event>, b: seq<Event>, target: TargetKey)
    requires NeverLoses(env, s, a, target)
    ensures Inv(env, Run(env, s, a).disk, Run(env, s, a).rank)
    ensures PublicationHistory.Kept(env, Run(env, s, a).disk, Run(env, s, a).rank, target)
    ensures NeverLoses(env, s, a + b, target) <==> NeverLoses(env, Run(env, s, a), b, target)
    decreases |a|
  {
    hide Inv, PublicationHistory.Kept;
    if a == [] {
      assert a + b == b;
    } else {
      assert (a + b)[1..] == a[1..] + b;
      LossesConcat(env, Locks.Step(env, s, a[0]), a[1..], b, target);
    }
  }

  lemma OneMoreStep(env: Env, s: Store, e: Event, target: TargetKey)
    requires Inv(env, s.disk, s.rank) && PublicationHistory.Kept(env, s.disk, s.rank, target)
    ensures var s' := Locks.Step(env, s, e);
            NeverLoses(env, s, [e], target)
            <==> Inv(env, s'.disk, s'.rank) && PublicationHistory.Kept(env, s'.disk, s'.rank, target)
  {
    hide Inv, PublicationHistory.Kept, Locks.Step;
    assert [e][1..] == [];
  }

  /** A committed pointer under a head that has no past is lost. */
  lemma OffThePath(env: Env, d: Disk, rank: Rank, head: PointerRef, ref: PointerRef)
    requires Inv(env, d, rank) && HeadRef(d, head.target) == Some(head) && head in d.pointers
    requires d.pointers[head].predecessor == None && ref != head && ref in d.pointers && ref.target == head.target
    requires Committed(env, d.reports, d.pointers[ref].publication, "")
    ensures !PublicationHistory.Kept(env, d, rank, head.target)
  {
    assert !Descends(d, rank, None, ref);
    assert !Descends(d, rank, HeadRef(d, head.target), ref);
  }

  // ---------- two publications of one target ----------

  datatype Job = Job(m: Mutation, payload: Bytes, p: Publication)

  /** Two publications that stage different payloads of one target, and a receipt of the second. */
  ghost predicate Rivals(env: Env, a: Job, b: Job, scope: Scope, value: Body) {
    && Hashes(env)
    && env.sha(a.payload) == a.m.afterHash && Request(env, a.m, a.p) && a.m.expectedBefore != Some(a.m.afterHash)
    && env.sha(b.payload) == b.m.afterHash && Request(env, b.m, b.p) && b.m.expectedBefore != Some(b.m.afterHash)
    && a.m.target == b.m.target && a.m.afterHash != b.m.afterHash
    && RefOf(a.m.target, a.p) != RefOf(a.m.target, b.p)
    && a.p.scope == b.p.scope == Some(scope) && scope != "" && SimpleName(scope)
    && About(b.p, scope, value) && ValidReceipt(Seal(value, None, env.bodySha), env.bodySha)
  }

  function StagedJob(j: Job, scope: Scope, n: nat): seq<Event> { Staged(j.m, j.payload, j.p, scope, n) }

  function BothStages(a: Job, b: Job, scope: Scope): seq<Event> { StagedJob(a, scope, 3) + StagedJob(b, scope, 3) }

  /** The store after both have staged and died. */
  ghost predicate AfterBoth(env: Env, s: Store, a: Job, b: Job) {
    && s.live == map[] && s.disk.reports == EMPTY_DISK.reports
    && BothStaged(s.disk, a.m, a.payload, a.p, b.m, b.payload, b.p)
  }

  lemma BothStage(env: Env, a: Job, b: Job, scope: Scope, value: Body)
    requires Rivals(env, a, b, scope, value)
    ensures LockInv(env, EMPTY_STORE)
    ensures var events := BothStages(a, b, scope);
            var s := Run(env, EMPTY_STORE, events);
            && AllEnabled(env, EMPTY_STORE, events) && LockInv(env, s) && AfterBoth(env, s, a, b)
            && NeverLoses(env, EMPTY_STORE, events, a.m.target)
  {
    hide LockInv, Inv, PlanStage, Request, Hashes, NeverLoses, ApplyAll, Staged, BothStaged;
    EmptyStoreIsOk(env);
    var rank := TwoStagings(env, a.m, a.payload, a.p, b.m, b.payload, b.p, scope);
    var events1, events2 := StagedJob(a, scope, 3), StagedJob(b, scope, 3);
    var writes1 := PlanStage(env, EMPTY_DISK, a.m, a.payload, a.p, scope).value.writes;
    StagedToTheEnd(env, EMPTY_STORE, a.m, a.payload, a.p, scope, writes1);
    var s1 := Run(env, EMPTY_STORE, events1);
    var writes2 := PlanStage(env, s1.disk, b.m, b.payload, b.p, scope).value.writes;
    ReportsStay(EMPTY_DISK, writes1);
    StagedToTheEnd(env, s1, b.m, b.payload, b.p, scope, writes2);
    RunsConcat(env, EMPTY_STORE, events1, events2);
    StagesOnly(a, b, scope);
    StagingLosesNothing(env, EMPTY_STORE, BothStages(a, b, scope), a.m.target);
  }

  lemma EmptyStoreIsOk(env: Env)
    ensures LockInv(env, EMPTY_STORE)
  {
    EmptyDiskIsOk(env);
  }

  lemma {:induction false} ReportsStay(d: Disk, writes: seq<Write>)
    ensures ApplyAll(d, writes).reports == d.reports
    decreases |writes|
  {
    if writes != [] {
      ReportsStay(ApplyWrite(d, writes[0]), writes[1..]);
    }
  }

  lemma StagesOnly(a: Job, b: Job, scope: Scope)
    ensures Stages(BothStages(a, b, scope)) && Stages(BothStages(a, b, scope) + StagedJob(a, scope, 1))
  {
  }

  lemma FirstReceipt(env: Env, scope: Scope, value: Body)
    requires ValidReceipt(Seal(value, None, env.bodySha), env.bodySha) && SimpleName(scope)
    ensures ReportsInv(env, EMPTY_DISK.reports)
    ensures AppendReceipt(env, EMPTY_DISK.reports, scope, value).1 == Ok(Seal(value, None, env.bodySha))
  {
    EmptyFileIsSound(env.bodySha);
    assert NonBlank(Physical(EMPTY_FILE)) == [];
  }

  /** The receipt of the second publication may be written wherever the head is. */
  lemma CommitIsEnabled(env: Env, s: Store, a: Job, b: Job, scope: Scope, value: Body)
    requires Rivals(env, a, b, scope, value) && LockInv(env, s) && s.live == map[]
    requires s.disk.reports == EMPTY_DISK.reports
    requires s.disk.pointers.Keys == {RefOf(a.m.target, a.p), RefOf(b.m.target, b.p)}
    requires s.disk.pointers[RefOf(b.m.target, b.p)].publication == b.p
    ensures Locks.Enabled(env, s, Commit(scope, value))
    ensures Committed(env, Locks.Step(env, s, Commit(scope, value)).disk.reports, b.p, "")
  {
    hide LockInv, AppendReceipt, ValidReceipt, Request, Hashes;
    FirstReceipt(env, scope, value);
    CommitEffect(env, s.disk.reports, scope, value, b.p, "");
  }

  /** Of a run from the empty store that loses something in its last step only this step harms. */
  lemma LastStepHarms(env: Env, events: seq<Event>, e: Event, target: TargetKey)
    requires Hashes(env) && LockInv(env, EMPTY_STORE)
    requires AllEnabled(env, EMPTY_STORE, events) && NeverLoses(env, EMPTY_STORE, events, target)
    requires Locks.Enabled(env, Run(env, EMPTY_STORE, events), e)
    requires var s := Locks.Step(env, Run(env, EMPTY_STORE, events), e);
             Inv(env, s.disk, s.rank) ==> !PublicationHistory.Kept(env, s.disk, s.rank, target)
    ensures AllEnabled(env, EMPTY_STORE, events + [e])
    ensures NoHarm(env, EMPTY_STORE, events, target) && !NoHarm(env, EMPTY_STORE, events + [e], target)
  {
    hide LockInv, Inv, PublicationHistory.Kept, NoHarm, NeverLoses, Locks.Step, Locks.Enabled, Hashes;
    var s := Run(env, EMPTY_STORE, events);
    RunsConcat(env, EMPTY_STORE, events, [e]);
    OneStep(env, s, e);
    LossesConcat(env, EMPTY_STORE, events, [e], target);
    OneMoreStep(env, s, e, target);
    RunFromTheEmptyStore(env, events, target);
    RunFromTheEmptyStore(env, events + [e], target);
  }

  // ---------- the two runs ----------

  /** Both publications stage and die, the first is retried and dies again, and the second, which has everything
      staged, commits: only this last step harms. What it committed no reader sees. */
  lemma AReceiptOffThePathHarms(env: Env, a: Job, b: Job, scope: Scope, value: Body)
    requires Rivals(env, a, b, scope, value)
    ensures LockInv(env, EMPTY_STORE)
    ensures var events, commit := BothStages(a, b, scope) + StagedJob(a, scope, 1), Commit(scope, value);
            && AllEnabled(env, EMPTY_STORE, events + [commit]) && AllEnabled(env, EMPTY_STORE, events)
            && NoHarm(env, EMPTY_STORE, events, a.m.target)
            && !NoHarm(env, EMPTY_STORE, events + [commit], a.m.target)
            && var d := Run(env, EMPTY_STORE, events + [commit]).disk;
               Committed(env, d.reports, b.p, scope) && ReadCommitted(env, d, a.m.target, scope) == None
  {
    hide LockInv, Inv, PlanStage, Request, NeverLoses, NoHarm, Staged, Locks.Enabled, Hashes;
    var t, r1, r2 := a.m.target, RefOf(a.m.target, a.p), RefOf(b.m.target, b.p);
    BothStage(env, a, b, scope, value);
    var s := Run(env, EMPTY_STORE, BothStages(a, b, scope));
    var s' := RetriedByFirst(env, s, a, b, scope, value);
    var events, commit := BothStages(a, b, scope) + StagedJob(a, scope, 1), Commit(scope, value);
    RunsConcat(env, EMPTY_STORE, BothStages(a, b, scope), StagedJob(a, scope, 1));
    RunsConcat(env, EMPTY_STORE, events, [commit]);
    StagesOnly(a, b, scope);
    StagingLosesNothing(env, EMPTY_STORE, events, t);
    CommitIsEnabled(env, s', a, b, scope, value);
    OneStep(env, s', commit);
    FirstReceipt(env, scope, value);
    CommitOffThePath(env, s'.disk, r1, a.p, b.p, scope, value);
    CommitIsLost(env, s', a, b, scope, value);
    LastStepHarms(env, events, commit, t);
  }

  lemma CommitIsLost(env: Env, s: Store, a: Job, b: Job, scope: Scope, value: Body)
    requires var d := Locks.Step(env, s, Commit(scope, value)).disk;
             var r1, r2 := RefOf(a.m.target, a.p), RefOf(b.m.target, b.p);
             && r1 != r2 && a.m.target == b.m.target && r1 in d.pointers && r2 in d.pointers
             && HeadRef(d, a.m.target) == Some(r1) && d.pointers[r1].predecessor == None
             && d.pointers[r2].publication == b.p && Committed(env, d.reports, b.p, "")
    ensures var s' := Locks.Step(env, s, Commit(scope, value));
            Inv(env, s'.disk, s'.rank) ==> !PublicationHistory.Kept(env, s'.disk, s'.rank, a.m.target)
  {
    hide Inv, PublicationHistory.Kept, Committed;
    var s' := Locks.Step(env, s, Commit(scope, value));
    if Inv(env, s'.disk, s'.rank) {
      OffThePath(env, s'.disk, s'.rank, RefOf(a.m.target, a.p), RefOf(b.m.target, b.p));
    }
  }

  lemma RetriedByFirst(env: Env, s: Store, a: Job, b: Job, scope: Scope, value: Body) returns (s': Store)
    requires Rivals(env, a, b, scope, value) && LockInv(env, s) && AfterBoth(env, s, a, b)
    ensures AllEnabled(env, s, StagedJob(a, scope, 1)) && s' == Run(env, s, StagedJob(a, scope, 1))
    ensures s'.live == map[]
    ensures s'.disk == ApplyWrite(s.disk, WriteHead(a.m.target, RefOf(a.m.target, a.p)))
  {
    hide Inv, Staged, Run, AllEnabled, BothStaged, ApplyAll;
    RetryBeforeAnyCommit(env, s.disk, s.rank, a.m, a.payload, a.p, b.m, b.payload, b.p, scope);
    StagedToTheEnd(env, s, a.m, a.payload, a.p, scope, [WriteHead(a.m.target, RefOf(a.m.target, a.p))]);
    s' := Run(env, s, StagedJob(a, scope, 1));
  }

  /** Both publications stage and die, the second commits, and the first is retried: the retry is not refused, and the
      one write it makes, a harmful step, hides what the second committed. */
  lemma ARetryOfTheHeadHarms(env: Env, a: Job, b: Job, scope: Scope, value: Body)
    requires Rivals(env, a, b, scope, value)
    ensures LockInv(env, EMPTY_STORE)
    ensures var t := a.m.target;
            var events := BothStages(a, b, scope) + [Commit(scope, value), Begin(a.m, a.payload, a.p, scope)];
            && AllEnabled(env, EMPTY_STORE, events + [WriteNext(t)]) && AllEnabled(env, EMPTY_STORE, events)
            && NoHarm(env, EMPTY_STORE, events, t)
            && !NoHarm(env, EMPTY_STORE, events + [WriteNext(t)], t)
            && ReadCommitted(env, Run(env, EMPTY_STORE, events).disk, t, scope) == Some(b.payload)
            && ReadCommitted(env, Run(env, EMPTY_STORE, events + [WriteNext(t)]).disk, t, scope) == None
  {
    hide LockInv, Inv, PlanStage, Request, NeverLoses, NoHarm, Staged, Locks.Enabled, Hashes;
    var t, both := a.m.target, BothStages(a, b, scope);
    var commit, begin := Commit(scope, value), Begin(a.m, a.payload, a.p, scope);
    BothStage(env, a, b, scope, value);
    var s := Run(env, EMPTY_STORE, both);
    LossesConcat(env, EMPTY_STORE, both, [], t);
    CommitAndRetry(env, s, a, b, scope, value);
    RunsConcat(env, EMPTY_STORE, both, [commit, begin]);
    LossesConcat(env, EMPTY_STORE, both, [commit, begin], t);
    RunsConcat(env, EMPTY_STORE, both + [commit, begin], [WriteNext(t)]);
    OneStep(env, Run(env, s, [commit, begin]), WriteNext(t));
    LastStepHarms(env, both + [commit, begin], WriteNext(t), t);
  }

  /** The receipt for the pointer at the head loses nothing, and shows its payload. */
  lemma SecondIsCommitted(env: Env, s: Store, a: Job, b: Job, scope: Scope, value: Body)
    requires Rivals(env, a, b, scope, value) && LockInv(env, s) && AfterBoth(env, s, a, b)
    requires PublicationHistory.Kept(env, s.disk, s.rank, a.m.target)
    ensures var s' := Locks.Step(env, s, Commit(scope, value));
            && Locks.Enabled(env, s, Commit(scope, value)) && s'.live == map[] && s'.rank == s.rank
            && s'.disk == s.disk.(reports := CommitReports(env, s.disk.reports, scope, value))
            && Inv(env, s'.disk, s'.rank) && PublicationHistory.Kept(env, s'.disk, s'.rank, a.m.target)
  {
    hide Linked, PublicationHistory.Kept, ValidReceipt, AppendReceipt, Request, ReportsInv, LiveOk, NothingLost;
    CommitIsEnabled(env, s, a, b, scope, value);
    StepLosesExactlyWhen(env, s, Commit(scope, value), a.m.target);
    HeadIsOnPath(s.disk, s.rank, RefOf(b.m.target, b.p));
  }

  lemma HeadIsOnPath(d: Disk, rank: Rank, ref: PointerRef)
    requires Linked(d, rank) && HeadRef(d, ref.target) == Some(ref) && ref in d.pointers
    ensures OnPath(d, rank, ref)
  {
  }

  /** The retry of the first publication takes the lock. */
  lemma RetryBegins(env: Env, s: Store, a: Job, scope: Scope, plan: Plan)
    requires Request(env, a.m, a.p) && Scoped(a.p) && KeyOf(a.p) !in s.disk.reports.receipts && s.live == map[]
    requires PlanStage(env, s.disk, a.m, a.payload, a.p, scope) == Ok(plan)
    requires plan.writes == [WriteHead(a.m.target, RefOf(a.m.target, a.p))]
    ensures var begin := Begin(a.m, a.payload, a.p, scope);
            var s' := Locks.Step(env, s, begin);
            && Locks.Enabled(env, s, begin) && s'.disk == s.disk && s'.rank == s.rank
            && Locks.Enabled(env, s', WriteNext(a.m.target))
            && Locks.Step(env, s', WriteNext(a.m.target)).disk == ApplyWrite(s.disk, plan.writes[0])
  {
    hide PlanStage, Request, Scoped;
  }

  lemma TwoSteps(env: Env, s: Store, e: Event, f: Event, target: TargetKey)
    requires Locks.Enabled(env, s, e) && Locks.Enabled(env, Locks.Step(env, s, e), f)
    requires Inv(env, s.disk, s.rank) && PublicationHistory.Kept(env, s.disk, s.rank, target)
    requires var s1 := Locks.Step(env, s, e);
             && Inv(env, s1.disk, s1.rank) && PublicationHistory.Kept(env, s1.disk, s1.rank, target)
             && Locks.Step(env, s1, f).disk == s1.disk && Locks.Step(env, s1, f).rank == s1.rank
    ensures AllEnabled(env, s, [e, f]) && NeverLoses(env, s, [e, f], target)
    ensures Run(env, s, [e, f]) == Locks.Step(env, Locks.Step(env, s, e), f)
  {
    hide Inv, PublicationHistory.Kept, Locks.Step, Locks.Enabled;
    var s1 := Locks.Step(env, s, e);
    OneStep(env, s1, f);
    OneMoreStep(env, s1, f, target);
    assert [e, f][0] == e && [e, f][1..] == [f];
  }

  lemma CommitAndRetry(env: Env, s: Store, a: Job, b: Job, scope: Scope, value: Body)
    requires Rivals(env, a, b, scope, value) && LockInv(env, s) && AfterBoth(env, s, a, b)
    requires PublicationHistory.Kept(env, s.disk, s.rank, a.m.target)
    ensures var t, events := a.m.target, [Commit(scope, value), Begin(a.m, a.payload, a.p, scope)];
            var s1 := Run(env, s, events);
            var s2 := Locks.Step(env, s1, WriteNext(t));
            && AllEnabled(env, s, events) && NeverLoses(env, s, events, t) && Locks.Enabled(env, s1, WriteNext(t))
            && ReadCommitted(env, s1.disk, t, scope) == Some(b.payload)
            && ReadCommitted(env, s2.disk, t, scope) == None
            && (Inv(env, s2.disk, s2.rank) ==> !PublicationHistory.Kept(env, s2.disk, s2.rank, t))
  {
    hide Inv, PublicationHistory.Kept, PlanStage, AppendReceipt, ValidReceipt, Request, Hashes, Committed;
    hide ReadCommitted, Locks.Step, Locks.Enabled, ReportsInv, CommitReports;
    var commit, begin := Commit(scope, value), Begin(a.m, a.payload, a.p, scope);
    var r1, r2 := RefOf(a.m.target, a.p), RefOf(b.m.target, b.p);
    var s0 := Locks.Step(env, s, commit);
    SecondIsCommitted(env, s, a, b, scope, value);
    FirstReceipt(env, scope, value);
    NothingYet(env, a.p, scope);
    SecondCommits(env, s.disk, s.rank, a.m, a.payload, a.p, b.m, b.p, scope, value);
    OnlyOneReceipt(env, a, b, scope, value);
    RetryBegins(env, s0, a, scope, PlanStage(env, s0.disk, a.m, a.payload, a.p, scope).value);
    TwoSteps(env, s, commit, begin, a.m.target);
    HeadWithoutPast(env, s0.disk, s0.rank, r1, scope);
    var s2 := Locks.Step(env, Locks.Step(env, s0, begin), WriteNext(a.m.target));
    CommitIsEnabled(env, s, a, b, scope, value);
    if Inv(env, s2.disk, s2.rank) {
      OffThePath(env, s2.disk, s2.rank, r1, r2);
    }
  }

  lemma NothingYet(env: Env, p: Publication, scope: Scope)
    ensures !Committed(env, EMPTY_DISK.reports, p, scope)
  {
  }

  lemma OnlyOneReceipt(env: Env, a: Job, b: Job, scope: Scope, value: Body)
    requires Rivals(env, a, b, scope, value)
    ensures KeyOf(a.p) !in CommitReports(env, EMPTY_DISK.reports, scope, value).receipts
  {
  }
}
