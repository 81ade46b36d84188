/** A publication that may be made can be made (autoresearch/trace/publication.py, execute_publication): in every state
    the protocol can be in, a new publication with a mutation that is right goes through, step by step, and is seen. */
module ProtocolProgress {
  import opened Wrappers
  import opened CommitChain
  import opened PublishedState
  import opened StoreInvariant
  import opened Staging
  import opened Committing
  import opened StagingOutcomes
  import opened PublicationProtocol
  import opened PublicationHistory

  /** Nothing is shown; or the mutation expects what is shown; or it advances, and its payload is newer. */
  predicate IsRight(env: Env, d: Disk, m: Mutation, payload: Bytes, p: Publication) {
    var shown := ShownHash(env, d, m.target, "");
    || shown.None?
    || (m.policy in {CasReplace, IdempotentAppend} && m.expectedBefore == shown)
    || (m.policy == AdvanceIfNewer && ReadCommitted(env, d, m.target, "").Some?
        && Newer(env, payload, p.runId, ReadCommitted(env, d, m.target, "").value,
                 CommittedPointer(env, d, m.target, "").value.publication.runId))
  }

  predicate IsOther(q: Publication, p: Publication) { q.runId != p.runId || q.publicationId != p.publicationId }

  /** No pointer and no hold is of this run and publication id, and neither is a receipt. */
  ghost predicate IsNew(s: Sys, p: Publication) {
    && Scoped(p) && KeyOf(p) !in s.disk.reports.receipts
    && (forall r | r in s.disk.pointers :: IsOther(s.disk.pointers[r].publication, p))
    && (forall t | t in s.holds :: IsOther(s.holds[t].publication, p))
  }

  ghost predicate MayPublish(env: Env, s: Sys, m: Mutation, payload: Bytes, p: Publication, value: Body) {
    && Request(env, m, p) && IsNew(s, p) && m.target !in s.holds
    && Undecided(env, s.disk, m, payload, p, "") && VersionFits(s.disk, m.target, m.afterHash, payload)
    && IsRight(env, s.disk, m, payload, p)
    && About(p, p.scope.value, value) && AppendReceipt(env, s.disk.reports, p.scope.value, value).1.Ok?
  }

  /** What is staged when the mutation is right: everything. */
  lemma RightIsPlanned(env: Env, s: Sys, m: Mutation, payload: Bytes, p: Publication, stager: Scope)
    requires Hashes(env) && SerialInv(env, s) && IsRight(env, s.disk, m, payload, p)
    requires Undecided(env, s.disk, m, payload, p, "") && VersionFits(s.disk, m.target, m.afterHash, payload)
    ensures var plan := PlanStage(env, s.disk, m, payload, p, stager);
            plan.Ok? && plan.value.writes == FreshWrites(env, s.disk, m, payload, p)
  {
    hide SerialInv;
    ShownToAll(env, s, m.target, stager);
    ShownToAll(env, s, m.target, "");
    if ShownHash(env, s.disk, m.target, "").Some? && m.policy == AdvanceIfNewer {
      AdvanceGetsThroughExactlyWhenNewer(env, s.disk, m, payload, p, "");
    }
  }

  // ---------- writing ----------

  function Writing(target: TargetKey, n: nat): seq<Event> {
    if n == 0 then [] else [WriteNext(target)] + Writing(target, n - 1)
  }

  function WithoutTodo(h: Hold): Hold { h.(todo := []) }

  lemma {:induction false} AllIsWritten(env: Env, s: Sys, target: TargetKey)
    requires target in s.holds
    ensures var h := s.holds[target];
            var events, t := Writing(target, |h.todo|), Run(env, s, Writing(target, |h.todo|));
            && AllEnabled(env, s, events)
            && t.disk == ApplyAll(s.disk, h.todo) && t.holds == s.holds[target := WithoutTodo(h)]
    decreases |s.holds[target].todo|
  {
    hide Enabled;
    var h := s.holds[target];
    if h.todo == [] {
      assert s.holds[target := WithoutTodo(h)] == s.holds;
    } else {
      var next := Step(env, s, WriteNext(target));
      WritingIsEnabled(env, s, target);
      assert Writing(target, |h.todo|)[1..] == Writing(target, |h.todo| - 1);
      AllIsWritten(env, next, target);
    }
  }

  lemma WritingIsEnabled(env: Env, s: Sys, target: TargetKey)
    requires target in s.holds && s.holds[target].todo != []
    ensures Enabled(env, s, WriteNext(target))
  {
  }

  lemma {:induction false} OneAfterAnother(env: Env, s: Sys, a: seq<Event>, b: seq<Event>)
    requires AllEnabled(env, s, a) && AllEnabled(env, Run(env, s, a), b)
    ensures AllEnabled(env, s, a + b) && Run(env, s, a + b) == Run(env, Run(env, s, a), b)
    decreases |a|
  {
    hide Enabled, Step;
    if a == [] {
      assert a + b == b;
    } else {
      assert (a + b)[1..] == a[1..] + b;
      OneAfterAnother(env, Step(env, s, a[0]), a[1..], b);
    }
  }

  // ---------- committing ----------

  /** With everything staged the commit may come. */
  lemma StagedMayCommit(env: Env, s: Sys, t: Sys, m: Mutation, payload: Bytes, p: Publication, h: Hold, value: Body)
    requires Inv(env, s.disk, s.rank) && MayPublish(env, s, m, payload, p, value) && h.publication == p
    requires IsStaged(env, s.disk, t.disk, m, payload, p) && t.holds == s.holds[m.target := h]
    ensures Enabled(env, t, Commit(p.scope.value, value))
  {
    var scope := p.scope.value;
    OldPointersAreOthers(env, s, p);
    forall r | r in t.disk.pointers && r.runId == value.runId && r.publicationId == value.publicationId
      ensures About(t.disk.pointers[r].publication, scope, value)
    {
      assert r == PointerRef(m.target, p.runId, p.publicationId);
    }
  }

  lemma OldPointersAreOthers(env: Env, s: Sys, p: Publication)
    requires Inv(env, s.disk, s.rank) && IsNew(s, p)
    ensures forall r | r in s.disk.pointers :: r.runId != p.runId || r.publicationId != p.publicationId
  {
    forall r | r in s.disk.pointers ensures r.runId != p.runId || r.publicationId != p.publicationId {
      assert PointerOk(env, s.disk.versions, r, s.disk.pointers[r]) && IsOther(s.disk.pointers[r].publication, p);
    }
  }

  lemma MayBegin(env: Env, s: Sys, m: Mutation, payload: Bytes, p: Publication, value: Body)
    requires MayPublish(env, s, m, payload, p, value)
    ensures Enabled(env, s, Begin(m, payload, p, ""))
  {
  }

  /** The steps of the publication, from its beginning to its commit. */
  function Steps(env: Env, s: Sys, m: Mutation, payload: Bytes, p: Publication, value: Body): seq<Event>
    requires p.scope.Some?
  {
    [Begin(m, payload, p, "")] + Writing(m.target, |FreshWrites(env, s.disk, m, payload, p)|)
    + [Commit(p.scope.value, value)]
  }

  lemma Begun(env: Env, s: Sys, m: Mutation, payload: Bytes, p: Publication, value: Body)
    requires Hashes(env) && SerialInv(env, s) && MayPublish(env, s, m, payload, p, value)
    ensures var t := Step(env, s, Begin(m, payload, p, ""));
            && Enabled(env, s, Begin(m, payload, p, "")) && t.disk == s.disk
            && t.holds == s.holds[m.target := Hold(m, payload, p, FreshWrites(env, s.disk, m, payload, p))]
  {
    MayBegin(env, s, m, payload, p, value);
    hide Enabled, SerialInv, PlanStage;
    RightIsPlanned(env, s, m, payload, p, "");
  }

  /** The steps up to the commit are enabled, and stage the mutation. */
  lemma StepsStage(env: Env, s: Sys, m: Mutation, payload: Bytes, p: Publication, value: Body) returns (t: Sys)
    requires Hashes(env) && SerialInv(env, s) && MayPublish(env, s, m, payload, p, value)
    ensures var events := [Begin(m, payload, p, "")]
                          + Writing(m.target, |FreshWrites(env, s.disk, m, payload, p)|);
            AllEnabled(env, s, events) && t == Run(env, s, events)
    ensures t.disk == ApplyAll(s.disk, FreshWrites(env, s.disk, m, payload, p))
    ensures t.holds == s.holds[m.target := Hold(m, payload, p, [])]
  {
    var writes := FreshWrites(env, s.disk, m, payload, p);
    var begin, writing := [Begin(m, payload, p, "")], Writing(m.target, |writes|);
    Begun(env, s, m, payload, p, value);
    hide MayPublish, Enabled, FreshWrites, Step, AllEnabled, Run, Writing, SerialInv, ApplyAll;
    OneStep(env, s, begin[0]);
    var s1 := Run(env, s, begin);
    AllIsWritten(env, s1, m.target);
    OneAfterAnother(env, s, begin, writing);
    t := Run(env, s, begin + writing);
    HeldTwice(s.holds, m.target, Hold(m, payload, p, writes), Hold(m, payload, p, []));
  }

  lemma HeldTwice(holds: map<TargetKey, Hold>, target: TargetKey, h: Hold, h': Hold)
    ensures holds[target := h][target := h'] == holds[target := h']
  {
  }

  /** Every step of the publication is enabled when it is due. */
  lemma StepsAreEnabled(env: Env, s: Sys, m: Mutation, payload: Bytes, p: Publication, value: Body) returns (t: Sys)
    requires Hashes(env) && SerialInv(env, s) && MayPublish(env, s, m, payload, p, value)
    ensures AllEnabled(env, s, Steps(env, s, m, payload, p, value))
    ensures SerialInv(env, t) && Enabled(env, t, Commit(p.scope.value, value))
    ensures t.holds == s.holds[m.target := Hold(m, payload, p, [])]
    ensures Run(env, s, Steps(env, s, m, payload, p, value)) == Step(env, t, Commit(p.scope.value, value))
  {
    t := StepsStage(env, s, m, payload, p, value);
    StepsCommit(env, s, t, m, payload, p, value);
    hide MayPublish, Enabled, FreshWrites, Step, AllEnabled, Run, Writing, SerialInv, ApplyAll;
    var before := [Begin(m, payload, p, "")] + Writing(m.target, |FreshWrites(env, s.disk, m, payload, p)|);
    RunKeepsSerialInv(env, s, before);
    var commit := Commit(p.scope.value, value);
    OneStep(env, t, commit);
    OneAfterAnother(env, s, before, [commit]);
  }

  lemma StepsCommit(env: Env, s: Sys, t: Sys, m: Mutation, payload: Bytes, p: Publication, value: Body)
    requires SerialInv(env, s) && MayPublish(env, s, m, payload, p, value)
    requires t.disk == ApplyAll(s.disk, FreshWrites(env, s.disk, m, payload, p))
    requires t.holds == s.holds[m.target := Hold(m, payload, p, [])]
    ensures Enabled(env, t, Commit(p.scope.value, value))
  {
    hide Enabled, FreshWrites, ApplyAll, Inv, HoldOk, IsStaged;
    FreshWritesStage(env, s.disk, m, payload, p);
    StagedMayCommit(env, s, t, m, payload, p, Hold(m, payload, p, []), value);
  }

  lemma OneStep(env: Env, s: Sys, e: Event)
    ensures Run(env, s, [e]) == Step(env, s, e) && (AllEnabled(env, s, [e]) <==> Enabled(env, s, e))
  {
    assert [e][1..] == [];
  }

  /** A new publication with a mutation that is right can be made in any state: each of its steps is enabled when it is
      due, and at the end readers of every root get its pointer and its payload, and the target is free again. */
  lemma NewPublicationGetsThrough(env: Env, s: Sys, m: Mutation, payload: Bytes, p: Publication, value: Body)
    requires Hashes(env) && SerialInv(env, s) && MayPublish(env, s, m, payload, p, value)
    ensures AllEnabled(env, s, Steps(env, s, m, payload, p, value))
    ensures var t := Run(env, s, Steps(env, s, m, payload, p, value));
            && SerialInv(env, t) && m.target !in t.holds
            && forall reader ::
                 && CommittedPointer(env, t.disk, m.target, reader).Some?
                 && CommittedPointer(env, t.disk, m.target, reader).value.publication == p
                 && CommittedPointer(env, t.disk, m.target, reader).value.afterHash == m.afterHash
                 && ReadCommitted(env, t.disk, m.target, reader) == Some(payload)
  {
    IsAbout(env, s, m, payload, p, value);
    hide MayPublish, SerialInv, Enabled, Steps, AllEnabled, Run, Step, CommittedPointer, ReadCommitted;
    var staged := StepsAreEnabled(env, s, m, payload, p, value);
    CommitKeepsSerialInv(env, staged, p.scope.value, value);
    CommitShows(env, staged, m, payload, p, value);
  }

  /** A commit after everything is staged. */
  lemma CommitShows(env: Env, s: Sys, m: Mutation, payload: Bytes, p: Publication, value: Body)
    requires Hashes(env) && SerialInv(env, s) && p.scope.Some? && About(p, p.scope.value, value)
    requires Enabled(env, s, Commit(p.scope.value, value))
    requires m.target in s.holds && s.holds[m.target] == Hold(m, payload, p, [])
    ensures var t := Step(env, s, Commit(p.scope.value, value));
            && m.target !in t.holds
            && forall reader ::
                 && CommittedPointer(env, t.disk, m.target, reader).Some?
                 && CommittedPointer(env, t.disk, m.target, reader).value.publication == p
                 && CommittedPointer(env, t.disk, m.target, reader).value.afterHash == m.afterHash
                 && ReadCommitted(env, t.disk, m.target, reader) == Some(payload)
  {
    hide SerialInv, Enabled, CommittedPointer, ReadCommitted, Shown;
    var t := Step(env, s, Commit(p.scope.value, value));
    assert m.target !in t.holds;
    var seen := CommitShowsOne(env, s, m, payload, p, value);
    CommitKeepsSerialInv(env, s, p.scope.value, value);
    forall reader
      ensures CommittedPointer(env, t.disk, m.target, reader) == Some(seen)
      ensures ReadCommitted(env, t.disk, m.target, reader) == Some(payload)
    {
      ShownToAll(env, t, m.target, reader);
    }
  }

  lemma CommitShowsOne(env: Env, s: Sys, m: Mutation, payload: Bytes, p: Publication, value: Body)
    returns (seen: Pointer)
    requires Hashes(env) && SerialInv(env, s) && p.scope.Some? && About(p, p.scope.value, value)
    requires Enabled(env, s, Commit(p.scope.value, value))
    requires m.target in s.holds && s.holds[m.target] == Hold(m, payload, p, [])
    ensures var t := Step(env, s, Commit(p.scope.value, value));
            Shown(env, t.disk, m.target) == Some(seen) && ReadCommitted(env, t.disk, m.target, "") == Some(payload)
    ensures seen.publication == p && seen.afterHash == m.afterHash
  {
    hide SerialInv, Enabled, Step, CommittedPointer, ReadCommitted, Shown, Guard;
    CommitIsSerial(env, s, p.scope.value, value, m.target);
    seen := s.disk.pointers[RefOf(m.target, p)];
  }

  lemma IsAbout(env: Env, s: Sys, m: Mutation, payload: Bytes, p: Publication, value: Body)
    requires MayPublish(env, s, m, payload, p, value)
    ensures About(p, p.scope.value, value)
  {
  }
}
