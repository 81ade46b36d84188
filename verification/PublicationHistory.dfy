/** What whole runs of interleaved publications guarantee. */
module PublicationHistory {
  import opened Wrappers
  import opened Strings
  import opened CommitChain
  import opened PublishedState
  import opened StoreInvariant
  import opened Staging
  import opened Committing
  import opened RetryHead
  import opened PublicationProtocol

  // ---------- runs ----------

  function Run(env: Env, s: Sys, events: seq<Event>): Sys
    decreases |events|
  {
    if events == [] then s else Run(env, Step(env, s, events[0]), events[1..])
  }

  ghost predicate AllEnabled(env: Env, s: Sys, events: seq<Event>)
    decreases |events|
  {
    events == [] || (Enabled(env, s, events[0]) && AllEnabled(env, Step(env, s, events[0]), events[1..]))
  }

  lemma {:induction false} RunKeepsSerialInv(env: Env, s: Sys, events: seq<Event>)
    requires Hashes(env) && SerialInv(env, s) && AllEnabled(env, s, events)
    ensures SerialInv(env, Run(env, s, events))
    decreases |events|
  {
    if events != [] {
      StepKeepsSerialInv(env, s, events[0]);
      RunKeepsSerialInv(env, Step(env, s, events[0]), events[1..]);
    }
  }

  // ---------- two writers with one expectation ----------

  /** Once a publication has committed over the value another writer also expected, that writer's
      different payload gets through if and only if the retry branch lets it: its own pointer, for this
      very mutation, was there before. Without that pointer it is refused as a conflict. */
  lemma StaleWriterIsRefused(env: Env, s: Sys, scope: Scope, value: Body, target: TargetKey,
                             m: Mutation, payload: Bytes, p: Publication, stager: Scope)
    requires Hashes(env) && SerialInv(env, s) && Enabled(env, s, Commit(scope, value))
    requires target in s.holds && Held(s.holds[target], value)
    requires m.target == target && !m.policy.AdvanceIfNewer? && env.sha(payload) == m.afterHash
    requires m.expectedBefore == BeforeHash(Shown(env, s.disk, target), s.holds[target].m)
    requires m.afterHash != s.holds[target].m.afterHash
    ensures var answer := PlanStage(env, Step(env, s, Commit(scope, value)).disk, m, payload, p, stager);
            && (answer.Ok? <==> Pending(s.disk, m, payload, p))
            && (RefOf(target, p) !in s.disk.pointers ==> answer == Err(MutationConflict))
  {
    hide SerialInv;
    var s' := Step(env, s, Commit(scope, value));
    CommitIsSerial(env, s, scope, value, target);
    CommitKeepsSerialInv(env, s, scope, value);
    ShownToAll(env, s', target, stager);
    StaleExpectation(env, s.disk, s'.disk, target, s.holds[target], m, payload, p, stager);
  }

  /** The publication has already written its pointer for this mutation. */
  predicate Pending(d: Disk, m: Mutation, payload: Bytes, p: Publication) {
    RefOf(m.target, p) in d.pointers && SamePending(d, d.pointers[RefOf(m.target, p)], m, payload, p)
  }

  lemma StaleExpectation(env: Env, d: Disk, d': Disk, target: TargetKey, h: Hold,
                         m: Mutation, payload: Bytes, p: Publication, stager: Scope)
    requires Guard(env, d, Shown(env, d, target), h)
    requires CommittedPointer(env, d', target, stager).Some?
    requires CommittedPointer(env, d', target, stager).value.afterHash == h.m.afterHash
    requires m.target == target && !m.policy.AdvanceIfNewer? && env.sha(payload) == m.afterHash
    requires m.expectedBefore == BeforeHash(Shown(env, d, target), h.m)
    requires m.afterHash != h.m.afterHash && d'.pointers == d.pointers && d'.versions == d.versions
    ensures var answer := PlanStage(env, d', m, payload, p, stager);
            && (answer.Ok? <==> Pending(d, m, payload, p))
            && (RefOf(target, p) !in d.pointers ==> answer == Err(MutationConflict))
  {
  }

  // ---------- the order of payloads ----------

  lemma StampLessTransitive(a: Stamp, b: Stamp, c: Stamp)
    requires StampLess(a, b) && StampLess(b, c)
    ensures StampLess(a, c)
  {
    if a.asOf == b.asOf == c.asOf {
      StringLessTransitive(a.sessionRunId, b.sessionRunId, c.sessionRunId);
    } else if a.asOf != b.asOf && b.asOf != c.asOf {
      StringLessTransitive(a.asOf, b.asOf, c.asOf);
      if a.asOf == c.asOf {
        StringLessIrreflexive(a.asOf);
      }
    }
  }

  /** The `(as_of, session run id)` of what readers of a target get. */
  function ShownOrder(env: Env, d: Disk, target: TargetKey): Option<Stamp> {
    var p := Shown(env, d, target);
    if p.None? || VersionBytes(env, d, p.value).None? then None
    else Some(Ordering(env, VersionBytes(env, d, p.value).value, p.value.publication.runId))
  }

  /** Either the same pointer and bytes, or strictly newer ones; nothing shown counts as oldest. */
  predicate Advanced(env: Env, d: Disk, d': Disk, target: TargetKey) {
    || Shown(env, d, target).None?
    || (Shown(env, d', target) == Shown(env, d, target)
        && ReadCommitted(env, d', target, "") == ReadCommitted(env, d, target, ""))
    || (ShownOrder(env, d, target).Some? && ShownOrder(env, d', target).Some?
        && StampLess(ShownOrder(env, d, target).value, ShownOrder(env, d', target).value))
  }

  predicate AdvancingHold(s: Sys, target: TargetKey) {
    target in s.holds ==> s.holds[target].m.policy.AdvanceIfNewer?
  }

  predicate AdvancingEvent(e: Event, target: TargetKey) {
    e.Begin? && e.m.target == target ==> e.m.policy.AdvanceIfNewer?
  }

  lemma StepAdvances(env: Env, s: Sys, e: Event, target: TargetKey)
    requires Hashes(env) && SerialInv(env, s) && Enabled(env, s, e)
    requires AdvancingHold(s, target) && AdvancingEvent(e, target)
    ensures Advanced(env, s.disk, Step(env, s, e).disk, target)
  {
    if e.Commit? {
      CommitIsSerial(env, s, e.scope, e.value, target);
      if target in s.holds && Held(s.holds[target], e.value) {
        GuardAdvances(env, s.disk, Step(env, s, e).disk, target, s.holds[target]);
      }
    } else {
      OnlyCommitsAreVisible(env, s, e, target);
    }
  }

  lemma GuardAdvances(env: Env, d: Disk, d': Disk, target: TargetKey, h: Hold)
    requires Guard(env, d, Shown(env, d, target), h) && h.m.policy.AdvanceIfNewer?
    requires Shown(env, d', target).Some? && Shown(env, d', target).value.publication == h.publication
    requires ReadCommitted(env, d', target, "") == Some(h.payload)
    ensures Advanced(env, d, d', target)
  {
  }

  lemma StepKeepsAdvancing(env: Env, s: Sys, e: Event, target: TargetKey)
    requires AdvancingHold(s, target) && AdvancingEvent(e, target)
    ensures AdvancingHold(Step(env, s, e), target)
  {
  }

  lemma AdvancedTransitive(env: Env, a: Disk, b: Disk, c: Disk, target: TargetKey)
    requires Advanced(env, a, b, target) && Advanced(env, b, c, target)
    ensures Advanced(env, a, c, target)
  {
    var x, y, z := ShownOrder(env, a, target), ShownOrder(env, b, target), ShownOrder(env, c, target);
    if x.Some? && y.Some? && z.Some? && StampLess(x.value, y.value) && StampLess(y.value, z.value) {
      StampLessTransitive(x.value, y.value, z.value);
    }
  }

  /** Every commit of an advancing mutation over a value that is shown strictly raises the order. */
  lemma CommitStrictlyAdvances(env: Env, s: Sys, scope: Scope, value: Body, target: TargetKey)
    requires Hashes(env) && SerialInv(env, s) && Enabled(env, s, Commit(scope, value))
    requires target in s.holds && Held(s.holds[target], value) && s.holds[target].m.policy.AdvanceIfNewer?
    requires Shown(env, s.disk, target).Some?
    ensures var d' := Step(env, s, Commit(scope, value)).disk;
            && ShownOrder(env, s.disk, target).Some? && ShownOrder(env, d', target).Some?
            && StampLess(ShownOrder(env, s.disk, target).value, ShownOrder(env, d', target).value)
  {
    CommitIsSerial(env, s, scope, value, target);
    GuardRaises(env, s.disk, Step(env, s, Commit(scope, value)).disk, target, s.holds[target]);
  }

  lemma GuardRaises(env: Env, d: Disk, d': Disk, target: TargetKey, h: Hold)
    requires Guard(env, d, Shown(env, d, target), h) && h.m.policy.AdvanceIfNewer? && Shown(env, d, target).Some?
    requires Shown(env, d', target).Some? && Shown(env, d', target).value.publication == h.publication
    requires ReadCommitted(env, d', target, "") == Some(h.payload)
    ensures ShownOrder(env, d, target).Some? && ShownOrder(env, d', target).Some?
    ensures StampLess(ShownOrder(env, d, target).value, ShownOrder(env, d', target).value)
  {
  }

  /** Along every run in which a target is only ever advanced, what its readers get is, between any
      two points, unchanged or strictly newer. */
  lemma {:induction false} RunAdvances(env: Env, s: Sys, events: seq<Event>, target: TargetKey)
    requires Hashes(env) && SerialInv(env, s) && AllEnabled(env, s, events)
    requires AdvancingHold(s, target) && forall i | 0 <= i < |events| :: AdvancingEvent(events[i], target)
    ensures Advanced(env, s.disk, Run(env, s, events).disk, target)
    decreases |events|
  {
    hide SerialInv;
    if events != [] {
      var s' := Step(env, s, events[0]);
      StepAdvances(env, s, events[0], target);
      StepKeepsAdvancing(env, s, events[0], target);
      StepKeepsSerialInv(env, s, events[0]);
      RunAdvances(env, s', events[1..], target);
      AdvancedTransitive(env, s.disk, s'.disk, Run(env, s', events[1..]).disk, target);
    }
  }

  // ---------- no committed value is ever lost ----------

  lemma {:induction false} DescendsFrame(d: Disk, rank: Rank, d': Disk, rank': Rank, from: Option<PointerRef>,
                                         to: PointerRef)
    requires Linked(d, rank) && Linked(d', rank')
    requires forall r | r in d.pointers :: r in d'.pointers && d'.pointers[r] == d.pointers[r]
    requires from.Some? ==> from.value in d.pointers
    ensures Descends(d', rank', from, to) == Descends(d, rank, from, to)
    decreases if from.None? then 0 else rank[from.value] + 1
  {
    if from.Some? {
      assert PredecessorOk(d, rank, from.value) && PredecessorOk(d', rank', from.value);
      DescendsFrame(d, rank, d', rank', d.pointers[from.value].predecessor, to);
    }
  }

  ghost predicate Kept(env: Env, d: Disk, rank: Rank, target: TargetKey)
    requires Inv(env, d, rank)
  {
    (target in d.heads ==> HeadOk(d, target)) && NothingLost(env, d, rank, target, "")
  }

  lemma HeadMoveKeeps(d: Disk, rank: Rank, d': Disk, rank': Rank, target: TargetKey, r: PointerRef)
    requires Linked(d, rank) && Linked(d', rank')
    requires forall q | q in d.pointers :: q in d'.pointers && d'.pointers[q] == d.pointers[q]
    requires target in d.heads ==> HeadOk(d, target)
    requires HeadRef(d', target) == HeadRef(d, target)
             || (target in d'.heads && d'.heads[target] in d'.pointers
                 && d'.pointers[d'.heads[target]].predecessor == HeadRef(d, target))
    requires Descends(d, rank, HeadRef(d, target), r)
    ensures target in d'.heads ==> HeadOk(d', target)
    ensures Descends(d', rank', HeadRef(d', target), r)
  {
    DescendsFrame(d, rank, d', rank', HeadRef(d, target), r);
    assert target in d'.heads ==> HeadOk(d', target);
  }

  /** More pointers, none of them committed, and a head that stays or moves to one that points back to it. */
  lemma PathsLater(env: Env, d: Disk, rank: Rank, d': Disk, rank': Rank, target: TargetKey)
    requires Linked(d, rank) && Linked(d', rank')
    requires forall q | q in d.pointers :: q in d'.pointers && d'.pointers[q] == d.pointers[q]
    requires (target in d.heads ==> HeadOk(d, target)) && (target in d'.heads ==> HeadOk(d', target))
    requires HeadRef(d', target) == HeadRef(d, target)
             || (target in d'.heads && d'.pointers[d'.heads[target]].predecessor == HeadRef(d, target))
    requires forall r | r in d'.pointers && Committed(env, d'.reports, d'.pointers[r].publication, "") ::
               r in d.pointers && Committed(env, d.reports, d.pointers[r].publication, "")
    requires NothingLost(env, d, rank, target, "")
    ensures NothingLost(env, d', rank', target, "")
  {
    hide Committed;
    forall r | r in d'.pointers && r.target == target && Committed(env, d'.reports, d'.pointers[r].publication, "")
      ensures Descends(d', rank', HeadRef(d', target), r)
    {
      HeadMoveKeeps(d, rank, d', rank', target, r);
    }
  }

  lemma WriteExtends(env: Env, d: Disk, w: Write, target: TargetKey)
    requires WriteOk(env, d, w)
    requires w.WriteHead? ==>
               d.pointers[w.head].predecessor == HeadRef(d, w.target) || HeadRef(d, w.target) == Some(w.head)
    ensures var d' := ApplyWrite(d, w);
            && (forall q | q in d.pointers :: q in d'.pointers && d'.pointers[q] == d.pointers[q])
            && (HeadRef(d', target) == HeadRef(d, target)
                || (target in d'.heads && d'.heads[target] in d'.pointers
                    && d'.pointers[d'.heads[target]].predecessor == HeadRef(d, target)))
  {
  }

  lemma WriteKeepsAll(env: Env, s: Sys, u: TargetKey, target: TargetKey)
    requires Hashes(env) && SerialInv(env, s) && u in s.holds && s.holds[u].todo != []
             && Kept(env, s.disk, s.rank, target)
    ensures var w := s.holds[u].todo[0];
            && Inv(env, ApplyWrite(s.disk, w), RankAfter(s.rank, w))
            && Kept(env, ApplyWrite(s.disk, w), RankAfter(s.rank, w), target)
  {
    HashLength(env, s.disk, u, s.holds[u]);
    NextWriteOk(env, s.disk, s.rank, u, s.holds[u]);
    HeldIsUncommitted(env, s.disk, u, s.holds[u]);
    PathsAfterWrite(env, s.disk, s.rank, s.holds[u].todo[0], target);
  }

  lemma PathsAfterWrite(env: Env, d: Disk, rank: Rank, w: Write, target: TargetKey)
    requires Inv(env, d, rank) && WriteOk(env, d, w)
    requires w.WriteHead? ==>
               d.pointers[w.head].predecessor == HeadRef(d, w.target) || HeadRef(d, w.target) == Some(w.head)
    requires w.WritePointer? ==> !Committed(env, d.reports, w.pointer.publication, "")
    requires (target in d.heads ==> HeadOk(d, target)) && NothingLost(env, d, rank, target, "")
    ensures Inv(env, ApplyWrite(d, w), RankAfter(rank, w))
    ensures target in ApplyWrite(d, w).heads ==> HeadOk(ApplyWrite(d, w), target)
    ensures NothingLost(env, ApplyWrite(d, w), RankAfter(rank, w), target, "")
  {
    hide Linked, WriteOk;
    WriteKeepsInv(env, d, rank, w);
    NewCommitted(env, d, w);
    WriteKeepsHead(env, d, w, target);
    WriteExtends(env, d, w, target);
    PathsLater(env, d, rank, ApplyWrite(d, w), RankAfter(rank, w), target);
  }

  lemma WriteKeepsHead(env: Env, d: Disk, w: Write, target: TargetKey)
    requires WriteOk(env, d, w) && (target in d.heads ==> HeadOk(d, target))
    ensures target in ApplyWrite(d, w).heads ==> HeadOk(ApplyWrite(d, w), target)
  {
  }

  lemma NewCommitted(env: Env, d: Disk, w: Write)
    requires w.WritePointer? ==> !Committed(env, d.reports, w.pointer.publication, "")
    ensures forall r | r in ApplyWrite(d, w).pointers
                       && Committed(env, d.reports, ApplyWrite(d, w).pointers[r].publication, "") ::
              r in d.pointers && ApplyWrite(d, w).pointers[r] == d.pointers[r]
  {
  }

  lemma HeldIsUncommitted(env: Env, d: Disk, u: TargetKey, h: Hold)
    requires HoldOk(env, d, u, h)
    ensures !Committed(env, d.reports, h.publication, "")
  {
  }

  /** A pointer that a commit makes visible is the head of its target. */
  lemma NewlyCommittedIsHead(env: Env, s: Sys, scope: Scope, value: Body, r: PointerRef)
    requires SerialInv(env, s) && Enabled(env, s, Commit(scope, value)) && r in s.disk.pointers
    requires Committed(env, CommitReports(env, s.disk.reports, scope, value), s.disk.pointers[r].publication, "")
    requires !Committed(env, s.disk.reports, s.disk.pointers[r].publication, "")
    ensures HeadRef(s.disk, r.target) == Some(r)
  {
    hide HoldOk, Committed, CommitReports, AppendReceipt, Linked, Accounted, ReportsInv;
    assert PointerOk(env, s.disk.versions, r, s.disk.pointers[r]);
    CommitEffect(env, s.disk.reports, scope, value, s.disk.pointers[r].publication, "");
    UnreceiptedIsHeld(env, s.disk, s.holds, scope, value, r);
  }

  lemma CommittedStaysOnPath(env: Env, s: Sys, scope: Scope, value: Body, r: PointerRef, d': Disk)
    requires Hashes(env) && SerialInv(env, s) && Enabled(env, s, Commit(scope, value))
    requires Kept(env, s.disk, s.rank, r.target) && r in s.disk.pointers
    requires d' == s.disk.(reports := CommitReports(env, s.disk.reports, scope, value)) && Inv(env, d', s.rank)
    requires Committed(env, d'.reports, d'.pointers[r].publication, "")
    ensures Descends(d', s.rank, HeadRef(d', r.target), r)
  {
    hide HoldOk, Committed, CommitReports, AppendReceipt, Enabled, ReportsInv, Accounted, PointerOk;
    if !Committed(env, s.disk.reports, s.disk.pointers[r].publication, "") {
      NewlyCommittedIsHead(env, s, scope, value, r);
    }
    DescendsFrame(s.disk, s.rank, d', s.rank, HeadRef(s.disk, r.target), r);
  }

  lemma CommitKeepsAll(env: Env, s: Sys, scope: Scope, value: Body, target: TargetKey)
    requires Hashes(env) && SerialInv(env, s) && Enabled(env, s, Commit(scope, value))
    requires Kept(env, s.disk, s.rank, target)
    ensures var d' := s.disk.(reports := CommitReports(env, s.disk.reports, scope, value));
            Inv(env, d', s.rank) && Kept(env, d', s.rank, target)
  {
    hide Linked, HoldOk, Committed, CommitReports;
    var d' := s.disk.(reports := CommitReports(env, s.disk.reports, scope, value));
    ReportsKeepInv(env, s.disk, s.rank, d'.reports);
    assert target in d'.heads ==> HeadOk(d', target);
    forall r | r in d'.pointers && r.target == target && Committed(env, d'.reports, d'.pointers[r].publication, "")
      ensures Descends(d', s.rank, HeadRef(d', target), r)
    {
      CommittedStaysOnPath(env, s, scope, value, r, d');
    }
  }

  lemma RowKeepsAll(env: Env, s: Sys, scope: Scope, value: Body, target: TargetKey)
    requires SerialInv(env, s) && AppendReceipt(env, s.disk.reports, scope, value).1.Ok?
             && Kept(env, s.disk, s.rank, target)
    ensures var d' := s.disk.(reports := AppendReceipt(env, s.disk.reports, scope, value).0);
            Inv(env, d', s.rank) && Kept(env, d', s.rank, target)
  {
    hide Linked;
    var d' := s.disk.(reports := AppendReceipt(env, s.disk.reports, scope, value).0);
    ReportsKeepInv(env, s.disk, s.rank, d'.reports);
    assert target in d'.heads ==> HeadOk(d', target);
    forall r | r in d'.pointers && r.target == target && Committed(env, d'.reports, d'.pointers[r].publication, "")
      ensures Descends(d', s.rank, HeadRef(d', target), r)
    {
      AppendReceiptIsInvisible(env, s.disk.reports, scope, value, s.disk.pointers[r].publication, "");
      DescendsFrame(s.disk, s.rank, d', s.rank, HeadRef(s.disk, target), r);
    }
  }

  lemma StepKeepsAll(env: Env, s: Sys, e: Event, target: TargetKey)
    requires Hashes(env) && SerialInv(env, s) && Enabled(env, s, e) && Kept(env, s.disk, s.rank, target)
    ensures Inv(env, Step(env, s, e).disk, Step(env, s, e).rank)
    ensures Kept(env, Step(env, s, e).disk, Step(env, s, e).rank, target)
  {
    match e
    case WriteNext(t) => WriteKeepsAll(env, s, t, target);
    case AppendRow(scope, value) => RowKeepsAll(env, s, scope, value, target);
    case Commit(scope, value) => CommitKeepsAll(env, s, scope, value, target);
    case _ => QuietSteps(env, s, e);
  }

  lemma QuietSteps(env: Env, s: Sys, e: Event)
    requires e.Begin? || e.Crash?
    ensures Step(env, s, e).disk == s.disk && Step(env, s, e).rank == s.rank
  {
  }

  /** Along every run, every pointer ever committed stays on the predecessor path readers walk. */
  lemma {:induction false} RunLosesNothing(env: Env, s: Sys, events: seq<Event>, target: TargetKey)
    requires Hashes(env) && SerialInv(env, s) && AllEnabled(env, s, events) && Kept(env, s.disk, s.rank, target)
    ensures SerialInv(env, Run(env, s, events)) && Kept(env, Run(env, s, events).disk, Run(env, s, events).rank, target)
    decreases |events|
  {
    if events != [] {
      StepKeepsSerialInv(env, s, events[0]);
      StepKeepsAll(env, s, events[0], target);
      RunLosesNothing(env, Step(env, s, events[0]), events[1..], target);
    }
  }

  /** From the empty store, whatever is interleaved: the protocol invariant holds, and no pointer ever
      committed is lost to readers. */
  lemma EveryRunFromTheEmptyStore(env: Env, events: seq<Event>, target: TargetKey)
    requires Hashes(env) && AllEnabled(env, Sys(EMPTY_DISK, map[], map[]), events)
    ensures var s := Run(env, Sys(EMPTY_DISK, map[], map[]), events);
            SerialInv(env, s) && Kept(env, s.disk, s.rank, target)
  {
    NothingHeldInitially(env);
    RunLosesNothing(env, Sys(EMPTY_DISK, map[], map[]), events, target);
  }
}
