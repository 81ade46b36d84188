/** Publications under the target locks alone (autoresearch/common/published_state.py, target_locks, and
    autoresearch/trace/publication.py, execute_publication): a crash gives the target free, whatever was staged
    there. Which runs lose a committed value. */
module PublicationLocks {
  import opened Wrappers
  import opened CommitChain
  import opened PublishedState
  import opened StoreInvariant
  import opened Staging
  import opened Committing
  import opened RetryHead
  import opened PublicationProtocol
  import opened PublicationHistory

  /** A running staging: its writes still to make, and whether it found a pointer of its own. */
  datatype Live = Live(hold: Hold, retry: bool)

  /** The store, and the stagings whose process holds the lock of the target. */
  datatype Store = Store(disk: Disk, rank: Rank, live: map<TargetKey, Live>)

  // ---------- steps ----------

  /** A publication takes the lock of a target nobody holds. Its receipt commits what it has staged, now or
      before a crash, while no other process holds the lock of one of its targets. */
  ghost predicate Enabled(env: Env, s: Store, e: Event) {
    match e
    case Begin(m, payload, p, stager) =>
      && Request(env, m, p) && Scoped(p) && KeyOf(p) !in s.disk.reports.receipts && m.target !in s.live
    case WriteNext(t) => t in s.live && s.live[t].hold.todo != []
    case Crash(t) => t in s.live
    case AppendRow(scope, value) => AppendReceipt(env, s.disk.reports, scope, value).1.Ok?
    case Commit(scope, value) =>
      && AppendReceipt(env, s.disk.reports, scope, value).1.Ok?
      && ReceiptRef(scope, value.runId, value.publicationId) !in s.disk.reports.receipts
      && (forall r | r in s.disk.pointers && r.runId == value.runId && r.publicationId == value.publicationId ::
            About(s.disk.pointers[r].publication, scope, value)
            && (r.target in s.live ==> Held(s.live[r.target].hold, value)))
      && (forall t | t in s.live && Held(s.live[t].hold, value) :: s.live[t].hold.todo == [])
  }

  function Step(env: Env, s: Store, e: Event): Store {
    match e
    case Begin(m, payload, p, stager) =>
      var plan := PlanStage(env, s.disk, m, payload, p, stager);
      if plan.Ok?
      then
        var l := Live(Hold(m, payload, p, plan.value.writes), RefOf(m.target, p) in s.disk.pointers);
        s.(live := s.live[m.target := l])
      else s
    case WriteNext(t) =>
      if t in s.live && s.live[t].hold.todo != [] then
        var h := s.live[t].hold;
        Store(ApplyWrite(s.disk, h.todo[0]), RankAfter(s.rank, h.todo[0]),
              s.live[t := s.live[t].(hold := h.(todo := h.todo[1..]))])
      else s
    case Crash(t) => s.(live := map u | u in s.live && u != t :: s.live[u])
    case AppendRow(scope, value) =>
      s.(disk := s.disk.(reports := AppendReceipt(env, s.disk.reports, scope, value).0))
    case Commit(scope, value) =>
      Store(s.disk.(reports := CommitReports(env, s.disk.reports, scope, value)), s.rank,
            map u | u in s.live && !Held(s.live[u].hold, value) :: s.live[u])
  }

  // ---------- the invariant ----------

  /** What a running staging still has to write fits the store; unless it is a retry, its head write goes one
      pointer on from the head. */
  ghost predicate LiveOk(env: Env, d: Disk, target: TargetKey, l: Live) {
    var h := l.hold;
    var ref, version := RefOf(target, h.publication), VersionRef(target, h.m.afterHash);
    && h.m.target == target && Request(env, h.m, h.publication) && Scoped(h.publication)
    && env.sha(h.payload) == h.m.afterHash && TodoOk(env, d, target, h)
    && (h.todo != [] ==> KeyOf(h.publication) !in d.reports.receipts)
    && (|h.todo| > 1 ==> !l.retry && (version in d.versions ==> d.versions[version] == h.payload))
    && (|h.todo| == 1 && !l.retry ==> ref in d.pointers && d.pointers[ref].predecessor == HeadRef(d, target))
  }

  ghost predicate LockInv(env: Env, s: Store) {
    && Inv(env, s.disk, s.rank) && ReportsInv(env, s.disk.reports)
    && (forall r | r in s.disk.pointers :: Scoped(s.disk.pointers[r].publication))
    && (forall t | t in s.live :: LiveOk(env, s.disk, t, s.live[t]))
  }

  lemma LiveFrame(env: Env, d: Disk, d': Disk, target: TargetKey, l: Live)
    requires LiveOk(env, d, target, l) && SameFiles(d, d', target)
    requires l.hold.todo != [] ==> KeyOf(l.hold.publication) !in d'.reports.receipts
    ensures LiveOk(env, d', target, l)
  {
  }

  lemma BegunLiveOk(env: Env, d: Disk, m: Mutation, payload: Bytes, p: Publication, stager: Scope, l: Live)
    requires Request(env, m, p) && Scoped(p) && KeyOf(p) !in d.reports.receipts
    requires PlanStage(env, d, m, payload, p, stager).Ok?
    requires l == Live(Hold(m, payload, p, PlanStage(env, d, m, payload, p, stager).value.writes),
             RefOf(m.target, p) in d.pointers)
    ensures LiveOk(env, d, m.target, l)
  {
    if l.hold.todo != [] {
      PlanIsGuarded(env, d, m, payload, p, stager);
    }
  }

  // ---------- one write ----------

  lemma NextLiveWrite(env: Env, d: Disk, rank: Rank, target: TargetKey, l: Live)
    requires Hashes(env) && Inv(env, d, rank) && LiveOk(env, d, target, l) && l.hold.todo != []
    ensures WriteOk(env, d, l.hold.todo[0])
    ensures l.hold.todo[0].WriteHead? ==> l.hold.todo == [WriteHead(target, RefOf(target, l.hold.publication))]
    ensures l.hold.todo[0].WritePointer? ==> l.hold.todo[0].pointer.publication == l.hold.publication
  {
    hide Inv;
    var h := l.hold;
    if h.todo[0].WritePointer? {
      assert |h.m.afterHash| == 64;
      NewPointerOk(env, d, rank, h.m, h.publication);
    }
  }

  lemma OwnLiveAfterWrite(env: Env, d: Disk, target: TargetKey, l: Live, d': Disk, l': Live)
    requires LiveOk(env, d, target, l) && l.hold.todo != []
    requires d' == ApplyWrite(d, l.hold.todo[0]) && l' == l.(hold := l.hold.(todo := l.hold.todo[1..]))
    ensures LiveOk(env, d', target, l')
  {
    var h := l.hold;
    var ref, version := RefOf(target, h.publication), VersionRef(target, h.m.afterHash);
    var pointer := NewPointer(env, target, h.m.afterHash, HeadRef(d, target), h.publication);
    var tail := [WritePointer(ref, pointer), WriteHead(target, ref)];
    assert tail[1..] == [WriteHead(target, ref)] && [WriteHead(target, ref)][1..] == [];
    assert ([WriteVersion(version, h.payload)] + tail)[1..] == tail;
    assert |h.todo| > 1 <==> h.todo[0].WriteVersion? || h.todo[0].WritePointer?;
  }

  lemma WriteKeepsLockInv(env: Env, s: Store, t: TargetKey)
    requires Hashes(env) && LockInv(env, s) && t in s.live && s.live[t].hold.todo != []
    ensures LockInv(env, Step(env, s, WriteNext(t)))
  {
    hide Inv, TodoOk, Request;
    var s', l := Step(env, s, WriteNext(t)), s.live[t];
    NextLiveWrite(env, s.disk, s.rank, t, l);
    WriteKeepsInv(env, s.disk, s.rank, l.hold.todo[0]);
    forall u | u in s'.live ensures LiveOk(env, s'.disk, u, s'.live[u]) {
      if u == t {
        OwnLiveAfterWrite(env, s.disk, t, l, s'.disk, s'.live[t]);
      } else {
        WriteIsLocal(env, s.disk, t, l.hold, u);
        LiveFrame(env, s.disk, s'.disk, u, s.live[u]);
      }
    }
  }

  lemma LiveAfterCommit(env: Env, d: Disk, scope: Scope, value: Body, u: TargetKey, l: Live)
    requires ReportsInv(env, d.reports) && AppendReceipt(env, d.reports, scope, value).1.Ok?
    requires ReceiptRef(scope, value.runId, value.publicationId) !in d.reports.receipts
    requires LiveOk(env, d, u, l) && !Held(l.hold, value)
    ensures LiveOk(env, d.(reports := CommitReports(env, d.reports, scope, value)), u, l)
  {
    CommittedKeys(env, d.reports, scope, value);
    LiveFrame(env, d, d.(reports := CommitReports(env, d.reports, scope, value)), u, l);
  }

  lemma CommitKeepsLockInv(env: Env, s: Store, scope: Scope, value: Body)
    requires LockInv(env, s) && Enabled(env, s, Commit(scope, value))
    ensures LockInv(env, Step(env, s, Commit(scope, value)))
  {
    hide Inv, LiveOk, CommitReports, AppendReceipt;
    var s' := Step(env, s, Commit(scope, value));
    CommitEffect(env, s.disk.reports, scope, value, Publication("", "", "", "", None), "");
    ReportsKeepInv(env, s.disk, s.rank, s'.disk.reports);
    forall u | u in s'.live ensures LiveOk(env, s'.disk, u, s'.live[u]) {
      LiveAfterCommit(env, s.disk, scope, value, u, s.live[u]);
    }
  }

  lemma LiveAfterRow(env: Env, d: Disk, scope: Scope, value: Body, u: TargetKey, l: Live)
    requires LiveOk(env, d, u, l)
    ensures LiveOk(env, d.(reports := AppendReceipt(env, d.reports, scope, value).0), u, l)
  {
    LiveFrame(env, d, d.(reports := AppendReceipt(env, d.reports, scope, value).0), u, l);
  }

  lemma RowKeepsLockInv(env: Env, s: Store, scope: Scope, value: Body)
    requires LockInv(env, s) && Enabled(env, s, AppendRow(scope, value))
    ensures LockInv(env, Step(env, s, AppendRow(scope, value)))
  {
    hide Inv, LiveOk, AppendReceipt;
    var s' := Step(env, s, AppendRow(scope, value));
    AppendReceiptIsInvisible(env, s.disk.reports, scope, value, Publication("", "", "", "", None), "");
    ReportsKeepInv(env, s.disk, s.rank, s'.disk.reports);
    forall u | u in s'.live ensures LiveOk(env, s'.disk, u, s'.live[u]) {
      LiveAfterRow(env, s.disk, scope, value, u, s.live[u]);
    }
  }

  lemma StepKeepsLockInv(env: Env, s: Store, e: Event)
    requires Hashes(env) && LockInv(env, s) && Enabled(env, s, e)
    ensures LockInv(env, Step(env, s, e))
  {
    hide Inv, ReportsInv, LiveOk;
    match e
    case Begin(m, payload, p, stager) =>
      if PlanStage(env, s.disk, m, payload, p, stager).Ok? {
        BegunLiveOk(env, s.disk, m, payload, p, stager, Step(env, s, e).live[m.target]);
      }
    case WriteNext(t) => WriteKeepsLockInv(env, s, t);
    case Crash(_) =>
    case AppendRow(scope, value) => RowKeepsLockInv(env, s, scope, value);
    case Commit(scope, value) => CommitKeepsLockInv(env, s, scope, value);
  }

  // ---------- which steps lose a committed value ----------

  /** The pointer readers see, or nothing, is on the predecessor path of a pointer. */
  ghost predicate CoversShown(env: Env, d: Disk, rank: Rank, ref: PointerRef)
    requires Linked(d, rank) && ref in d.pointers
  {
    var shown := Shown(env, d, ref.target);
    shown.Some? ==> Descends(d, rank, Some(ref), RefOf(ref.target, shown.value.publication))
  }

  /** A retry puts the head on its own pointer although readers see one that is not behind it; or a receipt
      commits a pointer that is no longer on the path of the head. */
  ghost predicate Harms(env: Env, s: Store, e: Event, target: TargetKey)
    requires LockInv(env, s) && Enabled(env, s, e)
  {
    match e
    case WriteNext(t) =>
      var l := s.live[t];
      && t == target && l.retry && l.hold.todo[0].WriteHead? && l.hold.todo[0].head in s.disk.pointers
      && !CoversShown(env, s.disk, s.rank, l.hold.todo[0].head)
    case Commit(scope, value) =>
      var ref := PointerRef(target, value.runId, value.publicationId);
      ref in s.disk.pointers && !OnPath(s.disk, s.rank, ref)
    case _ => false
  }

  /** A pointer is on the path that readers of its target walk. */
  ghost predicate OnPath(d: Disk, rank: Rank, ref: PointerRef)
    requires Linked(d, rank)
  {
    && (ref.target in d.heads ==> d.heads[ref.target] in d.pointers)
    && Descends(d, rank, HeadRef(d, ref.target), ref)
  }

  lemma {:induction false} DescendsTransitive(d: Disk, rank: Rank, a: Option<PointerRef>, b: PointerRef, c: PointerRef)
    requires Linked(d, rank) && (a.Some? ==> a.value in d.pointers) && b in d.pointers
    requires Descends(d, rank, a, b) && Descends(d, rank, Some(b), c)
    ensures Descends(d, rank, a, c)
    decreases if a.None? then 0 else rank[a.value] + 1
  {
    if a.value != b {
      assert PredecessorOk(d, rank, a.value);
      DescendsTransitive(d, rank, d.pointers[a.value].predecessor, b, c);
    }
  }

  /** Every committed pointer of the target is behind the shown one. */
  lemma CommittedIsBehindShown(env: Env, d: Disk, rank: Rank, target: TargetKey, r: PointerRef)
    requires Hashes(env) && Inv(env, d, rank) && Kept(env, d, rank, target)
    requires r in d.pointers && r.target == target && Committed(env, d.reports, d.pointers[r].publication, "")
    ensures var shown := Shown(env, d, target);
            && shown.Some? && RefOf(target, shown.value.publication) in d.pointers
            && Descends(d, rank, Some(RefOf(target, shown.value.publication)), r)
  {
    ReaderSeesFirstCommitted(env, d, rank, target, "");
    FirstCommittedDescends(env, d, rank, HeadRef(d, target), target, r, "");
  }

  /** What is shown is committed and on the path. */
  lemma ShownIsOnPath(env: Env, d: Disk, rank: Rank, target: TargetKey)
    requires Hashes(env) && Inv(env, d, rank)
    ensures var shown := Shown(env, d, target);
            shown.Some? ==>
              var c := RefOf(target, shown.value.publication);
              c in d.pointers && Committed(env, d.reports, d.pointers[c].publication, "") && OnPath(d, rank, c)
  {
    CommittedBytesAreReadable(env, d, rank, target, "");
    ReaderSeesFirstCommitted(env, d, rank, target, "");
    if HeadRef(d, target).Some? {
      FirstCommittedDescends(env, d, rank, HeadRef(d, target), target, HeadRef(d, target).value, "");
    }
  }

  lemma HeadWriteKeeps(env: Env, d: Disk, rank: Rank, ref: PointerRef, d': Disk, r: PointerRef)
    requires Hashes(env) && Inv(env, d, rank) && Kept(env, d, rank, ref.target) && ref in d.pointers
    requires d' == ApplyWrite(d, WriteHead(ref.target, ref)) && Inv(env, d', rank) && CoversShown(env, d, rank, ref)
    requires r in d.pointers && r.target == ref.target && Committed(env, d.reports, d.pointers[r].publication, "")
    ensures Descends(d', rank, HeadRef(d', ref.target), r)
  {
    hide Kept, Shown, Committed, PointerOk;
    CommittedIsBehindShown(env, d, rank, ref.target, r);
    DescendsTransitive(d, rank, Some(ref), RefOf(ref.target, Shown(env, d, ref.target).value.publication), r);
    DescendsFrame(d, rank, d', rank, Some(ref), r);
  }

  lemma HeadWriteCovers(env: Env, d: Disk, rank: Rank, ref: PointerRef, d': Disk)
    requires Hashes(env) && Inv(env, d, rank) && ref in d.pointers
    requires d' == ApplyWrite(d, WriteHead(ref.target, ref)) && Inv(env, d', rank) && Kept(env, d', rank, ref.target)
    ensures CoversShown(env, d, rank, ref)
  {
    hide Shown, Committed, PointerOk;
    var shown := Shown(env, d, ref.target);
    ShownIsOnPath(env, d, rank, ref.target);
    if shown.Some? {
      var c := RefOf(ref.target, shown.value.publication);
      assert Descends(d', rank, HeadRef(d', ref.target), c);
      DescendsFrame(d, rank, d', rank, Some(ref), c);
    }
  }

  /** A head write loses nothing exactly when what readers see is behind the new head. */
  lemma HeadWriteKeepsExactlyWhen(env: Env, d: Disk, rank: Rank, ref: PointerRef, d': Disk)
    requires Hashes(env) && Inv(env, d, rank) && Kept(env, d, rank, ref.target) && ref in d.pointers
    requires d' == ApplyWrite(d, WriteHead(ref.target, ref)) && Inv(env, d', rank)
    ensures Kept(env, d', rank, ref.target) <==> CoversShown(env, d, rank, ref)
  {
    hide Linked, Shown, Committed, PointerOk, CoversShown;
    if CoversShown(env, d, rank, ref) {
      forall r | r in d'.pointers && r.target == ref.target
                 && Committed(env, d'.reports, d'.pointers[r].publication, "")
        ensures Descends(d', rank, HeadRef(d', ref.target), r)
      {
        HeadWriteKeeps(env, d, rank, ref, d', r);
      }
    }
    if Kept(env, d', rank, ref.target) {
      HeadWriteCovers(env, d, rank, ref, d');
    }
  }

  /** A staging that is no retry goes one pointer on from the head, so it loses nothing. */
  lemma FreshHeadCoversShown(env: Env, d: Disk, rank: Rank, ref: PointerRef)
    requires Hashes(env) && Inv(env, d, rank) && ref in d.pointers
             && d.pointers[ref].predecessor == HeadRef(d, ref.target)
    ensures CoversShown(env, d, rank, ref)
  {
    ShownIsOnPath(env, d, rank, ref.target);
  }

  /** A write that does not move the head of the target. */
  lemma OtherWriteKeeps(env: Env, d: Disk, rank: Rank, t: TargetKey, l: Live, target: TargetKey)
    requires Hashes(env) && Inv(env, d, rank) && LiveOk(env, d, t, l) && l.hold.todo != []
    requires !(l.hold.todo[0].WriteHead? && t == target) && Kept(env, d, rank, target)
    ensures var w := l.hold.todo[0];
            Inv(env, ApplyWrite(d, w), RankAfter(rank, w)) && Kept(env, ApplyWrite(d, w), RankAfter(rank, w), target)
  {
    hide Linked, Committed, PointerOk, TodoOk;
    var w := l.hold.todo[0];
    NextLiveWrite(env, d, rank, t, l);
    WriteKeepsInv(env, d, rank, w);
    assert HeadRef(ApplyWrite(d, w), target) == HeadRef(d, target);
    LiveIsUncommitted(env, d, t, l);
    NewCommitted(env, d, w);
    WriteKeepsHead(env, d, w, target);
    PathsLater(env, d, rank, ApplyWrite(d, w), RankAfter(rank, w), target);
  }

  lemma LiveHeadWriteHarms(env: Env, d: Disk, rank: Rank, target: TargetKey, l: Live)
    requires Hashes(env) && Inv(env, d, rank) && LiveOk(env, d, target, l) && l.hold.todo != []
    requires l.hold.todo[0].WriteHead? && Kept(env, d, rank, target)
    ensures var w := l.hold.todo[0];
            && w.head in d.pointers && Inv(env, ApplyWrite(d, w), RankAfter(rank, w))
            && (Kept(env, ApplyWrite(d, w), RankAfter(rank, w), target)
                <==> !(l.retry && !CoversShown(env, d, rank, w.head)))
  {
    hide Linked, Committed, PointerOk, CoversShown, Kept;
    var w := l.hold.todo[0];
    NextLiveWrite(env, d, rank, target, l);
    WriteKeepsInv(env, d, rank, w);
    HeadWriteKeepsExactlyWhen(env, d, rank, w.head, ApplyWrite(d, w));
    if !l.retry {
      FreshHeadCoversShown(env, d, rank, w.head);
    }
  }

  lemma WriteHarms(env: Env, s: Store, t: TargetKey, target: TargetKey)
    requires Hashes(env) && LockInv(env, s) && Enabled(env, s, WriteNext(t)) && Kept(env, s.disk, s.rank, target)
    ensures var s' := Step(env, s, WriteNext(t));
            && Inv(env, s'.disk, s'.rank)
            && (Kept(env, s'.disk, s'.rank, target) <==> !Harms(env, s, WriteNext(t), target))
  {
    hide Inv, LiveOk, CoversShown, Kept;
    var l := s.live[t];
    if l.hold.todo[0].WriteHead? && t == target {
      LiveHeadWriteHarms(env, s.disk, s.rank, target, l);
    } else {
      OtherWriteKeeps(env, s.disk, s.rank, t, l, target);
    }
  }

  lemma LiveIsUncommitted(env: Env, d: Disk, t: TargetKey, l: Live)
    requires LiveOk(env, d, t, l) && l.hold.todo != []
    ensures !Committed(env, d.reports, l.hold.publication, "")
  {
  }

  /** A commit loses nothing exactly when the pointer it commits is on the path. */
  lemma CommitHarms(env: Env, s: Store, scope: Scope, value: Body, target: TargetKey)
    requires Hashes(env) && LockInv(env, s) && Enabled(env, s, Commit(scope, value))
             && Kept(env, s.disk, s.rank, target)
    ensures var s' := Step(env, s, Commit(scope, value));
            Inv(env, s'.disk, s'.rank)
            && (Kept(env, s'.disk, s'.rank, target) <==> !Harms(env, s, Commit(scope, value), target))
  {
    hide Linked, Committed;
    var d, s', ref := s.disk, Step(env, s, Commit(scope, value)), PointerRef(target, value.runId, value.publicationId);
    ReportsKeepInv(env, d, s.rank, s'.disk.reports);
    forall r | r in d.pointers && r.target == target
      ensures Committed(env, s'.disk.reports, d.pointers[r].publication, "")
              <==> r == ref || Committed(env, d.reports, d.pointers[r].publication, "")
      ensures Descends(s'.disk, s.rank, HeadRef(s'.disk, target), r) == Descends(d, s.rank, HeadRef(d, target), r)
    {
      CommittedByCommit(env, d, s.rank, scope, value, r);
      DescendsFrame(d, s.rank, s'.disk, s.rank, HeadRef(d, target), r);
    }
    CommitKeepsExactlyWhen(env, d, s.rank, s'.disk, target, ref);
  }

  lemma CommittedByCommit(env: Env, d: Disk, rank: Rank, scope: Scope, value: Body, r: PointerRef)
    requires Inv(env, d, rank) && ReportsInv(env, d.reports) && AppendReceipt(env, d.reports, scope, value).1.Ok?
    requires ReceiptRef(scope, value.runId, value.publicationId) !in d.reports.receipts && r in d.pointers
    requires r.runId == value.runId && r.publicationId == value.publicationId
             ==> About(d.pointers[r].publication, scope, value)
    requires Scoped(d.pointers[r].publication)
    ensures Committed(env, CommitReports(env, d.reports, scope, value), d.pointers[r].publication, "")
            <==> (r.runId == value.runId && r.publicationId == value.publicationId)
                 || Committed(env, d.reports, d.pointers[r].publication, "")
  {
    assert PointerOk(env, d.versions, r, d.pointers[r]);
    CommitEffect(env, d.reports, scope, value, d.pointers[r].publication, "");
  }

  lemma CommitKeepsExactlyWhen(env: Env, d: Disk, rank: Rank, d': Disk, target: TargetKey, ref: PointerRef)
    requires Inv(env, d, rank) && Inv(env, d', rank) && Kept(env, d, rank, target) && ref.target == target
    requires d' == d.(reports := d'.reports)
    requires forall r | r in d.pointers && r.target == target ::
               && (Committed(env, d'.reports, d.pointers[r].publication, "")
                   <==> r == ref || Committed(env, d.reports, d.pointers[r].publication, ""))
               && Descends(d', rank, HeadRef(d', target), r) == Descends(d, rank, HeadRef(d, target), r)
    ensures Kept(env, d', rank, target) <==> (ref in d.pointers ==> OnPath(d, rank, ref))
  {
    assert target in d.heads ==> HeadOk(d, target) && HeadOk(d', target);
  }

  /** From a store that has lost nothing, a step loses something if and only if it harms. */
  lemma StepLosesExactlyWhen(env: Env, s: Store, e: Event, target: TargetKey)
    requires Hashes(env) && LockInv(env, s) && Enabled(env, s, e) && Kept(env, s.disk, s.rank, target)
    ensures var s' := Step(env, s, e);
            Inv(env, s'.disk, s'.rank) && (Kept(env, s'.disk, s'.rank, target) <==> !Harms(env, s, e, target))
  {
    hide Inv;
    match e
    case WriteNext(t) => WriteHarms(env, s, t, target);
    case Commit(scope, value) => CommitHarms(env, s, scope, value, target);
    case AppendRow(scope, value) => RowLosesNothing(env, s, scope, value, target);
    case _ =>
  }

  lemma RowLosesNothing(env: Env, s: Store, scope: Scope, value: Body, target: TargetKey)
    requires LockInv(env, s) && Enabled(env, s, AppendRow(scope, value)) && Kept(env, s.disk, s.rank, target)
    ensures var s' := Step(env, s, AppendRow(scope, value));
            Inv(env, s'.disk, s'.rank) && Kept(env, s'.disk, s'.rank, target)
  {
    var d, s' := s.disk, Step(env, s, AppendRow(scope, value));
    ReportsKeepInv(env, d, s.rank, s'.disk.reports);
    forall r | r in d.pointers ensures Committed(env, s'.disk.reports, d.pointers[r].publication, "")
                                    == Committed(env, d.reports, d.pointers[r].publication, "") {
      AppendReceiptIsInvisible(env, d.reports, scope, value, d.pointers[r].publication, "");
    }
    assert target in d.heads ==> HeadOk(s'.disk, target);
    PathsLater(env, d, s.rank, s'.disk, s.rank, target);
  }

  // ---------- whole runs ----------

  function Run(env: Env, s: Store, events: seq<Event>): Store
    decreases |events|
  {
    if events == [] then s else Run(env, Step(env, s, events[0]), events[1..])
  }

  ghost predicate AllEnabled(env: Env, s: Store, events: seq<Event>)
    decreases |events|
  {
    events == [] || (Enabled(env, s, events[0]) && AllEnabled(env, Step(env, s, events[0]), events[1..]))
  }

  /** At no point of the run is a committed pointer of the target off the path its readers walk. */
  ghost predicate NeverLoses(env: Env, s: Store, events: seq<Event>, target: TargetKey)
    decreases |events|
  {
    && Inv(env, s.disk, s.rank) && Kept(env, s.disk, s.rank, target)
    && (events != [] ==> NeverLoses(env, Step(env, s, events[0]), events[1..], target))
  }

  ghost predicate NoHarm(env: Env, s: Store, events: seq<Event>, target: TargetKey)
    requires Hashes(env) && LockInv(env, s) && AllEnabled(env, s, events)
    decreases |events|
  {
    events != [] ==>
      && !Harms(env, s, events[0], target)
      && (StepKeepsLockInv(env, s, events[0]);
          NoHarm(env, Step(env, s, events[0]), events[1..], target))
  }

  /** Under the locks alone, a run never loses a committed value of a target if and only if every retry that resets
      its head does so while the shown pointer is behind the retried one, and every receipt finds the pointer
      it commits on the path. */
  lemma {:induction false} RunNeverLosesExactlyWhen(env: Env, s: Store, events: seq<Event>, target: TargetKey)
    requires Hashes(env) && LockInv(env, s) && AllEnabled(env, s, events) && Kept(env, s.disk, s.rank, target)
    ensures NeverLoses(env, s, events, target) <==> NoHarm(env, s, events, target)
    decreases |events|
  {
    if events != [] {
      var s' := Step(env, s, events[0]);
      StepKeepsLockInv(env, s, events[0]);
      StepLosesExactlyWhen(env, s, events[0], target);
      if Kept(env, s'.disk, s'.rank, target) {
        RunNeverLosesExactlyWhen(env, s', events[1..], target);
      }
    }
  }

  /** The same from the empty store. */
  lemma RunFromTheEmptyStore(env: Env, events: seq<Event>, target: TargetKey)
    requires Hashes(env) && AllEnabled(env, Store(EMPTY_DISK, map[], map[]), events)
    ensures LockInv(env, Store(EMPTY_DISK, map[], map[]))
    ensures NeverLoses(env, Store(EMPTY_DISK, map[], map[]), events, target)
        <==> NoHarm(env, Store(EMPTY_DISK, map[], map[]), events, target)
  {
    EmptyDiskIsOk(env);
    RunNeverLosesExactlyWhen(env, Store(EMPTY_DISK, map[], map[]), events, target);
  }
}
