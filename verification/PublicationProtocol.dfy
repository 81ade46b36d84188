/** Publications of any number of runs interleaving on one store, write by write, with crashes
    (autoresearch/trace/publication.py, execute_publication). A target stays reserved by the
    publication that staged it until that publication commits. */
module PublicationProtocol {
  import opened Wrappers
  import opened CommitChain
  import opened PublishedState
  import opened StoreInvariant
  import opened Staging
  import opened Committing
  import opened RetryHead

  /** A publication's hold on a target, and the writes it has still to make there. */
  datatype Hold = Hold(m: Mutation, payload: Bytes, publication: Publication, todo: seq<Write>)

  datatype Sys = Sys(disk: Disk, rank: Rank, holds: map<TargetKey, Hold>)

  datatype Event =
    | Begin(m: Mutation, payload: Bytes, publication: Publication, stager: Scope)
    | WriteNext(target: TargetKey)
    | Crash(target: TargetKey)
    | AppendRow(scope: Scope, value: Body)
    | Commit(scope: Scope, value: Body)

  /** `execute_publication` always records the name of its own reports root. */
  predicate Scoped(p: Publication) {
    p.scope.Some? && p.scope.value != "" && SimpleName(p.scope.value)
  }

  function KeyOf(p: Publication): ReceiptRef
    requires p.scope.Some?
  {
    ReceiptRef(p.scope.value, p.runId, p.publicationId)
  }

  predicate About(p: Publication, scope: Scope, value: Body) {
    && p.scope == Some(scope) && p.engine == value.engine && p.runId == value.runId
    && p.publicationId == value.publicationId && p.bundleHash == value.bundleHash
  }

  /** The pointer every reader sees; readers of all reports roots agree (`ReadersAgree`). */
  function Shown(env: Env, d: Disk, target: TargetKey): Option<Pointer> {
    CommittedPointer(env, d, target, "")
  }

  // ---------- steps ----------

  ghost predicate Enabled(env: Env, s: Sys, e: Event) {
    match e
    case Begin(m, payload, p, stager) =>
      && Request(env, m, p) && Scoped(p)
      // a publication whose receipt exists returns before it stages anything
      && KeyOf(p) !in s.disk.reports.receipts
      // the target is free and new to the publication, or held for this very mutation
      && (if m.target in s.holds
          then var h := s.holds[m.target]; h.m == m && h.payload == payload && h.publication == p
          else RefOf(m.target, p) !in s.disk.pointers)
    case WriteNext(t) => t in s.holds && s.holds[t].todo != []
    case Crash(t) => t in s.holds
    case AppendRow(scope, value) => AppendReceipt(env, s.disk.reports, scope, value).1.Ok?
    case Commit(scope, value) =>
      && AppendReceipt(env, s.disk.reports, scope, value).1.Ok?
      && scope != "" && SimpleName(scope)
      && ReceiptRef(scope, value.runId, value.publicationId) !in s.disk.reports.receipts
      && (forall r | r in s.disk.pointers && r.runId == value.runId && r.publicationId == value.publicationId ::
            About(s.disk.pointers[r].publication, scope, value))
      // every target the publication holds has been staged to the end
      && (forall t | t in s.holds && Held(s.holds[t], value) ::
            About(s.holds[t].publication, scope, value) && HeadRef(s.disk, t) == Some(RefOf(t, s.holds[t].publication)))
  }

  predicate Held(h: Hold, value: Body) {
    h.publication.runId == value.runId && h.publication.publicationId == value.publicationId
  }

  function Step(env: Env, s: Sys, e: Event): Sys {
    match e
    case Begin(m, payload, p, stager) =>
      var plan := PlanStage(env, s.disk, m, payload, p, stager);
      if plan.Ok? && plan.value.writes != []
      then s.(holds := s.holds[m.target := Hold(m, payload, p, plan.value.writes)])
      else s
    case WriteNext(t) =>
      if t in s.holds && s.holds[t].todo != [] then
        var h := s.holds[t];
        Sys(ApplyWrite(s.disk, h.todo[0]), RankAfter(s.rank, h.todo[0]), s.holds[t := h.(todo := h.todo[1..])])
      else s
    case Crash(t) =>
      if t in s.holds then s.(holds := s.holds[t := s.holds[t].(todo := [])]) else s
    case AppendRow(scope, value) =>
      s.(disk := s.disk.(reports := AppendReceipt(env, s.disk.reports, scope, value).0))
    case Commit(scope, value) =>
      Sys(s.disk.(reports := CommitReports(env, s.disk.reports, scope, value)), s.rank,
          map t | t in s.holds && !Held(s.holds[t], value) :: s.holds[t])
  }

  // ---------- the invariant ----------

  /** Why the held mutation may replace what is shown. */
  predicate Guard(env: Env, d: Disk, current: Option<Pointer>, h: Hold) {
    && BeforeHash(current, h.m) != Some(h.m.afterHash)
    && (current.Some? ==>
          if h.m.policy.AdvanceIfNewer?
          then VersionBytes(env, d, current.value).Some? && !Superseded(env, d, current.value, h.payload, h.publication)
          else Some(current.value.afterHash) == h.m.expectedBefore)
  }

  /** How far a staging has come: everything to do, the pointer next, the head next, or nothing. */
  predicate TodoOk(env: Env, d: Disk, target: TargetKey, h: Hold) {
    var ref, version := RefOf(target, h.publication), VersionRef(target, h.m.afterHash);
    var pointer := NewPointer(env, target, h.m.afterHash, HeadRef(d, target), h.publication);
    var tail := [WritePointer(ref, pointer), WriteHead(target, ref)];
    || h.todo == []
    || (h.todo == [WriteHead(target, ref)] && ref in d.pointers)
    || (ref !in d.pointers && version in d.versions && h.todo == tail)
    || (ref !in d.pointers && version !in d.versions && h.todo == [WriteVersion(version, h.payload)] + tail)
  }

  ghost predicate HoldOk(env: Env, d: Disk, target: TargetKey, h: Hold) {
    var ref, version := RefOf(target, h.publication), VersionRef(target, h.m.afterHash);
    && h.m.target == target && Request(env, h.m, h.publication) && Scoped(h.publication)
    && env.sha(h.payload) == h.m.afterHash
    && KeyOf(h.publication) !in d.reports.receipts
    && (version in d.versions ==> d.versions[version] == h.payload)
    && Guard(env, d, Shown(env, d, target), h)
    && (ref in d.pointers ==>
          SamePending(d, d.pointers[ref], h.m, h.payload, h.publication) && HeadUndisturbed(d, h.m, h.publication))
    && TodoOk(env, d, target, h)
  }

  /** A publication with a pointer at `r` is receipted or holds the target. */
  predicate Owned(reports: Reports, holds: map<TargetKey, Hold>, r: PointerRef, p: Publication) {
    Scoped(p) && (KeyOf(p) in reports.receipts
                  || (r.target in holds && RefOf(r.target, holds[r.target].publication) == r))
  }

  ghost predicate Accounted(d: Disk, holds: map<TargetKey, Hold>) {
    forall r | r in d.pointers :: Owned(d.reports, holds, r, d.pointers[r].publication)
  }

  ghost predicate SerialInv(env: Env, s: Sys) {
    && Inv(env, s.disk, s.rank) && ReportsInv(env, s.disk.reports)
    && Accounted(s.disk, s.holds)
    && (forall t | t in s.holds :: HoldOk(env, s.disk, t, s.holds[t]))
  }

  lemma NothingHeldInitially(env: Env)
    ensures SerialInv(env, Sys(EMPTY_DISK, map[], map[]))
  {
  }

  // ---------- all readers agree ----------

  lemma {:induction false} FirstCommittedForAll(env: Env, d: Disk, rank: Rank, ref: Option<PointerRef>, a: Scope,
                                                b: Scope)
    requires Linked(d, rank)
    requires forall r | r in d.pointers :: Scoped(d.pointers[r].publication)
    requires ref.Some? ==> ref.value in d.pointers
    ensures FirstCommitted(env, d, rank, ref, a) == FirstCommitted(env, d, rank, ref, b)
    decreases if ref.None? then 0 else rank[ref.value] + 1
  {
    if ref.Some? {
      assert PredecessorOk(d, rank, ref.value);
      FirstCommittedForAll(env, d, rank, d.pointers[ref.value].predecessor, a, b);
    }
  }

  /** Readers working from different reports roots see the same pointer and bytes. */
  lemma ReadersAgree(env: Env, d: Disk, rank: Rank, target: TargetKey, a: Scope, b: Scope)
    requires Hashes(env) && Inv(env, d, rank)
    requires forall r | r in d.pointers :: Scoped(d.pointers[r].publication)
    ensures CommittedPointer(env, d, target, a) == CommittedPointer(env, d, target, b)
    ensures ReadCommitted(env, d, target, a) == ReadCommitted(env, d, target, b)
  {
    ReaderSeesFirstCommitted(env, d, rank, target, a);
    ReaderSeesFirstCommitted(env, d, rank, target, b);
    FirstCommittedForAll(env, d, rank, HeadRef(d, target), a, b);
  }

  lemma ShownToAll(env: Env, s: Sys, target: TargetKey, reader: Scope)
    requires Hashes(env) && SerialInv(env, s)
    ensures CommittedPointer(env, s.disk, target, reader) == Shown(env, s.disk, target)
    ensures ReadCommitted(env, s.disk, target, reader) == ReadCommitted(env, s.disk, target, "")
  {
    assert forall r | r in s.disk.pointers :: Owned(s.disk.reports, s.holds, r, s.disk.pointers[r].publication);
    ReadersAgree(env, s.disk, s.rank, target, reader, "");
  }

  // ---------- holds of other targets are not disturbed ----------

  ghost predicate SameFiles(d: Disk, d': Disk, target: TargetKey) {
    && HeadRef(d', target) == HeadRef(d, target)
    && (forall r: PointerRef | r.target == target :: (r in d'.pointers <==> r in d.pointers))
    && (forall r: PointerRef | r.target == target && r in d.pointers :: d'.pointers[r] == d.pointers[r])
    && (forall v: VersionRef | v.target == target :: (v in d'.versions <==> v in d.versions))
    && (forall v: VersionRef | v.target == target && v in d.versions :: d'.versions[v] == d.versions[v])
  }

  lemma HoldFrame(env: Env, d: Disk, rank: Rank, d': Disk, target: TargetKey, h: Hold)
    requires Hashes(env) && Inv(env, d, rank)
    requires HoldOk(env, d, target, h) && SameFiles(d, d', target)
    requires Shown(env, d', target) == Shown(env, d, target)
    requires KeyOf(h.publication) !in d'.reports.receipts
    ensures HoldOk(env, d', target, h)
  {
    CommittedBytesAreReadable(env, d, rank, target, "");
    var current := Shown(env, d, target);
    if current.Some? {
      assert PointerOk(env, d.versions, RefOf(target, current.value.publication), current.value);
    }
  }

  // ---------- beginning ----------

  /** What a plan that writes something has established about its target. */
  lemma PlanIsGuarded(env: Env, d: Disk, m: Mutation, payload: Bytes, p: Publication, stager: Scope)
    requires PlanStage(env, d, m, payload, p, stager).Ok?
    requires PlanStage(env, d, m, payload, p, stager).value.writes != []
    ensures var h := Hold(m, payload, p, PlanStage(env, d, m, payload, p, stager).value.writes);
            && env.sha(payload) == m.afterHash
            && (RefOf(m.target, p) !in d.pointers ==>
                  && Guard(env, d, CommittedPointer(env, d, m.target, stager), h)
                  && (VersionRef(m.target, m.afterHash) in d.versions ==>
                        d.versions[VersionRef(m.target, m.afterHash)] == payload)
                  && h.todo == FreshWrites(env, d, m, payload, p))
            && (RefOf(m.target, p) in d.pointers ==> h.todo == [WriteHead(m.target, RefOf(m.target, p))])
  {
  }

  lemma BegunHoldOk(env: Env, s: Sys, m: Mutation, payload: Bytes, p: Publication, stager: Scope)
    requires Hashes(env) && SerialInv(env, s) && Enabled(env, s, Begin(m, payload, p, stager))
    requires PlanStage(env, s.disk, m, payload, p, stager).Ok?
    requires PlanStage(env, s.disk, m, payload, p, stager).value.writes != []
    ensures HoldOk(env, s.disk, m.target,
                   Hold(m, payload, p, PlanStage(env, s.disk, m, payload, p, stager).value.writes))
  {
    var d, t := s.disk, m.target;
    PlanIsGuarded(env, d, m, payload, p, stager);
    ShownToAll(env, s, t, stager);
    assert t in s.holds ==> HoldOk(env, d, t, s.holds[t]);
  }

  /** Replacing a hold by one of the same publication, or adding one, keeps every pointer owned. */
  lemma RefreshedHold(d: Disk, holds: map<TargetKey, Hold>, t: TargetKey, h: Hold)
    requires Accounted(d, holds)
    requires t in holds ==> holds[t].publication == h.publication
    ensures Accounted(d, holds[t := h])
  {
    forall r | r in d.pointers ensures Owned(d.reports, holds[t := h], r, d.pointers[r].publication) {
      assert Owned(d.reports, holds, r, d.pointers[r].publication);
    }
  }

  lemma BeginKeepsInv(env: Env, s: Sys, m: Mutation, payload: Bytes, p: Publication, stager: Scope)
    requires Hashes(env) && SerialInv(env, s) && Enabled(env, s, Begin(m, payload, p, stager))
    ensures SerialInv(env, Step(env, s, Begin(m, payload, p, stager)))
  {
    hide HoldOk;
    var s' := Step(env, s, Begin(m, payload, p, stager));
    if s' != s {
      BegunHoldOk(env, s, m, payload, p, stager);
      RefreshedHold(s.disk, s.holds, m.target, s'.holds[m.target]);
    }
  }

  // ---------- writing ----------

  lemma NextWriteOk(env: Env, d: Disk, rank: Rank, target: TargetKey, h: Hold)
    requires Inv(env, d, rank) && HoldOk(env, d, target, h) && |h.m.afterHash| == 64 && h.todo != []
    ensures WriteOk(env, d, h.todo[0])
    ensures h.todo[0].WriteHead? ==>
              && h.todo[0].target == target
              && !Committed(env, d.reports, d.pointers[h.todo[0].head].publication, "")
              && (d.pointers[h.todo[0].head].predecessor == HeadRef(d, target)
                  || HeadRef(d, target) == Some(h.todo[0].head))
    ensures h.todo[0].WritePointer? ==>
              h.todo[0].ref == RefOf(target, h.publication) && h.todo[0].pointer.publication == h.publication
    ensures h.todo[0].WriteVersion? ==> h.todo[0].version.target == target
  {
    hide Inv;
    if h.todo[0].WritePointer? {
      NewPointerOk(env, d, rank, h.m, h.publication);
    }
  }

  lemma HashLength(env: Env, d: Disk, target: TargetKey, h: Hold)
    requires Hashes(env) && HoldOk(env, d, target, h)
    ensures |h.m.afterHash| == 64
  {
  }

  /** The next write of a hold is allowed and no reader notices it. */
  lemma NextWrite(env: Env, d: Disk, rank: Rank, target: TargetKey, h: Hold, other: TargetKey)
    requires Hashes(env) && Inv(env, d, rank) && HoldOk(env, d, target, h) && h.todo != []
    ensures WriteOk(env, d, h.todo[0])
    ensures Inv(env, ApplyWrite(d, h.todo[0]), RankAfter(rank, h.todo[0]))
    ensures SameAnswers(env, d, ApplyWrite(d, h.todo[0]), other, "")
  {
    HashLength(env, d, target, h);
    NextWriteOk(env, d, rank, target, h);
    AllowedWrite(env, d, rank, h.todo[0], other);
  }

  lemma AllowedWrite(env: Env, d: Disk, rank: Rank, w: Write, other: TargetKey)
    requires Hashes(env) && Inv(env, d, rank) && WriteOk(env, d, w)
    requires w.WriteHead? ==>
               && !Committed(env, d.reports, d.pointers[w.head].publication, "")
               && (d.pointers[w.head].predecessor == HeadRef(d, w.target) || HeadRef(d, w.target) == Some(w.head))
    ensures Inv(env, ApplyWrite(d, w), RankAfter(rank, w))
    ensures SameAnswers(env, d, ApplyWrite(d, w), other, "")
  {
    WriteKeepsInv(env, d, rank, w);
    WriteIsInvisible(env, d, rank, w, other, "");
  }

  lemma WriteIsLocal(env: Env, d: Disk, target: TargetKey, h: Hold, other: TargetKey)
    requires TodoOk(env, d, target, h) && h.todo != [] && other != target
    ensures SameFiles(d, ApplyWrite(d, h.todo[0]), other)
    ensures ApplyWrite(d, h.todo[0]).reports == d.reports
  {
    var w := h.todo[0];
    assert w.WriteHead? ==> w.target == target;
    assert w.WritePointer? ==> w.ref.target == target;
    assert w.WriteVersion? ==> w.version.target == target;
  }

  predicate NextTodo(h: Hold, h': Hold)
    requires h.todo != []
  {
    h' == h.(todo := h.todo[1..])
  }

  lemma WrittenHoldOk(env: Env, d: Disk, rank: Rank, target: TargetKey, h: Hold, d': Disk, h': Hold)
    requires Hashes(env) && Inv(env, d, rank) && HoldOk(env, d, target, h) && h.todo != []
    requires d' == ApplyWrite(d, h.todo[0]) && NextTodo(h, h')
    requires SameAnswers(env, d, d', target, "")
    ensures HoldOk(env, d', target, h')
  {
    hide Inv;
    var w := h.todo[0];
    var ref, version := RefOf(target, h.publication), VersionRef(target, h.m.afterHash);
    var pointer := NewPointer(env, target, h.m.afterHash, HeadRef(d, target), h.publication);
    var tail := [WritePointer(ref, pointer), WriteHead(target, ref)];
    assert tail[1..] == [WriteHead(target, ref)] && [WriteHead(target, ref)][1..] == [];
    assert ([WriteVersion(version, h.payload)] + tail)[1..] == tail;
    GuardFrame(env, d, rank, d', target, h);
    assert TodoOk(env, d', target, h') by {
      if w.WriteVersion? {
        assert h'.todo == tail;
      } else if w.WritePointer? {
        assert h'.todo == [WriteHead(target, ref)];
      } else {
        assert h'.todo == [];
      }
    }
  }

  /** The guard does not depend on anything but what is shown. */
  lemma GuardFrame(env: Env, d: Disk, rank: Rank, d': Disk, target: TargetKey, h: Hold)
    requires Hashes(env) && Inv(env, d, rank)
    requires SameAnswers(env, d, d', target, "")
    requires Guard(env, d, Shown(env, d, target), h)
    ensures Guard(env, d', Shown(env, d', target), h)
  {
    CommittedBytesAreReadable(env, d, rank, target, "");
  }

  lemma OtherHoldAfterWrite(env: Env, d: Disk, rank: Rank, t: TargetKey, h: Hold, u: TargetKey, other: Hold)
    requires Hashes(env) && Inv(env, d, rank) && HoldOk(env, d, t, h) && h.todo != []
    requires u != t && HoldOk(env, d, u, other)
    ensures HoldOk(env, ApplyWrite(d, h.todo[0]), u, other)
  {
    NextWrite(env, d, rank, t, h, u);
    WriteIsLocal(env, d, t, h, u);
    HoldFrame(env, d, rank, ApplyWrite(d, h.todo[0]), u, other);
  }

  lemma OwnHoldAfterWrite(env: Env, d: Disk, rank: Rank, t: TargetKey, h: Hold)
    requires Hashes(env) && Inv(env, d, rank) && HoldOk(env, d, t, h) && h.todo != []
    ensures HoldOk(env, ApplyWrite(d, h.todo[0]), t, h.(todo := h.todo[1..]))
  {
    NextWrite(env, d, rank, t, h, t);
    WrittenHoldOk(env, d, rank, t, h, ApplyWrite(d, h.todo[0]), h.(todo := h.todo[1..]));
  }

  lemma AccountedAfterWrite(d: Disk, holds: map<TargetKey, Hold>, w: Write, t: TargetKey)
    requires Accounted(d, holds) && t in holds && Scoped(holds[t].publication)
    requires w.WritePointer?
             ==> w.ref == RefOf(t, holds[t].publication) && w.pointer.publication == holds[t].publication
    ensures Accounted(ApplyWrite(d, w), holds)
  {
    var d' := ApplyWrite(d, w);
    forall r | r in d'.pointers ensures Owned(d'.reports, holds, r, d'.pointers[r].publication) {
      if !(w.WritePointer? && r == w.ref) {
        assert Owned(d.reports, holds, r, d.pointers[r].publication);
      }
    }
  }

  lemma InvAfterWrite(env: Env, d: Disk, rank: Rank, holds: map<TargetKey, Hold>, t: TargetKey)
    requires Hashes(env) && Inv(env, d, rank) && Accounted(d, holds)
    requires t in holds && HoldOk(env, d, t, holds[t]) && holds[t].todo != []
    ensures var h := holds[t];
            var d' := ApplyWrite(d, h.todo[0]);
            && Inv(env, d', RankAfter(rank, h.todo[0]))
            && d'.reports == d.reports
            && Accounted(d', holds[t := h.(todo := h.todo[1..])])
  {
    hide Inv;
    var h := holds[t];
    HashLength(env, d, t, h);
    NextWriteOk(env, d, rank, t, h);
    WriteKeepsInv(env, d, rank, h.todo[0]);
    AccountedAfterWrite(d, holds, h.todo[0], t);
    RefreshedHold(ApplyWrite(d, h.todo[0]), holds, t, h.(todo := h.todo[1..]));
  }

  lemma WriteKeepsSerialInv(env: Env, s: Sys, t: TargetKey)
    requires Hashes(env) && SerialInv(env, s) && Enabled(env, s, WriteNext(t))
    ensures SerialInv(env, Step(env, s, WriteNext(t)))
  {
    hide HoldOk;
    var s' := Step(env, s, WriteNext(t));
    assert HoldOk(env, s.disk, t, s.holds[t]);
    InvAfterWrite(env, s.disk, s.rank, s.holds, t);
    forall u | u in s'.holds ensures HoldOk(env, s'.disk, u, s'.holds[u]) {
      if u == t {
        OwnHoldAfterWrite(env, s.disk, s.rank, t, s.holds[t]);
      } else {
        OtherHoldAfterWrite(env, s.disk, s.rank, t, s.holds[t], u, s.holds[u]);
      }
    }
  }

  // ---------- committing ----------

  lemma RowIsInvisible(env: Env, d: Disk, rank: Rank, scope: Scope, value: Body, t: TargetKey)
    requires Hashes(env) && Inv(env, d, rank) && ReportsInv(env, d.reports)
    requires AppendReceipt(env, d.reports, scope, value).1.Ok?
    ensures SameAnswers(env, d, d.(reports := AppendReceipt(env, d.reports, scope, value).0), t, "")
  {
    var reports := AppendReceipt(env, d.reports, scope, value).0;
    forall p: Publication ensures Committed(env, reports, p, "") == Committed(env, d.reports, p, "") {
      AppendReceiptIsInvisible(env, d.reports, scope, value, p, "");
    }
    ChangedReports(env, d, rank, reports, t, "");
  }

  lemma HoldAfterRow(env: Env, d: Disk, rank: Rank, scope: Scope, value: Body, t: TargetKey, h: Hold)
    requires Hashes(env) && Inv(env, d, rank) && ReportsInv(env, d.reports)
    requires AppendReceipt(env, d.reports, scope, value).1.Ok?
    requires HoldOk(env, d, t, h)
    ensures HoldOk(env, d.(reports := AppendReceipt(env, d.reports, scope, value).0), t, h)
  {
    RowIsInvisible(env, d, rank, scope, value, t);
    HoldFrame(env, d, rank, d.(reports := AppendReceipt(env, d.reports, scope, value).0), t, h);
  }

  lemma RowKeepsSerialInv(env: Env, s: Sys, scope: Scope, value: Body)
    requires Hashes(env) && SerialInv(env, s) && Enabled(env, s, AppendRow(scope, value))
    ensures SerialInv(env, Step(env, s, AppendRow(scope, value)))
  {
    var s' := Step(env, s, AppendRow(scope, value));
    AppendReceiptIsInvisible(env, s.disk.reports, scope, value, Publication("", "", "", "", None), "");
    ReportsKeepInv(env, s.disk, s.rank, s'.disk.reports);
    forall t | t in s'.holds ensures HoldOk(env, s'.disk, t, s'.holds[t]) {
      HoldAfterRow(env, s.disk, s.rank, scope, value, t, s.holds[t]);
    }
    SameReceipts(s.disk, s'.disk, s.holds);
  }

  lemma SameReceipts(d: Disk, d': Disk, holds: map<TargetKey, Hold>)
    requires Accounted(d, holds) && d'.pointers == d.pointers
    requires d'.reports.receipts == d.reports.receipts
    ensures Accounted(d', holds)
  {
    forall r | r in d'.pointers ensures Owned(d'.reports, holds, r, d'.pointers[r].publication) {
      assert Owned(d.reports, holds, r, d.pointers[r].publication);
    }
  }

  /** A pointer of an unreceipted publication belongs to the hold on its target. */
  lemma UnreceiptedIsHeld(env: Env, d: Disk, holds: map<TargetKey, Hold>, scope: Scope, value: Body, ref: PointerRef)
    requires Accounted(d, holds) && ref in d.pointers && PointerOk(env, d.versions, ref, d.pointers[ref])
    requires About(d.pointers[ref].publication, scope, value)
    requires ReceiptRef(scope, value.runId, value.publicationId) !in d.reports.receipts
    ensures ref.target in holds && Held(holds[ref.target], value)
  {
    assert Owned(d.reports, holds, ref, d.pointers[ref].publication);
  }

  lemma StagedToTheEnd(env: Env, d: Disk, scope: Scope, value: Body, target: TargetKey, h: Hold)
    requires HoldOk(env, d, target, h) && Held(h, value) && About(h.publication, scope, value)
    requires HeadRef(d, target) == Some(RefOf(target, h.publication)) && HeadOk(d, target)
    ensures var ref := RefOf(target, h.publication);
            && ref == PointerRef(target, value.runId, value.publicationId)
            && ref in d.pointers && SamePending(d, d.pointers[ref], h.m, h.payload, h.publication)
            && Guard(env, d, Shown(env, d, target), h)
  {
  }

  lemma StagedTargetCommits(env: Env, d: Disk, rank: Rank, scope: Scope, value: Body, target: TargetKey, h: Hold)
    requires Hashes(env) && Inv(env, d, rank) && ReportsInv(env, d.reports)
    requires AppendReceipt(env, d.reports, scope, value).1.Ok? && scope != "" && SimpleName(scope)
    requires ReceiptRef(scope, value.runId, value.publicationId) !in d.reports.receipts
    requires var ref := PointerRef(target, value.runId, value.publicationId);
             && HeadRef(d, target) == Some(ref) && ref in d.pointers
             && SamePending(d, d.pointers[ref], h.m, h.payload, h.publication)
    requires About(h.publication, scope, value)
    ensures var d' := d.(reports := CommitReports(env, d.reports, scope, value));
            && Shown(env, d', target) == Some(d.pointers[RefOf(target, h.publication)])
            && ReadCommitted(env, d', target, "") == Some(h.payload)
  {
    CommitEffect(env, d.reports, scope, value, h.publication, "");
    OneReceiptCommitsEverything(env, d, rank, scope, value, target, "");
  }

  lemma OtherTargetUnchanged(env: Env, s: Sys, scope: Scope, value: Body, target: TargetKey)
    requires Hashes(env) && SerialInv(env, s) && Enabled(env, s, Commit(scope, value))
    requires !(target in s.holds && Held(s.holds[target], value))
    ensures SameAnswers(env, s.disk, s.disk.(reports := CommitReports(env, s.disk.reports, scope, value)), target, "")
  {
    OneReceiptCommitsEverything(env, s.disk, s.rank, scope, value, target, "");
    var ref := PointerRef(target, value.runId, value.publicationId);
    if ref in s.disk.pointers {
      assert PointerOk(env, s.disk.versions, ref, s.disk.pointers[ref]);
      UnreceiptedIsHeld(env, s.disk, s.holds, scope, value, ref);
    }
  }

  /** The commit point. Every target the publication holds switches from a value its mutation was
      entitled to replace to exactly the staged bytes; every other target keeps its answer. */
  lemma CommitIsSerial(env: Env, s: Sys, scope: Scope, value: Body, target: TargetKey)
    requires Hashes(env) && SerialInv(env, s) && Enabled(env, s, Commit(scope, value))
    ensures var d' := Step(env, s, Commit(scope, value)).disk;
            if target in s.holds && Held(s.holds[target], value) then
              var h := s.holds[target];
              var ref := RefOf(target, h.publication);
              && Guard(env, s.disk, Shown(env, s.disk, target), h)
              && ref in s.disk.pointers
              && Shown(env, d', target) == Some(s.disk.pointers[ref])
              && s.disk.pointers[ref].publication == h.publication && s.disk.pointers[ref].afterHash == h.m.afterHash
              && ReadCommitted(env, d', target, "") == Some(h.payload)
            else
              SameAnswers(env, s.disk, d', target, "")
  {
    hide HoldOk;
    if target in s.holds && Held(s.holds[target], value) {
      assert HoldOk(env, s.disk, target, s.holds[target]) && HeadOk(s.disk, target);
      StagedToTheEnd(env, s.disk, scope, value, target, s.holds[target]);
      StagedTargetCommits(env, s.disk, s.rank, scope, value, target, s.holds[target]);
    } else {
      OtherTargetUnchanged(env, s, scope, value, target);
    }
  }

  lemma CommittedKeys(env: Env, reports: Reports, scope: Scope, value: Body)
    requires ReportsInv(env, reports) && AppendReceipt(env, reports, scope, value).1.Ok?
    requires ReceiptRef(scope, value.runId, value.publicationId) !in reports.receipts
    ensures CommitReports(env, reports, scope, value).receipts.Keys
            == reports.receipts.Keys + {ReceiptRef(scope, value.runId, value.publicationId)}
  {
    CommitEffect(env, reports, scope, value, Publication("", "", "", "", None), "");
  }

  lemma HoldAfterCommit(env: Env, d: Disk, rank: Rank, scope: Scope, value: Body, t: TargetKey, h: Hold, d': Disk)
    requires Hashes(env) && Inv(env, d, rank) && ReportsInv(env, d.reports)
    requires AppendReceipt(env, d.reports, scope, value).1.Ok?
    requires ReceiptRef(scope, value.runId, value.publicationId) !in d.reports.receipts
    requires HoldOk(env, d, t, h) && !Held(h, value)
    requires d' == d.(reports := CommitReports(env, d.reports, scope, value)) && Shown(env, d', t) == Shown(env, d, t)
    ensures HoldOk(env, d', t, h)
  {
    CommittedKeys(env, d.reports, scope, value);
    HoldFrame(env, d, rank, d', t, h);
  }

  lemma AccountedAfterCommit(env: Env, d: Disk, rank: Rank, holds: map<TargetKey, Hold>, scope: Scope, value: Body)
    requires Inv(env, d, rank) && ReportsInv(env, d.reports) && Accounted(d, holds)
    requires AppendReceipt(env, d.reports, scope, value).1.Ok?
    requires ReceiptRef(scope, value.runId, value.publicationId) !in d.reports.receipts
    requires forall r | r in d.pointers && r.runId == value.runId && r.publicationId == value.publicationId ::
               About(d.pointers[r].publication, scope, value)
    ensures Accounted(d.(reports := CommitReports(env, d.reports, scope, value)),
                      map t | t in holds && !Held(holds[t], value) :: holds[t])
  {
    var reports := CommitReports(env, d.reports, scope, value);
    var holds' := map t | t in holds && !Held(holds[t], value) :: holds[t];
    CommittedKeys(env, d.reports, scope, value);
    forall r | r in d.pointers ensures Owned(reports, holds', r, d.pointers[r].publication) {
      assert Owned(d.reports, holds, r, d.pointers[r].publication);
    }
  }

  lemma CommitKeepsSerialInv(env: Env, s: Sys, scope: Scope, value: Body)
    requires Hashes(env) && SerialInv(env, s) && Enabled(env, s, Commit(scope, value))
    ensures SerialInv(env, Step(env, s, Commit(scope, value)))
  {
    hide Inv;
    var s' := Step(env, s, Commit(scope, value));
    OneReceiptCommitsEverything(env, s.disk, s.rank, scope, value, "", "");
    forall t | t in s'.holds ensures HoldOk(env, s'.disk, t, s'.holds[t]) {
      CommitIsSerial(env, s, scope, value, t);
      HoldAfterCommit(env, s.disk, s.rank, scope, value, t, s.holds[t], s'.disk);
    }
    AccountedAfterCommit(env, s.disk, s.rank, s.holds, scope, value);
  }

  // ---------- any step ----------

  lemma CrashKeepsSerialInv(env: Env, s: Sys, t: TargetKey)
    requires SerialInv(env, s) && t in s.holds
    ensures SerialInv(env, Step(env, s, Crash(t)))
  {
    hide Shown;
    var s' := Step(env, s, Crash(t));
    assert HoldOk(env, s.disk, t, s.holds[t]);
    RefreshedHold(s.disk, s.holds, t, s'.holds[t]);
  }

  lemma StepKeepsSerialInv(env: Env, s: Sys, e: Event)
    requires Hashes(env) && SerialInv(env, s) && Enabled(env, s, e)
    ensures SerialInv(env, Step(env, s, e))
  {
    match e
    case Begin(m, payload, p, stager) => BeginKeepsInv(env, s, m, payload, p, stager);
    case WriteNext(t) => WriteKeepsSerialInv(env, s, t);
    case Crash(t) => CrashKeepsSerialInv(env, s, t);
    case AppendRow(scope, value) => RowKeepsSerialInv(env, s, scope, value);
    case Commit(scope, value) => CommitKeepsSerialInv(env, s, scope, value);
  }

  /** Whatever is interleaved, only a commit changes what readers of a target get. */
  lemma OnlyCommitsAreVisible(env: Env, s: Sys, e: Event, target: TargetKey)
    requires Hashes(env) && SerialInv(env, s) && Enabled(env, s, e) && !e.Commit?
    ensures SameAnswers(env, s.disk, Step(env, s, e).disk, target, "")
  {
    hide Inv, HoldOk;
    match e
    case Begin(_, _, _, _) => assert Step(env, s, e).disk == s.disk;
    case WriteNext(t) => NextWrite(env, s.disk, s.rank, t, s.holds[t], target);
    case Crash(_) => assert Step(env, s, e).disk == s.disk;
    case AppendRow(scope, value) => RowIsInvisible(env, s.disk, s.rank, scope, value, target);
  }
}
