/** Staging one mutation, whole or interrupted, and what readers see of it: nothing. */
module Staging {
  import opened Wrappers
  import opened CommitChain
  import opened PublishedState
  import opened StoreInvariant

  // ---------- single writes ----------

  /** The conditions under which staging performs each of its writes. */
  ghost predicate WriteOk(env: Env, d: Disk, w: Write) {
    match w
    case WriteVersion(v, payload) => v !in d.versions && env.sha(payload) == v.digest
    case WritePointer(r, p) =>
      && r !in d.pointers
      && PointerOk(env, d.versions, r, p)
      && (p.predecessor.Some? ==> p.predecessor.value in d.pointers && p.predecessor.value.target == r.target)
    case WriteHead(t, r) => r in d.pointers && r.target == t
  }

  function RankAfter(rank: Rank, w: Write): Rank {
    if w.WritePointer? then rank[w.ref := |rank|] else rank
  }

  lemma VersionKeepsInv(env: Env, d: Disk, rank: Rank, v: VersionRef, payload: Bytes)
    requires Inv(env, d, rank) && v !in d.versions
    ensures Inv(env, ApplyWrite(d, WriteVersion(v, payload)), rank)
  {
    var d' := ApplyWrite(d, WriteVersion(v, payload));
    forall r | r in d'.pointers
      ensures PredecessorOk(d', rank, r) && PointerOk(env, d'.versions, r, d'.pointers[r])
    {
      assert PredecessorOk(d, rank, r) && PointerOk(env, d.versions, r, d.pointers[r]);
    }
    forall t | t in d'.heads ensures HeadOk(d', t) {
      assert HeadOk(d, t);
    }
  }

  lemma HeadKeepsInv(env: Env, d: Disk, rank: Rank, target: TargetKey, head: PointerRef)
    requires Inv(env, d, rank) && head in d.pointers && head.target == target
    ensures Inv(env, ApplyWrite(d, WriteHead(target, head)), rank)
  {
    hide PointerOk;
    var d' := ApplyWrite(d, WriteHead(target, head));
    forall r | r in d'.pointers
      ensures PredecessorOk(d', rank, r) && PointerOk(env, d'.versions, r, d'.pointers[r])
    {
      assert PredecessorOk(d, rank, r) && PointerOk(env, d.versions, r, d.pointers[r]);
    }
    forall t | t in d'.heads ensures HeadOk(d', t) {
      if t != target {
        assert HeadOk(d, t);
      }
    }
  }

  lemma NewestRank(rank: Rank, r: PointerRef)
    requires r !in rank && forall s | s in rank :: rank[s] < |rank|
    ensures var rank' := rank[r := |rank|];
            rank'.Keys == rank.Keys + {r} && forall s | s in rank' :: rank'[s] < |rank'|
  {
    var rank' := rank[r := |rank|];
    assert rank'.Keys == rank.Keys + {r};
    assert |rank'.Keys| == |rank.Keys| + 1;
  }

  lemma PointerKeepsLinks(d: Disk, rank: Rank, r: PointerRef, p: Pointer)
    requires Linked(d, rank) && r !in d.pointers
    requires p.predecessor.Some? ==> p.predecessor.value in d.pointers && p.predecessor.value.target == r.target
    ensures Linked(ApplyWrite(d, WritePointer(r, p)), rank[r := |rank|])
  {
    var d', rank' := ApplyWrite(d, WritePointer(r, p)), rank[r := |rank|];
    NewestRank(rank, r);
    forall s | s in d'.pointers ensures PredecessorOk(d', rank', s) {
      if s != r {
        assert PredecessorOk(d, rank, s);
      }
    }
  }

  lemma PointerKeepsInv(env: Env, d: Disk, rank: Rank, r: PointerRef, p: Pointer)
    requires Inv(env, d, rank) && WriteOk(env, d, WritePointer(r, p))
    ensures Inv(env, ApplyWrite(d, WritePointer(r, p)), rank[r := |rank|])
  {
    hide PointerOk;
    var d' := ApplyWrite(d, WritePointer(r, p));
    PointerKeepsLinks(d, rank, r, p);
    forall s | s in d'.pointers ensures PointerOk(env, d'.versions, s, d'.pointers[s]) {
      if s != r {
        assert PointerOk(env, d.versions, s, d.pointers[s]);
      }
    }
    forall t | t in d'.heads ensures HeadOk(d', t) {
      assert HeadOk(d, t);
    }
  }

  lemma WriteKeepsInv(env: Env, d: Disk, rank: Rank, w: Write)
    requires Inv(env, d, rank) && WriteOk(env, d, w)
    ensures Inv(env, ApplyWrite(d, w), RankAfter(rank, w))
  {
    match w
    case WriteVersion(v, payload) => VersionKeepsInv(env, d, rank, v, payload);
    case WritePointer(r, p) => PointerKeepsInv(env, d, rank, r, p);
    case WriteHead(t, r) => HeadKeepsInv(env, d, rank, t, r);
  }

  /** Two stores that agree on the pointers of a target and on what is committed there. */
  lemma {:induction false} FirstCommittedFrame(env: Env, d: Disk, rank: Rank, d': Disk, rank': Rank,
                                               ref: Option<PointerRef>, reader: Scope)
    requires Linked(d, rank) && Linked(d', rank')
    requires ref.Some? ==> ref.value in d.pointers
    requires ref.Some? ==>
               forall r | r in d.pointers && r.target == ref.value.target ::
                 && r in d'.pointers && d'.pointers[r] == d.pointers[r]
                 && Committed(env, d'.reports, d.pointers[r].publication, reader)
                    == Committed(env, d.reports, d.pointers[r].publication, reader)
    ensures FirstCommitted(env, d', rank', ref, reader) == FirstCommitted(env, d, rank, ref, reader)
    decreases if ref.None? then 0 else rank[ref.value] + 1
  {
    if ref.Some? {
      assert PredecessorOk(d, rank, ref.value);
      FirstCommittedFrame(env, d, rank, d', rank', d.pointers[ref.value].predecessor, reader);
    }
  }

  ghost predicate SameAnswers(env: Env, d: Disk, d': Disk, target: TargetKey, reader: Scope) {
    && CommittedPointer(env, d', target, reader) == CommittedPointer(env, d, target, reader)
    && ReadCommitted(env, d', target, reader) == ReadCommitted(env, d, target, reader)
  }

  /** A pointer shown by the walk keeps its bytes while versions are only added. */
  lemma SameBytes(env: Env, d: Disk, rank: Rank, d': Disk, target: TargetKey, reader: Scope)
    requires Hashes(env)
    requires Inv(env, d, rank)
    requires forall v | v in d.versions :: v in d'.versions && d'.versions[v] == d.versions[v]
    requires CommittedPointer(env, d', target, reader) == CommittedPointer(env, d, target, reader)
    ensures SameAnswers(env, d, d', target, reader)
  {
    CommittedBytesAreReadable(env, d, rank, target, reader);
  }

  /** More pointers, the same head and the same receipts: the same committed pointer. */
  lemma GrowthIsInvisible(env: Env, d: Disk, rank: Rank, d': Disk, rank': Rank, target: TargetKey, reader: Scope)
    requires Hashes(env)
    requires Inv(env, d, rank) && Inv(env, d', rank')
    requires HeadRef(d', target) == HeadRef(d, target) && d'.reports == d.reports
    requires forall r | r in d.pointers :: r in d'.pointers && d'.pointers[r] == d.pointers[r]
    ensures CommittedPointer(env, d', target, reader) == CommittedPointer(env, d, target, reader)
  {
    hide PointerOk;
    ReaderSeesFirstCommitted(env, d, rank, target, reader);
    ReaderSeesFirstCommitted(env, d', rank', target, reader);
    FirstCommittedFrame(env, d, rank, d', rank', HeadRef(d, target), reader);
  }

  lemma AdditionGrows(env: Env, d: Disk, w: Write)
    requires WriteOk(env, d, w) && !w.WriteHead?
    ensures ApplyWrite(d, w).heads == d.heads && ApplyWrite(d, w).reports == d.reports
    ensures forall r | r in d.pointers ::
            r in ApplyWrite(d, w).pointers && ApplyWrite(d, w).pointers[r] == d.pointers[r]
  {
  }

  lemma AdditionIsInvisible(env: Env, d: Disk, rank: Rank, w: Write, target: TargetKey, reader: Scope)
    requires Hashes(env)
    requires Inv(env, d, rank) && WriteOk(env, d, w) && !w.WriteHead?
    ensures CommittedPointer(env, ApplyWrite(d, w), target, reader) == CommittedPointer(env, d, target, reader)
  {
    hide Inv, CommittedPointer;
    var d', rank' := ApplyWrite(d, w), RankAfter(rank, w);
    WriteKeepsInv(env, d, rank, w);
    AdditionGrows(env, d, w);
    assert HeadRef(d', target) == HeadRef(d, target);
    GrowthIsInvisible(env, d, rank, d', rank', target, reader);
  }

  /** After a head moves, readers see the first committed pointer from its new place. */
  lemma HeadMoves(env: Env, d: Disk, rank: Rank, ref: PointerRef, target: TargetKey, reader: Scope)
    requires Hashes(env)
    requires Inv(env, d, rank) && ref in d.pointers
    ensures var d' := ApplyWrite(d, WriteHead(ref.target, ref));
            && Inv(env, d', rank)
            && CommittedPointer(env, d', target, reader)
               == if target == ref.target then FirstCommitted(env, d, rank, Some(ref), reader)
                  else CommittedPointer(env, d, target, reader)
  {
    hide Linked, Hashes;
    var d' := ApplyWrite(d, WriteHead(ref.target, ref));
    WriteKeepsInv(env, d, rank, WriteHead(ref.target, ref));
    ReaderSeesFirstCommitted(env, d, rank, target, reader);
    ReaderSeesFirstCommitted(env, d', rank, target, reader);
    FirstCommittedFrame(env, d, rank, d', rank, HeadRef(d', target), reader);
  }

  /** Writing a version or a pointer, or moving a head from `old` to an uncommitted pointer whose
      predecessor is `old`, changes no reader's answer. */
  lemma WriteIsInvisible(env: Env, d: Disk, rank: Rank, w: Write, target: TargetKey, reader: Scope)
    requires Hashes(env)
    requires Inv(env, d, rank) && WriteOk(env, d, w)
    requires w.WriteHead? ==>
               && !Committed(env, d.reports, d.pointers[w.head].publication, reader)
               && (d.pointers[w.head].predecessor == HeadRef(d, w.target) || HeadRef(d, w.target) == Some(w.head))
    ensures SameAnswers(env, d, ApplyWrite(d, w), target, reader)
  {
    hide Inv;
    if w.WriteHead? {
      HeadMoves(env, d, rank, w.head, target, reader);
      ReaderSeesFirstCommitted(env, d, rank, w.target, reader);
    } else {
      AdditionIsInvisible(env, d, rank, w, target, reader);
    }
    SameBytes(env, d, rank, ApplyWrite(d, w), target, reader);
  }

  // ---------- staging ----------

  /** What a validated bundle guarantees about a mutation, and the hashing hypothesis for it. */
  ghost predicate Request(env: Env, m: Mutation, publication: Publication) {
    && IsRunId(publication.runId) && IsPublicationId(publication.publicationId)
    && PointerText(m.target, publication.runId, publication.publicationId, m.afterHash) in env.hashed
  }

  /** A first staging, or a retry while the target's head is still this publication's pointer or
      that pointer's predecessor. */
  ghost predicate HeadUndisturbed(d: Disk, m: Mutation, publication: Publication) {
    var ref := RefOf(m.target, publication);
    ref in d.pointers ==>
      d.pointers[ref].predecessor == HeadRef(d, m.target) || HeadRef(d, m.target) == Some(ref)
  }

  lemma ApplyOne(d: Disk, w: Write)
    ensures ApplyAll(d, [w]) == ApplyWrite(d, w)
  {
    assert [w][1..] == [];
  }

  function WithVersion(d: Disk, m: Mutation, payload: Bytes): Disk {
    var version := VersionRef(m.target, m.afterHash);
    if version in d.versions then d else ApplyWrite(d, WriteVersion(version, payload))
  }

  function WithPointer(env: Env, d: Disk, m: Mutation, publication: Publication): Disk {
    ApplyWrite(d, WritePointer(RefOf(m.target, publication),
                               NewPointer(env, m.target, m.afterHash, HeadRef(d, m.target), publication)))
  }

  function WithHead(d: Disk, m: Mutation, publication: Publication): Disk {
    ApplyWrite(d, WriteHead(m.target, RefOf(m.target, publication)))
  }

  /** The stores between the writes of a fresh staging. */
  lemma FreshPrefix(env: Env, d: Disk, m: Mutation, payload: Bytes, publication: Publication, k: nat)
    requires 0 < k <= |FreshWrites(env, d, m, payload, publication)|
    ensures var writes := FreshWrites(env, d, m, payload, publication);
            var crashed := ApplyAll(d, writes[..k]);
            var d1 := WithVersion(d, m, payload);
            var d2 := WithPointer(env, d1, m, publication);
            var d3 := WithHead(d2, m, publication);
            && ApplyAll(d, writes) == d3
            && (crashed == d2 || crashed == d3 || (crashed == d1 && d1 != d))
  {
    var writes := FreshWrites(env, d, m, payload, publication);
    var ref, version := RefOf(m.target, publication), VersionRef(m.target, m.afterHash);
    var pointer := NewPointer(env, m.target, m.afterHash, HeadRef(d, m.target), publication);
    var first := if version in d.versions then [] else [WriteVersion(version, payload)];
    var tail := [WritePointer(ref, pointer), WriteHead(m.target, ref)];
    assert writes == first + tail;
    var d1 := ApplyAll(d, first);
    assert d1 == WithVersion(d, m, payload) by {
      if first != [] {
        ApplyOne(d, first[0]);
      }
    }
    ApplyAllConcat(d, first, tail);
    ApplyPair(d1, tail[0], tail[1]);
    ApplyOne(d1, tail[0]);
    if k == |first| + 1 {
      assert writes[..k] == first + [tail[0]];
      ApplyAllConcat(d, first, [tail[0]]);
    } else if k == |first| + 2 {
      assert writes[..k] == first + tail;
    } else {
      assert writes[..k] == first;
      assert version in d1.versions;
    }
  }

  lemma NewPointerOk(env: Env, d: Disk, rank: Rank, m: Mutation, publication: Publication)
    requires Inv(env, d, rank) && Request(env, m, publication) && |m.afterHash| == 64
    requires RefOf(m.target, publication) !in d.pointers
    requires VersionRef(m.target, m.afterHash) in d.versions
    requires env.sha(d.versions[VersionRef(m.target, m.afterHash)]) == m.afterHash
    ensures var pointer := NewPointer(env, m.target, m.afterHash, HeadRef(d, m.target), publication);
            WriteOk(env, d, WritePointer(RefOf(m.target, publication), pointer))
  {
    assert m.target in d.heads ==> HeadOk(d, m.target);
  }

  /** The creation order, with the publication's pointer last if staging got as far as writing it. */
  function RankWith(rank: Rank, d: Disk, ref: PointerRef): Rank {
    if ref in d.pointers && ref !in rank then rank[ref := |rank|] else rank
  }

  lemma VersionStep(env: Env, d: Disk, rank: Rank, m: Mutation, payload: Bytes, target: TargetKey, reader: Scope)
    requires Hashes(env) && Inv(env, d, rank) && env.sha(payload) == m.afterHash
    requires VersionRef(m.target, m.afterHash) in d.versions
             ==> d.versions[VersionRef(m.target, m.afterHash)] == payload
    ensures var d1 := WithVersion(d, m, payload);
            && Inv(env, d1, rank)
            && SameAnswers(env, d, d1, target, reader)
            && d1 == d.(versions := d1.versions)
            && VersionRef(m.target, m.afterHash) in d1.versions
            && d1.versions[VersionRef(m.target, m.afterHash)] == payload
  {
    var version := VersionRef(m.target, m.afterHash);
    if version !in d.versions {
      WriteKeepsInv(env, d, rank, WriteVersion(version, payload));
      WriteIsInvisible(env, d, rank, WriteVersion(version, payload), target, reader);
    }
  }

  lemma PointerStep(env: Env, d: Disk, rank: Rank, m: Mutation, publication: Publication, target: TargetKey,
                    reader: Scope)
    requires Hashes(env) && Inv(env, d, rank) && Request(env, m, publication) && |m.afterHash| == 64
    requires RefOf(m.target, publication) !in d.pointers
    requires VersionRef(m.target, m.afterHash) in d.versions
    requires env.sha(d.versions[VersionRef(m.target, m.afterHash)]) == m.afterHash
    ensures Inv(env, WithPointer(env, d, m, publication), rank[RefOf(m.target, publication) := |rank|])
    ensures SameAnswers(env, d, WithPointer(env, d, m, publication), target, reader)
  {
    var w := WritePointer(RefOf(m.target, publication),
                          NewPointer(env, m.target, m.afterHash, HeadRef(d, m.target), publication));
    NewPointerOk(env, d, rank, m, publication);
    WriteKeepsInv(env, d, rank, w);
    WriteIsInvisible(env, d, rank, w, target, reader);
  }

  lemma HeadStep(env: Env, d: Disk, rank: Rank, m: Mutation, publication: Publication, target: TargetKey, reader: Scope)
    requires Hashes(env) && Inv(env, d, rank)
    requires RefOf(m.target, publication) in d.pointers && HeadUndisturbed(d, m, publication)
    requires d.pointers[RefOf(m.target, publication)].publication == publication
    requires !Committed(env, d.reports, publication, reader)
    ensures Inv(env, WithHead(d, m, publication), rank)
    ensures SameAnswers(env, d, WithHead(d, m, publication), target, reader)
  {
    var w := WriteHead(m.target, RefOf(m.target, publication));
    WriteKeepsInv(env, d, rank, w);
    WriteIsInvisible(env, d, rank, w, target, reader);
  }

  /** The store after a prefix of the writes is sound, and no reader of the target sees a difference. */
  ghost predicate Unseen(env: Env, d: Disk, crashed: Disk, rank: Rank, target: TargetKey, reader: Scope) {
    Inv(env, crashed, rank) && SameAnswers(env, d, crashed, target, reader)
  }

  lemma FreshSteps(env: Env, d: Disk, rank: Rank, m: Mutation, payload: Bytes, publication: Publication,
                   target: TargetKey, reader: Scope)
    requires Hashes(env) && Inv(env, d, rank) && Request(env, m, publication) && env.sha(payload) == m.afterHash
    requires RefOf(m.target, publication) !in d.pointers
    requires VersionRef(m.target, m.afterHash) in d.versions
             ==> d.versions[VersionRef(m.target, m.afterHash)] == payload
    requires !Committed(env, d.reports, publication, reader)
    ensures var d1 := WithVersion(d, m, payload);
            var d2 := WithPointer(env, d1, m, publication);
            var d3 := WithHead(d2, m, publication);
            var rank' := rank[RefOf(m.target, publication) := |rank|];
            && Unseen(env, d, d1, rank, target, reader)
            && Unseen(env, d, d2, rank', target, reader) && Unseen(env, d, d3, rank', target, reader)
  {
    VersionStep(env, d, rank, m, payload, target, reader);
    AfterVersion(env, d, rank, m, payload, publication, WithVersion(d, m, payload), target, reader);
  }

  lemma AfterVersion(env: Env, d: Disk, rank: Rank, m: Mutation, payload: Bytes, publication: Publication, d1: Disk,
                     target: TargetKey, reader: Scope)
    requires Hashes(env) && Inv(env, d1, rank) && Request(env, m, publication) && env.sha(payload) == m.afterHash
    requires SameAnswers(env, d, d1, target, reader)
    requires RefOf(m.target, publication) !in d1.pointers
    requires VersionRef(m.target, m.afterHash) in d1.versions
             && d1.versions[VersionRef(m.target, m.afterHash)] == payload
    requires !Committed(env, d1.reports, publication, reader)
    ensures var d2 := WithPointer(env, d1, m, publication);
            var d3 := WithHead(d2, m, publication);
            var rank' := rank[RefOf(m.target, publication) := |rank|];
            && Unseen(env, d, d2, rank', target, reader) && Unseen(env, d, d3, rank', target, reader)
  {
    PointerThenHead(env, d1, rank, m, publication, target, reader);
  }

  lemma PointerThenHead(env: Env, d: Disk, rank: Rank, m: Mutation, publication: Publication, target: TargetKey,
                        reader: Scope)
    requires Hashes(env) && Inv(env, d, rank) && Request(env, m, publication) && |m.afterHash| == 64
    requires RefOf(m.target, publication) !in d.pointers
    requires VersionRef(m.target, m.afterHash) in d.versions
    requires env.sha(d.versions[VersionRef(m.target, m.afterHash)]) == m.afterHash
    requires !Committed(env, d.reports, publication, reader)
    ensures var d2 := WithPointer(env, d, m, publication);
            var d3 := WithHead(d2, m, publication);
            var rank' := rank[RefOf(m.target, publication) := |rank|];
            && Inv(env, d2, rank') && Inv(env, d3, rank')
            && SameAnswers(env, d, d2, target, reader) && SameAnswers(env, d, d3, target, reader)
  {
    hide Inv;
    var d2 := WithPointer(env, d, m, publication);
    PointerStep(env, d, rank, m, publication, target, reader);
    assert d2.reports == d.reports && HeadUndisturbed(d2, m, publication);
    HeadStep(env, d2, rank[RefOf(m.target, publication) := |rank|], m, publication, target, reader);
  }

  /** The writes a plan can hold: a head for a pointer that is there, or a fresh staging. */
  ghost predicate PlannedWrites(env: Env, d: Disk, m: Mutation, payload: Bytes, publication: Publication,
                                writes: seq<Write>)
  {
    var ref, version := RefOf(m.target, publication), VersionRef(m.target, m.afterHash);
    || writes == []
    || (ref in d.pointers && d.pointers[ref].publication == publication && writes == [WriteHead(m.target, ref)])
    || (ref !in d.pointers && writes == FreshWrites(env, d, m, payload, publication) && env.sha(payload) == m.afterHash
        && (version in d.versions ==> d.versions[version] == payload))
  }

  lemma PlanIsPlanned(env: Env, d: Disk, rank: Rank, m: Mutation, payload: Bytes, publication: Publication,
                      stager: Scope)
    requires Inv(env, d, rank) && PlanStage(env, d, m, payload, publication, stager).Ok?
    ensures PlannedWrites(env, d, m, payload, publication,
            PlanStage(env, d, m, payload, publication, stager).value.writes)
  {
  }

  /** The order that goes with each store of a fresh staging. */
  lemma RankOfPrefix(env: Env, d: Disk, rank: Rank, m: Mutation, payload: Bytes, publication: Publication)
    requires Inv(env, d, rank) && RefOf(m.target, publication) !in d.pointers
    ensures var ref := RefOf(m.target, publication);
            var d1 := WithVersion(d, m, payload);
            var d2 := WithPointer(env, d1, m, publication);
            && RankWith(rank, d1, ref) == rank
            && RankWith(rank, d2, ref) == rank[ref := |rank|]
            && RankWith(rank, WithHead(d2, m, publication), ref) == rank[ref := |rank|]
  {
  }

  lemma FreshStoresUnseen(env: Env, d: Disk, rank: Rank, m: Mutation, payload: Bytes, publication: Publication,
                          d1: Disk, d2: Disk, d3: Disk, target: TargetKey, reader: Scope)
    requires Hashes(env) && Inv(env, d, rank) && Request(env, m, publication) && env.sha(payload) == m.afterHash
    requires RefOf(m.target, publication) !in d.pointers
    requires VersionRef(m.target, m.afterHash) in d.versions
             ==> d.versions[VersionRef(m.target, m.afterHash)] == payload
    requires !Committed(env, d.reports, publication, reader)
    requires d1 == WithVersion(d, m, payload) && d2 == WithPointer(env, d1, m, publication)
             && d3 == WithHead(d2, m, publication)
    ensures var ref := RefOf(m.target, publication);
            && Unseen(env, d, d1, RankWith(rank, d1, ref), target, reader)
            && Unseen(env, d, d2, RankWith(rank, d2, ref), target, reader)
            && Unseen(env, d, d3, RankWith(rank, d3, ref), target, reader)
  {
    FreshSteps(env, d, rank, m, payload, publication, target, reader);
    RankOfPrefix(env, d, rank, m, payload, publication);
  }

  lemma OneOfThree(env: Env, d: Disk, crashed: Disk, d1: Disk, d2: Disk, d3: Disk, rank: Rank, ref: PointerRef,
                   target: TargetKey, reader: Scope)
    requires crashed == d1 || crashed == d2 || crashed == d3
    requires Unseen(env, d, d1, RankWith(rank, d1, ref), target, reader)
    requires Unseen(env, d, d2, RankWith(rank, d2, ref), target, reader)
    requires Unseen(env, d, d3, RankWith(rank, d3, ref), target, reader)
    ensures Unseen(env, d, crashed, RankWith(rank, crashed, ref), target, reader)
  {
  }

  lemma PrefixUnseen(env: Env, d: Disk, rank: Rank, m: Mutation, payload: Bytes, publication: Publication,
                     writes: seq<Write>, k: nat, crashed: Disk, target: TargetKey, reader: Scope)
    requires Hashes(env) && Inv(env, d, rank) && Request(env, m, publication)
    requires PlannedWrites(env, d, m, payload, publication, writes)
    requires k <= |writes| && crashed == ApplyAll(d, writes[..k])
    requires !Committed(env, d.reports, publication, reader)
    requires HeadUndisturbed(d, m, publication)
    ensures Unseen(env, d, crashed, RankWith(rank, crashed, RefOf(m.target, publication)), target, reader)
  {
    hide Hashes;
    var ref := RefOf(m.target, publication);
    if k == 0 {
      assert writes[..0] == [];
    } else if ref in d.pointers {
      assert writes[..k] == [WriteHead(m.target, ref)];
      ApplyOne(d, WriteHead(m.target, ref));
      HeadStep(env, d, rank, m, publication, target, reader);
    } else {
      var d1 := WithVersion(d, m, payload);
      var d2 := WithPointer(env, d1, m, publication);
      var d3 := WithHead(d2, m, publication);
      FreshPrefix(env, d, m, payload, publication, k);
      FreshStoresUnseen(env, d, rank, m, payload, publication, d1, d2, d3, target, reader);
      OneOfThree(env, d, crashed, d1, d2, d3, rank, ref, target, reader);
    }
  }

  /** Staging is invisible: after any prefix of the writes of an uncommitted publication, for
      every target, every reader gets the answer it got before. */
  lemma StagingIsInvisible(env: Env, d: Disk, rank: Rank, m: Mutation, payload: Bytes, publication: Publication,
                           stager: Scope, k: nat, target: TargetKey, reader: Scope)
    requires Hashes(env) && Inv(env, d, rank) && Request(env, m, publication)
    requires PlanStage(env, d, m, payload, publication, stager).Ok?
    requires k <= |PlanStage(env, d, m, payload, publication, stager).value.writes|
    requires !Committed(env, d.reports, publication, reader)
    requires HeadUndisturbed(d, m, publication)
    ensures var crashed := ApplyAll(d, PlanStage(env, d, m, payload, publication, stager).value.writes[..k]);
            && Inv(env, crashed, RankWith(rank, crashed, RefOf(m.target, publication)))
            && SameAnswers(env, d, crashed, target, reader)
  {
    var writes := PlanStage(env, d, m, payload, publication, stager).value.writes;
    PlanIsPlanned(env, d, rank, m, payload, publication, stager);
    PrefixUnseen(env, d, rank, m, payload, publication, writes, k, ApplyAll(d, writes[..k]), target, reader);
  }

  // ---------- interrupting and repeating a staging ----------

  /** After any prefix of its writes, planning the same mutation again leads to the same store
      and the same status as the uninterrupted call. */
  lemma CrashThenRetryIsOneRun(env: Env, d: Disk, rank: Rank, m: Mutation, payload: Bytes, publication: Publication,
                               stager: Scope, k: nat)
    requires Hashes(env)
    requires Inv(env, d, rank) && Request(env, m, publication)
    requires PlanStage(env, d, m, payload, publication, stager).Ok?
    requires k <= |PlanStage(env, d, m, payload, publication, stager).value.writes|
    requires !Committed(env, d.reports, publication, stager)
    requires HeadUndisturbed(d, m, publication)
    ensures var plan := PlanStage(env, d, m, payload, publication, stager).value;
            var crashed := ApplyAll(d, plan.writes[..k]);
            var again := PlanStage(env, crashed, m, payload, publication, stager);
            && again.Ok?
            && again.value.status == plan.status
            && again.value.before == plan.before
            && ApplyAll(crashed, again.value.writes) == ApplyAll(d, plan.writes)
  {
    hide Inv;
    var plan := PlanStage(env, d, m, payload, publication, stager).value;
    var crashed := ApplyAll(d, plan.writes[..k]);
    CrashKeepsCurrent(env, d, rank, m, payload, publication, stager, k);
    if k == 0 {
      assert plan.writes[..0] == [];
    } else if RefOf(m.target, publication) in d.pointers {
      assert plan.writes[..k] == plan.writes;
      RetryAfterHead(env, d, m, payload, publication, stager, crashed);
    } else {
      RetryAfterFreshWrites(env, d, m, payload, publication, stager, k, crashed);
    }
  }

  lemma CrashKeepsCurrent(env: Env, d: Disk, rank: Rank, m: Mutation, payload: Bytes, publication: Publication,
                          stager: Scope, k: nat)
    requires Hashes(env)
    requires Inv(env, d, rank) && Request(env, m, publication)
    requires PlanStage(env, d, m, payload, publication, stager).Ok?
    requires k <= |PlanStage(env, d, m, payload, publication, stager).value.writes|
    requires !Committed(env, d.reports, publication, stager)
    requires HeadUndisturbed(d, m, publication)
    ensures var crashed := ApplyAll(d, PlanStage(env, d, m, payload, publication, stager).value.writes[..k]);
            SameCurrent(env, d, crashed, m.target, stager)
  {
    StagingIsInvisible(env, d, rank, m, payload, publication, stager, k, m.target, stager);
    CommittedBytesAreReadable(env, d, rank, m.target, stager);
  }

  predicate SameCurrent(env: Env, d: Disk, d': Disk, target: TargetKey, reader: Scope) {
    var current := CommittedPointer(env, d, target, reader);
    && CommittedPointer(env, d', target, reader) == current
    && (current.Some? ==> VersionBytes(env, d', current.value) == VersionBytes(env, d, current.value))
  }

  lemma RetryAfterHead(env: Env, d: Disk, m: Mutation, payload: Bytes, publication: Publication, stager: Scope,
                       crashed: Disk)
    requires PlanStage(env, d, m, payload, publication, stager).Ok?
    requires RefOf(m.target, publication) in d.pointers
    requires crashed == ApplyAll(d, PlanStage(env, d, m, payload, publication, stager).value.writes)
    requires SameCurrent(env, d, crashed, m.target, stager)
    ensures PlanStage(env, crashed, m, payload, publication, stager)
            == PlanStage(env, d, m, payload, publication, stager)
    ensures ApplyAll(crashed, PlanStage(env, d, m, payload, publication, stager).value.writes) == crashed
  {
    var writes := PlanStage(env, d, m, payload, publication, stager).value.writes;
    if writes != [] {
      assert writes == [WriteHead(m.target, RefOf(m.target, publication))];
      ApplyOne(d, writes[0]);
      ApplyOne(crashed, writes[0]);
    }
  }

  lemma AllFreshWrites(env: Env, d: Disk, m: Mutation, payload: Bytes, publication: Publication)
    ensures var ref, version := RefOf(m.target, publication), VersionRef(m.target, m.afterHash);
            var d1 := WithVersion(d, m, payload);
            ApplyAll(d, FreshWrites(env, d, m, payload, publication))
            == d1.(pointers := d1.pointers[ref :=
                NewPointer(env, m.target, m.afterHash, HeadRef(d, m.target), publication)],
                   heads := d1.heads[m.target := ref])
  {
    FreshPrefix(env, d, m, payload, publication, 1);
  }

  lemma RetryAfterFreshWrites(env: Env, d: Disk, m: Mutation, payload: Bytes, publication: Publication,
                              stager: Scope, k: nat, crashed: Disk)
    requires PlanStage(env, d, m, payload, publication, stager).Ok?
    requires RefOf(m.target, publication) !in d.pointers
    requires 0 < k <= |PlanStage(env, d, m, payload, publication, stager).value.writes|
    requires crashed == ApplyAll(d, PlanStage(env, d, m, payload, publication, stager).value.writes[..k])
    requires SameCurrent(env, d, crashed, m.target, stager)
    ensures var plan := PlanStage(env, d, m, payload, publication, stager).value;
            var again := PlanStage(env, crashed, m, payload, publication, stager);
            && again.Ok?
            && again.value.status == plan.status
            && again.value.before == plan.before
            && ApplyAll(crashed, again.value.writes) == ApplyAll(d, plan.writes)
  {
    hide Walk;
    FreshPrefix(env, d, m, payload, publication, k);
    if RefOf(m.target, publication) in crashed.pointers {
      RetryWithPointer(env, d, m, payload, publication, stager, crashed);
    } else {
      RetryWithVersion(env, d, m, payload, publication, stager, crashed);
    }
  }

  lemma RetryWithPointer(env: Env, d: Disk, m: Mutation, payload: Bytes, publication: Publication, stager: Scope,
                         crashed: Disk)
    requires PlanStage(env, d, m, payload, publication, stager).Ok?
    requires PlanStage(env, d, m, payload, publication, stager).value.status == Applied
    requires RefOf(m.target, publication) !in d.pointers
    requires SameCurrent(env, d, crashed, m.target, stager)
    requires var d2 := WithPointer(env, WithVersion(d, m, payload), m, publication);
             crashed == d2 || crashed == WithHead(d2, m, publication)
    ensures var again := PlanStage(env, crashed, m, payload, publication, stager);
            && again == Ok(Plan(Applied, PlanStage(env, d, m, payload, publication, stager).value.before,
                                [WriteHead(m.target, RefOf(m.target, publication))]))
            && ApplyAll(crashed, again.value.writes)
               == WithHead(WithPointer(env, WithVersion(d, m, payload), m, publication), m, publication)
  {
    hide CommittedPointer;
    ApplyOne(crashed, WriteHead(m.target, RefOf(m.target, publication)));
  }

  lemma RetryWithVersion(env: Env, d: Disk, m: Mutation, payload: Bytes, publication: Publication, stager: Scope,
                         crashed: Disk)
    requires PlanStage(env, d, m, payload, publication, stager).Ok?
    requires PlanStage(env, d, m, payload, publication, stager).value.status == Applied
    requires RefOf(m.target, publication) !in d.pointers
    requires SameCurrent(env, d, crashed, m.target, stager)
    requires crashed == WithVersion(d, m, payload)
    ensures var again := PlanStage(env, crashed, m, payload, publication, stager);
            && again == Ok(Plan(Applied, PlanStage(env, d, m, payload, publication, stager).value.before,
                                FreshWrites(env, crashed, m, payload, publication)))
            && ApplyAll(crashed, again.value.writes)
               == WithHead(WithPointer(env, crashed, m, publication), m, publication)
  {
    hide Walk;
    FreshPrefix(env, crashed, m, payload, publication, 1);
  }
}
