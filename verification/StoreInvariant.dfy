/** What the state store keeps on disk, and why the reader's walk ends where it should. */
module StoreInvariant {
  import opened Wrappers
  import opened CommitChain
  import opened PublishedState

  /** A creation order of the pointers. */
  type Rank = map<PointerRef, nat>

  // ---------- the invariant of the store ----------

  predicate PredecessorOk(d: Disk, rank: Rank, r: PointerRef)
    requires r in d.pointers && rank.Keys == d.pointers.Keys
  {
    var q := d.pointers[r].predecessor;
    q.Some? ==> q.value in d.pointers && q.value.target == r.target && rank[q.value] < rank[r]
  }

  /** Predecessors exist, belong to the same target, and were created strictly earlier. */
  ghost predicate Linked(d: Disk, rank: Rank) {
    && rank.Keys == d.pointers.Keys
    && (forall r | r in rank :: rank[r] < |rank|)
    && (forall r | r in d.pointers :: PredecessorOk(d, rank, r))
  }

  /** The pointer `p` describes the file name `r` it is stored under. */
  ghost predicate NamedBy(env: Env, r: PointerRef, p: Pointer) {
    && p.target == r.target && p.publication.runId == r.runId && p.publication.publicationId == r.publicationId
    && IsRunId(r.runId) && IsPublicationId(r.publicationId) && |p.afterHash| == 64
    && PointerText(r.target, r.runId, r.publicationId, p.afterHash) in env.hashed
    && p.pointerId == env.sha(PointerText(r.target, r.runId, r.publicationId, p.afterHash))
    && p.version == VersionRef(r.target, p.afterHash)
  }

  /** ... and its version holds bytes that hash to `afterHash`. */
  ghost predicate PointerOk(env: Env, versions: map<VersionRef, Bytes>, r: PointerRef, p: Pointer) {
    NamedBy(env, r, p) && p.version in versions && env.sha(versions[p.version]) == p.afterHash
  }

  predicate HeadOk(d: Disk, target: TargetKey)
    requires target in d.heads
  {
    d.heads[target] in d.pointers && d.heads[target].target == target
  }

  ghost predicate Inv(env: Env, d: Disk, rank: Rank) {
    && Linked(d, rank)
    && (forall r | r in d.pointers :: PointerOk(env, d.versions, r, d.pointers[r]))
    && (forall t | t in d.heads :: HeadOk(d, t))
  }

  // ---------- pointer ids ----------

  /** The concatenation that names a pointer can be read back: nothing separates its parts, but
      the digest and the run id have fixed lengths and a publication id is `p` and digits. */
  lemma PointerTextDecodes(t: TargetKey, r: string, p: string, h: Digest,
                           t': TargetKey, r': string, p': string, h': Digest)
    requires IsRunId(r) && IsRunId(r') && IsPublicationId(p) && IsPublicationId(p')
    requires |h| == 64 && |h'| == 64
    requires PointerText(t, r, p, h) == PointerText(t', r', p', h')
    ensures t == t' && r == r' && p == p' && h == h'
  {
    var x, x' := t + r + p, t' + r' + p';
    assert PointerText(t, r, p, h) == x + h && PointerText(t', r', p', h') == x' + h';
    assert x == (x + h)[..|x|] && x' == (x' + h')[..|x'|];
    assert h == (x + h)[|x|..] && h' == (x' + h')[|x'|..];
    PublicationIdDecodes(t + r, p, t' + r', p');
    assert t == (t + r)[..|t|] && t' == (t' + r')[..|t'|];
    assert r == (t + r)[|t|..] && r' == (t' + r')[|t'|..];
  }

  lemma PublicationIdDecodes(a: string, p: string, a': string, p': string)
    requires IsPublicationId(p) && IsPublicationId(p') && a + p == a' + p'
    ensures a == a' && p == p'
  {
    var x := a + p;
    assert forall k | 0 <= k < |p| :: x[|a| + k] == p[k];
    assert forall k | 0 <= k < |p'| :: x[|a'| + k] == p'[k];
    assert forall i | |a| < i < |x| :: x[i] == p[i - |a|] && x[i] != 'p';
    assert forall i | |a'| < i < |x| :: x[i] == p'[i - |a'|] && x[i] != 'p';
    assert |a| == |a'|;
    assert a == x[..|a|] && a' == x[..|a'|];
    assert p == x[|a|..] && p' == x[|a'|..];
  }

  lemma DistinctIds(env: Env, d: Disk, rank: Rank, r: PointerRef, s: PointerRef)
    requires Hashes(env)
    requires Inv(env, d, rank)
    requires r in d.pointers && s in d.pointers && d.pointers[r].pointerId == d.pointers[s].pointerId
    ensures r == s
  {
    var p, q := d.pointers[r], d.pointers[s];
    assert PointerOk(env, d.versions, r, p) && PointerOk(env, d.versions, s, q);
    PointerTextDecodes(r.target, r.runId, r.publicationId, p.afterHash,
                       s.target, s.runId, s.publicationId, q.afterHash);
  }

  // ---------- the walk, without its guards ----------

  /** The first pointer along the predecessors whose publication is committed. */
  ghost function FirstCommitted(env: Env, d: Disk, rank: Rank, ref: Option<PointerRef>, reader: Scope): Option<Pointer>
    requires Linked(d, rank)
    requires ref.Some? ==> ref.value in d.pointers
    decreases if ref.None? then 0 else rank[ref.value] + 1
  {
    if ref.None? then None
    else
      var p := d.pointers[ref.value];
      assert PredecessorOk(d, rank, ref.value);
      if Committed(env, d.reports, p.publication, reader) then Some(p)
      else FirstCommitted(env, d, rank, p.predecessor, reader)
  }

  /** The pointers the walk has still to visit are none of those it has seen. */
  lemma SeenIsBehind(env: Env, d: Disk, rank: Rank, r: PointerRef, seen: set<Digest>)
    requires Hashes(env) && Inv(env, d, rank) && r in d.pointers
    requires forall s | s in d.pointers && rank[s] <= rank[r] :: d.pointers[s].pointerId !in seen
    ensures forall s | s in d.pointers && rank[s] < rank[r] ::
            d.pointers[s].pointerId !in seen + {d.pointers[r].pointerId}
  {
    hide PointerOk;
    forall s | s in d.pointers && rank[s] < rank[r]
      ensures d.pointers[s].pointerId !in seen + {d.pointers[r].pointerId}
    {
      if d.pointers[s].pointerId == d.pointers[r].pointerId {
        DistinctIds(env, d, rank, s, r);
      }
    }
  }

  lemma {:induction false} WalkFollowsLinks(env: Env, d: Disk, rank: Rank, ref: Option<PointerRef>, target: TargetKey,
                                            reader: Scope, seen: set<Digest>)
    requires Hashes(env)
    requires Inv(env, d, rank)
    requires ref.Some? ==> ref.value in d.pointers && ref.value.target == target
    requires ref.Some? ==>
               forall s | s in d.pointers && rank[s] <= rank[ref.value] :: d.pointers[s].pointerId !in seen
    ensures Walk(env, d, ReadPointer(d, ref), target, reader, seen) == FirstCommitted(env, d, rank, ref, reader)
    decreases if ref.None? then 0 else rank[ref.value] + 1
  {
    hide Committed;
    if ref.Some? {
      var p := d.pointers[ref.value];
      assert PointerOk(env, d.versions, ref.value, p);
      assert PredecessorOk(d, rank, ref.value);
      if !Committed(env, d.reports, p.publication, reader) {
        var q := p.predecessor;
        SeenIsBehind(env, d, rank, ref.value, seen);
        WalkFollowsLinks(env, d, rank, q, target, reader, seen + {p.pointerId});
      }
    }
  }

  /** In a store that satisfies the invariant no reader's walk ever ends at its cycle, identity
      or target guard: it ends at the first committed pointer, or after the oldest one. */
  lemma ReaderSeesFirstCommitted(env: Env, d: Disk, rank: Rank, target: TargetKey, reader: Scope)
    requires Hashes(env)
    requires Inv(env, d, rank)
    ensures target in d.heads ==> HeadOk(d, target)
    ensures CommittedPointer(env, d, target, reader) == FirstCommitted(env, d, rank, HeadRef(d, target), reader)
  {
    assert target in d.heads ==> HeadOk(d, target);
    WalkFollowsLinks(env, d, rank, HeadRef(d, target), target, reader, {});
  }

  /** A reader gets the bytes of the pointer it sees: the hash check never fails. */
  lemma CommittedBytesAreReadable(env: Env, d: Disk, rank: Rank, target: TargetKey, reader: Scope)
    requires Hashes(env)
    requires Inv(env, d, rank)
    ensures var p := CommittedPointer(env, d, target, reader);
            p.Some? ==>
              && RefOf(target, p.value.publication) in d.pointers
              && d.pointers[RefOf(target, p.value.publication)] == p.value
              && Committed(env, d.reports, p.value.publication, reader)
              && p.value.version in d.versions
              && env.sha(d.versions[p.value.version]) == p.value.afterHash
              && ReadCommitted(env, d, target, reader) == Some(d.versions[p.value.version])
  {
    ReaderSeesFirstCommitted(env, d, rank, target, reader);
    FirstCommittedIsStored(env, d, rank, HeadRef(d, target), target, reader);
  }

  lemma {:induction false} FirstCommittedIsStored(env: Env, d: Disk, rank: Rank, ref: Option<PointerRef>,
                                                  target: TargetKey,
                                                  reader: Scope)
    requires Inv(env, d, rank)
    requires ref.Some? ==> ref.value in d.pointers && ref.value.target == target
    ensures var c := FirstCommitted(env, d, rank, ref, reader);
            c.Some? ==>
              && RefOf(target, c.value.publication) in d.pointers
              && d.pointers[RefOf(target, c.value.publication)] == c.value
              && Committed(env, d.reports, c.value.publication, reader)
              && PointerOk(env, d.versions, RefOf(target, c.value.publication), c.value)
    decreases if ref.None? then 0 else rank[ref.value] + 1
  {
    if ref.Some? {
      assert PredecessorOk(d, rank, ref.value);
      assert PointerOk(env, d.versions, ref.value, d.pointers[ref.value]);
      FirstCommittedIsStored(env, d, rank, d.pointers[ref.value].predecessor, target, reader);
    }
  }
}
