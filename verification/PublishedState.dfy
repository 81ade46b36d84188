/** The versioned state store: what is on disk, what readers see of it, and how one mutation is
    staged (autoresearch/common/published_state.py). Files are entries of maps and every write
    replaces one file atomically, so a crash leaves a prefix of the writes. */
module PublishedState {
  import opened Wrappers
  import opened Strings
  import opened CommitChain

  type TargetKey = string
  type Scope = string
  /** A byte string, one character per byte. Text stands for its UTF-8 encoding. */
  type Bytes = seq<char>

  datatype Publication = Publication(
    engine: string, runId: string, publicationId: string, bundleHash: Digest, scope: Option<Scope>)

  /** `pointers/<target>/<run>-<publication>.json` */
  datatype PointerRef = PointerRef(target: TargetKey, runId: string, publicationId: string)

  /** `versions/<target>/<digest>.bin` */
  datatype VersionRef = VersionRef(target: TargetKey, digest: Digest)

  /** `<reports root>/_publications/<run>/<publication>.json` */
  datatype ReceiptRef = ReceiptRef(scope: Scope, runId: string, publicationId: string)

  datatype Pointer = Pointer(
    pointerId: Digest,
    target: TargetKey,
    afterHash: Digest,
    version: VersionRef,
    predecessor: Option<PointerRef>,
    publication: Publication)

  /** The receipt files and the receipt chain of every reports root. */
  datatype Reports = Reports(receipts: map<ReceiptRef, Receipt>, chains: map<Scope, ChainFile>)

  datatype Disk = Disk(
    heads: map<TargetKey, PointerRef>,
    pointers: map<PointerRef, Pointer>,
    versions: map<VersionRef, Bytes>,
    reports: Reports)

  /** The two JSON fields that order payloads under ADVANCE_IF_NEWER. */
  datatype Stamp = Stamp(asOf: string, sessionRunId: string)

  /** What the store calls but does not define: the digests, and the reading of a payload as a
      JSON object. `hashed` are the byte strings this installation ever hashes. */
  datatype Env = Env(
    sha: Bytes -> Digest,
    bodySha: BodyHash,
    stamp: Bytes -> Option<Stamp>,
    hashed: iset<Bytes>)

  /** SHA-256 as far as the store relies on it: 64 characters, and no collision on what is hashed. */
  ghost predicate Hashes(env: Env) {
    && (forall x :: |env.sha(x)| == 64)
    && (forall x, y | x in env.hashed && y in env.hashed && env.sha(x) == env.sha(y) :: x == y)
  }

  // ---------- reading ----------

  predicate SimpleName(s: string) { '/' !in s && s != "." }

  /** The reports root whose receipts decide about a publication; none if its scope is no plain name. */
  function ReceiptScope(publication: Publication, reader: Scope): Option<Scope> {
    if publication.scope.None? || publication.scope.value == "" then Some(reader)
    else if SimpleName(publication.scope.value) then publication.scope
    else None
  }

  function ChainAt(reports: Reports, scope: Scope): ChainFile {
    if scope in reports.chains then reports.chains[scope] else EMPTY_FILE
  }

  predicate Receipted(env: Env, reports: Reports, publication: Publication, scope: Scope) {
    var key := ReceiptRef(scope, publication.runId, publication.publicationId);
    && key in reports.receipts
    && ValidReceipt(reports.receipts[key], env.bodySha)
    && reports.receipts[key] in ReadChain(ChainAt(reports, scope), env.bodySha)
    && reports.receipts[key].body.engine == publication.engine
    && reports.receipts[key].body.runId == publication.runId
    && reports.receipts[key].body.publicationId == publication.publicationId
    && reports.receipts[key].body.bundleHash == publication.bundleHash
  }

  predicate Committed(env: Env, reports: Reports, publication: Publication, reader: Scope) {
    var scope := ReceiptScope(publication, reader);
    scope.Some? && Receipted(env, reports, publication, scope.value)
  }

  function PointerIds(d: Disk): set<Digest> {
    set r | r in d.pointers :: d.pointers[r].pointerId
  }

  function ReadPointer(d: Disk, ref: Option<PointerRef>): (p: Option<Pointer>)
    ensures p.Some? ==> p.value.pointerId in PointerIds(d)
  {
    if ref.Some? && ref.value in d.pointers then Some(d.pointers[ref.value]) else None
  }

  function HeadRef(d: Disk, target: TargetKey): Option<PointerRef> {
    if target in d.heads then Some(d.heads[target]) else None
  }

  /** The reader's walk, guards included. */
  function Walk(env: Env, d: Disk, pointer: Option<Pointer>, target: TargetKey, reader: Scope, seen: set<Digest>)
    : Option<Pointer>
    requires pointer.Some? ==> pointer.value.pointerId in PointerIds(d)
    decreases PointerIds(d) - seen
  {
    if pointer.None? then None
    else
      var p := pointer.value;
      if p.pointerId == "" || p.pointerId in seen || p.target != target then None
      else if Committed(env, d.reports, p.publication, reader) then Some(p)
      else Walk(env, d, ReadPointer(d, p.predecessor), target, reader, seen + {p.pointerId})
  }

  function CommittedPointer(env: Env, d: Disk, target: TargetKey, reader: Scope): Option<Pointer> {
    Walk(env, d, ReadPointer(d, HeadRef(d, target)), target, reader, {})
  }

  function VersionBytes(env: Env, d: Disk, p: Pointer): Option<Bytes> {
    if p.version in d.versions && env.sha(d.versions[p.version]) == p.afterHash
    then Some(d.versions[p.version]) else None
  }

  function ReadCommitted(env: Env, d: Disk, target: TargetKey, reader: Scope): Option<Bytes> {
    var p := CommittedPointer(env, d, target, reader);
    if p.None? then None else VersionBytes(env, d, p.value)
  }

  // ---------- ordering of payloads ----------

  function Ordering(env: Env, payload: Bytes, runId: string): Stamp {
    match env.stamp(payload)
    case None => Stamp("", runId)
    case Some(s) => Stamp(s.asOf, if s.sessionRunId == "" then runId else s.sessionRunId)
  }

  predicate StampLess(a: Stamp, b: Stamp) {
    if a.asOf != b.asOf then StringLess(a.asOf, b.asOf) else StringLess(a.sessionRunId, b.sessionRunId)
  }

  // ---------- staging ----------

  datatype Policy = CasReplace | IdempotentAppend | AdvanceIfNewer

  datatype Mutation = Mutation(
    target: TargetKey, expectedBefore: Option<Digest>, afterHash: Digest, policy: Policy)

  datatype StageError =
    | PayloadMismatch
    | PointerConflict
    | MutationConflict
    | VersionCollision
    | CurrentUnreadable

  datatype Write =
    | WriteVersion(version: VersionRef, payload: Bytes)
    | WritePointer(ref: PointerRef, pointer: Pointer)
    | WriteHead(target: TargetKey, head: PointerRef)

  function ApplyWrite(d: Disk, w: Write): Disk {
    match w
    case WriteVersion(v, payload) => d.(versions := d.versions[v := payload])
    case WritePointer(r, p) => d.(pointers := d.pointers[r := p])
    case WriteHead(t, r) => d.(heads := d.heads[t := r])
  }

  function ApplyAll(d: Disk, writes: seq<Write>): Disk
    decreases |writes|
  {
    if writes == [] then d else ApplyAll(ApplyWrite(d, writes[0]), writes[1..])
  }

  lemma {:induction false} ApplyAllConcat(d: Disk, a: seq<Write>, b: seq<Write>)
    ensures ApplyAll(d, a + b) == ApplyAll(ApplyAll(d, a), b)
    decreases |a|
  {
    if a == [] {
      assert a + b == b;
    } else {
      assert (a + b)[1..] == a[1..] + b;
      ApplyAllConcat(ApplyWrite(d, a[0]), a[1..], b);
    }
  }

  lemma ApplyPair(d: Disk, w0: Write, w1: Write)
    ensures ApplyAll(d, [w0, w1]) == ApplyWrite(ApplyWrite(d, w0), w1)
  {
    assert [w0, w1][1..] == [w1] && [w1][1..] == [];
    assert ApplyAll(ApplyWrite(d, w0), [w1]) == ApplyAll(ApplyWrite(ApplyWrite(d, w0), w1), []);
  }

  datatype Plan = Plan(status: EffectStatus, before: Option<Digest>, writes: seq<Write>)

  function RefOf(target: TargetKey, publication: Publication): PointerRef {
    PointerRef(target, publication.runId, publication.publicationId)
  }

  /** The text whose digest names a pointer. */
  function PointerText(target: TargetKey, runId: string, publicationId: string, afterHash: Digest): Bytes {
    target + runId + publicationId + afterHash
  }

  function NewPointer(env: Env, target: TargetKey, afterHash: Digest, predecessor: Option<PointerRef>,
                      publication: Publication): Pointer {
    Pointer(env.sha(PointerText(target, publication.runId, publication.publicationId, afterHash)),
            target, afterHash, VersionRef(target, afterHash), predecessor, publication)
  }

  predicate SamePending(d: Disk, p: Pointer, m: Mutation, payload: Bytes, publication: Publication) {
    && p.target == m.target
    && p.afterHash == m.afterHash
    && p.publication == publication
    && p.version == VersionRef(m.target, m.afterHash)
    && p.version in d.versions
    && d.versions[p.version] == payload
  }

  /** The committed payload is readable and at least as new as the one offered. */
  predicate Superseded(env: Env, d: Disk, current: Pointer, payload: Bytes, publication: Publication)
    requires VersionBytes(env, d, current).Some?
  {
    !StampLess(Ordering(env, VersionBytes(env, d, current).value, current.publication.runId),
               Ordering(env, payload, publication.runId))
  }

  /** Version unless it is there already, then pointer, then head. */
  function FreshWrites(env: Env, d: Disk, m: Mutation, payload: Bytes, publication: Publication): seq<Write> {
    var ref, version := RefOf(m.target, publication), VersionRef(m.target, m.afterHash);
    var pointer := NewPointer(env, m.target, m.afterHash, HeadRef(d, m.target), publication);
    (if version in d.versions then [] else [WriteVersion(version, payload)])
    + [WritePointer(ref, pointer), WriteHead(m.target, ref)]
  }

  function BeforeHash(current: Option<Pointer>, m: Mutation): Option<Digest> {
    if current.Some? then Some(current.value.afterHash) else m.expectedBefore
  }

  /** The checks on a mutation that has no pointer of its publication yet. */
  function PlanFresh(env: Env, d: Disk, m: Mutation, payload: Bytes, publication: Publication, current: Option<Pointer>)
    : Result<Plan, StageError>
  {
    var before := BeforeHash(current, m);
    var version := VersionRef(m.target, m.afterHash);
    if !m.policy.AdvanceIfNewer? && before != m.expectedBefore then Err(MutationConflict)
    else if m.policy.AdvanceIfNewer? && current.Some? && VersionBytes(env, d, current.value).None? then
      Err(CurrentUnreadable)
    else if m.policy.AdvanceIfNewer? && current.Some? && Superseded(env, d, current.value, payload, publication) then
      Ok(Plan(SupersededByNewer, before, []))
    else if version in d.versions && d.versions[version] != payload then Err(VersionCollision)
    else Ok(Plan(Applied, before, FreshWrites(env, d, m, payload, publication)))
  }

  /** Which writes one call makes, in order, and what it answers. */
  function PlanStage(env: Env, d: Disk, m: Mutation, payload: Bytes, publication: Publication, reader: Scope)
    : Result<Plan, StageError>
  {
    if env.sha(payload) != m.afterHash then Err(PayloadMismatch)
    else
      var current := CommittedPointer(env, d, m.target, reader);
      var before := BeforeHash(current, m);
      var ref := RefOf(m.target, publication);
      if before == Some(m.afterHash) then Ok(Plan(AlreadyApplied, before, []))
      else if ref in d.pointers then
        if SamePending(d, d.pointers[ref], m, payload, publication)
        then Ok(Plan(Applied, before, [WriteHead(m.target, ref)]))
        else Err(PointerConflict)
      else PlanFresh(env, d, m, payload, publication, current)
  }

  /** The store as the processes that share it see it. */
  class StateStore {
    const env: Env
    var heads: map<TargetKey, PointerRef>
    var pointers: map<PointerRef, Pointer>
    var versions: map<VersionRef, Bytes>
    var receipts: map<ReceiptRef, Receipt>
    var chains: map<Scope, ChainFile>

    constructor (env: Env)
      ensures this.env == env && OnDisk() == Disk(map[], map[], map[], Reports(map[], map[]))
    {
      this.env := env;
      heads, pointers, versions, receipts, chains := map[], map[], map[], map[], map[];
    }

    function OnDisk(): Disk
      reads this
    {
      Disk(heads, pointers, versions, Reports(receipts, chains))
    }

    method FindCommitted(target: TargetKey, reader: Scope) returns (found: Option<Pointer>)
      ensures found == CommittedPointer(env, OnDisk(), target, reader)
      ensures found.Some? ==>
                found.value.target == target
                && Committed(env, Reports(receipts, chains), found.value.publication, reader)
    {
      ghost var d := OnDisk();
      var pointer := ReadPointer(OnDisk(), HeadRef(OnDisk(), target));
      var seen: set<Digest> := {};
      while pointer.Some?
        invariant pointer.Some? ==> pointer.value.pointerId in PointerIds(d)
        invariant Walk(env, d, pointer, target, reader, seen) == CommittedPointer(env, d, target, reader)
        decreases PointerIds(d) - seen, pointer.Some?
      {
        var p := pointer.value;
        if p.pointerId == "" || p.pointerId in seen || p.target != target {
          return None;
        }
        seen := seen + {p.pointerId};
        if Committed(env, Reports(receipts, chains), p.publication, reader) {
          return pointer;
        }
        pointer := ReadPointer(OnDisk(), p.predecessor);
      }
      return None;
    }

    method ReadCommittedBytes(target: TargetKey, reader: Scope) returns (payload: Option<Bytes>)
      ensures payload == ReadCommitted(env, OnDisk(), target, reader)
    {
      var p := FindCommitted(target, reader);
      if p.None? || p.value.version !in versions {
        return None;
      }
      var bytes := versions[p.value.version];
      return if env.sha(bytes) == p.value.afterHash then Some(bytes) else None;
    }

    /** Stage one mutation: version, then pointer, then head. */
    method Stage(m: Mutation, payload: Bytes, publication: Publication, reader: Scope)
      returns (answer: Result<StateEffect, StageError>)
      modifies this
      ensures match PlanStage(env, old(OnDisk()), m, payload, publication, reader)
              case Err(e) => answer == Err(e) && OnDisk() == old(OnDisk())
              case Ok(plan) =>
                && answer == Ok(StateEffect(m.target, plan.status, plan.before, m.afterHash))
                && OnDisk() == ApplyAll(old(OnDisk()), plan.writes)
    {
      hide Walk;
      if env.sha(payload) != m.afterHash {
        return Err(PayloadMismatch);
      }
      var current := FindCommitted(m.target, reader);
      var before := if current.Some? then Some(current.value.afterHash) else m.expectedBefore;
      if before == Some(m.afterHash) {
        return Ok(StateEffect(m.target, AlreadyApplied, before, m.afterHash));
      }
      var ref := RefOf(m.target, publication);
      if ref in pointers {
        if !SamePending(OnDisk(), pointers[ref], m, payload, publication) {
          return Err(PointerConflict);
        }
        heads := heads[m.target := ref];
        return Ok(StateEffect(m.target, Applied, before, m.afterHash));
      }
      if !m.policy.AdvanceIfNewer? && before != m.expectedBefore {
        return Err(MutationConflict);
      }
      if m.policy.AdvanceIfNewer? && current.Some? {
        var currentPayload := ReadCommittedBytes(m.target, reader);
        if currentPayload.None? {
          return Err(CurrentUnreadable);
        }
        if !StampLess(Ordering(env, currentPayload.value, current.value.publication.runId),
                      Ordering(env, payload, publication.runId)) {
          return Ok(StateEffect(m.target, SupersededByNewer, before, m.afterHash));
        }
      }
      var version := VersionRef(m.target, m.afterHash);
      if version in versions && versions[version] != payload {
        return Err(VersionCollision);
      }
      if version !in versions {
        versions := versions[version := payload];
      }
      ghost var first := if version in old(versions) then [] else [WriteVersion(version, payload)];
      assert OnDisk() == ApplyAll(old(OnDisk()), first);
      var predecessor := if m.target in heads then Some(heads[m.target]) else None;
      var pointer := NewPointer(env, m.target, m.afterHash, predecessor, publication);
      ghost var staged := OnDisk();
      pointers := pointers[ref := pointer];
      heads := heads[m.target := ref];
      ApplyPair(staged, WritePointer(ref, pointer), WriteHead(m.target, ref));
      ApplyAllConcat(old(OnDisk()), first, [WritePointer(ref, pointer), WriteHead(m.target, ref)]);
      return Ok(StateEffect(m.target, Applied, before, m.afterHash));
    }
  }
}
