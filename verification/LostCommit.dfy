/** One concrete store in which a retried staging hides a committed value. */
module LostCommit {
  import opened Wrappers
  import opened CommitChain
  import opened PublishedState
  import opened StoreInvariant
  import opened Staging
  import opened Committing
  import opened RetryHead
  import opened LockRuns

  const TARGET := "t"
  const SCOPE := "reports"
  const FIRST := Publication("claude", "20260101T000000000000Z", "p1", "b", Some(SCOPE))
  const SECOND := Publication("claude", "20260102T000000000000Z", "p1", "b", Some(SCOPE))

  function Digest64(c: char): (digest: Digest)
    ensures |digest| == 64 && digest[0] == c
  {
    seq(64, _ => c)
  }

  const FIRST_MUTATION := Mutation(TARGET, None, Digest64('1'), CasReplace)
  const SECOND_MUTATION := Mutation(TARGET, None, Digest64('2'), CasReplace)
  const FIRST_TEXT := PointerText(TARGET, FIRST.runId, FIRST.publicationId, FIRST_MUTATION.afterHash)
  const SECOND_TEXT := PointerText(TARGET, SECOND.runId, SECOND.publicationId, SECOND_MUTATION.afterHash)

  /** A digest that tells the two payloads and the two pointer texts apart. */
  function Sha(x: Bytes): Digest {
    if x == "1" then Digest64('1') else if x == "2" then Digest64('2')
    else if x == FIRST_TEXT then Digest64('3') else Digest64('4')
  }

  ghost function Installation(): Env {
    Env(Sha, _ => Digest64('5'), _ => None, iset{FIRST_TEXT, SECOND_TEXT})
  }

  const RECEIPT :=
    Body("claude", SECOND.runId, "p1", "b", Digest64('6'), "runs/" + SECOND.runId + "/p1", "now", [], None)

  lemma TextsDiffer()
    ensures FIRST_TEXT != SECOND_TEXT && |FIRST_TEXT| > 1 && |SECOND_TEXT| > 1
  {
    assert FIRST_TEXT[8] == '1' && SECOND_TEXT[8] == '2';
  }

  lemma InstallationIsSound()
    ensures Hashes(Installation())
  {
    TextsDiffer();
    assert Digest64('1')[0] != Digest64('2')[0] && Digest64('3')[0] != Digest64('4')[0];
  }

  lemma RequestsAreOk()
    ensures Request(Installation(), FIRST_MUTATION, FIRST) && Request(Installation(), SECOND_MUTATION, SECOND)
    ensures Sha("1") == FIRST_MUTATION.afterHash && Sha("2") == SECOND_MUTATION.afterHash
    ensures FIRST_MUTATION.afterHash != SECOND_MUTATION.afterHash
  {
    assert Digest64('1')[0] != Digest64('2')[0];
  }

  lemma ReceiptIsValid()
    ensures ValidReceipt(Seal(RECEIPT, None, Installation().bodySha), Installation().bodySha)
    ensures RefOf(TARGET, FIRST) != RefOf(TARGET, SECOND) && SimpleName(SCOPE)
  {
    assert FIRST.runId[7] != SECOND.runId[7];
  }

  /** Two publications stage one target; the first dies before its receipt, the second commits. The
      first, retried, is told APPLIED, and the committed payload is gone for readers. */
  lemma ARetryHidesACommit() returns (env: Env, d: Disk)
    ensures Hashes(env)
    ensures ReadCommitted(env, d, TARGET, SCOPE) == Some("2")
    ensures var plan := PlanStage(env, d, FIRST_MUTATION, "1", FIRST, SCOPE);
            && plan.Ok? && plan.value.status == Applied
            && ReadCommitted(env, ApplyAll(d, plan.value.writes), TARGET, SCOPE) == None
  {
    hide Hashes, Request, ValidReceipt, Sha, Digest64, SimpleName;
    env := Installation();
    InstallationIsSound();
    RequestsAreOk();
    ReceiptIsValid();
    CrashedRetryHidesACommit(env, FIRST_MUTATION, "1", FIRST, SECOND_MUTATION, "2", SECOND, SCOPE, RECEIPT);
    var d1 := ApplyAll(EMPTY_DISK, PlanStage(env, EMPTY_DISK, FIRST_MUTATION, "1", FIRST, SCOPE).value.writes);
    var d2 := ApplyAll(d1, PlanStage(env, d1, SECOND_MUTATION, "2", SECOND, SCOPE).value.writes);
    d := d2.(reports := CommitReports(env, d2.reports, SCOPE, RECEIPT));
  }

  /** The two publications are those of the runs in `LockRuns`, so both runs are runs of this store. */
  lemma TheyAreRivals()
    ensures Rivals(Installation(), Job(FIRST_MUTATION, "1", FIRST), Job(SECOND_MUTATION, "2", SECOND), SCOPE, RECEIPT)
  {
    hide Hashes, Request, ValidReceipt, Sha, Digest64, SimpleName;
    InstallationIsSound();
    RequestsAreOk();
    ReceiptIsValid();
  }
}
