# Verified models of the research workspace

Dafny models of the stateful and arithmetic cores of the repository, and proofs of what those cores
promise. Every file under `verification/` belongs to one Dafny project (`dafny verify dfyconfig.toml`).

## What is modelled

**The publication store.** State that agents publish (`autoresearch/common/published_state.py`) lives in
versions, pointers with predecessor links, and one head per target. A value counts as published once its
publication has a receipt file that is also a row of a hash-chained log
(`autoresearch/common/commit_chain.py`, `autoresearch/contracts/publication.py`).

* `CommitChain` holds receipts, the log file with torn and unterminated ends, its reader and its appender.
  `ChainRuns` has whole runs of appends that may stop anywhere, before the newline included. `ChainJson` is the
  canonical JSON of a receipt, `CanonicalRows` spells it out, `JsonDecodes` shows that it reads back in one way only, and
  `ChainText` has the lines of the text of the log: where it does what the line model says, and the two ways in which
  text outside ASCII gets in between. `ChainBytes` has runs of appends that may stop after any byte. `ReceiptRules` says which receipts are
  valid and what an append answers.
* `PublishedState` holds the disk, the reader's walk, and one staging as an ordered list of writes.
* `StagingOutcomes` says what one call of the staging answers and leaves behind, for every policy and every case, and
  `CommittedReads` what counts as committed and what a reader gets.
* `StoreInvariant` shows that the walk follows links to the first committed pointer and never leaves through
  one of its guards.
* `Staging` shows that any prefix of a staging is invisible and that a crash followed by a retry is one run.
* `Committing` shows that one receipt makes everything it covers visible at once.
* `RetryHead` says exactly when the retry branch is harmless, and shows runs in which it hides a commit, made before
  it or after it; `LostCommit` spells one of them out with concrete names and digests.
* `PublicationProtocol` and `PublicationHistory` interleave any number of publications, crashes and commits, with a
  target kept by the publication that staged it; `PublicationLocks` gives the target free at a crash, as the locks
  do, and says exactly which runs lose a committed value. `LockRuns` spells two such runs out, event by event.
  `ProtocolProgress` shows that a publication that may be made can be made, in every state.

SHA-256 is a function parameter. Where collision freedom is needed it is assumed of the texts that are hashed
(`Hashes`, `CollisionFree`), never of all texts.

**The lake cache.** `DataContracts` and `LakeCache` model `get_or_fetch` (`autoresearch/data/cache.py`) as
processes that move one step at a time: probe, lock, probe again, snapshot guard, fetch, contract check,
refusal, writing a temporary file row by row, replacing the file. `LakeCacheRuns` has the theorems over every
interleaving, with crashes and write errors anywhere; `LakeCalls` shows that the steps of one undisturbed call
together compute what the function is for; `LakeKeys` says which requests share a file, `LakeAnswers` which question
each file answers and which days are stored, and `LakeCacheDays` which snapshots get filed under another day than they
were observed on.

**Task graphs.** `TaskGraph` is the peeling loop used by session plans and by replay plans; `SessionExpansion`
is the growth of a frozen plan by expansions, `PlanRules` says which plans and expansions are valid, `ExpansionRules`
which expansions are let in, and `OpenViews` which views may be handed to it.

**Multiple testing.** `MultipleTesting` is the Benjamini-Hochberg loop and its Benjamini-Yekutieli variant
(`autoresearch/common/stats.py`), over exact reals; `StepUpProcedure` says what both report, on the p-values alone.

**Scenario estimates.** `ScenarioEstimate` is the tolerance arithmetic of conditional scenario estimates
(`autoresearch/contracts/execution.py`), over exact decimals; `EstimateRules` says which estimates are accepted,
`ScenarioRatio` which honest reward-to-risk ratios that tolerance admits.

**The outcome ledger.** `OutcomeLedger` is ingest and fill (`autoresearch/analyze/ledger.py`); `LedgerReadings` says
what a fill reads off the lake, and `LedgerRuns` compares nightly fills over a growing lake with one recomputation.

**Broker trades.** `BrokerSchema`, `BrokerIdentity` and `BrokerNumbering` are natural keys, numbering and row
identities (`autoresearch/broker/schema.py`), and `BrokerNumbers` says what rows with one key, one signature or one
identity have in common; `RawStore` and `BrokerMerge` are the raw files and the cross-source merge
(`autoresearch/broker/store.py`); `RawRows` says how rows are numbered and which are stored, `MergedCells` what a merged
row holds, cell by cell, `MergeConservation` that no row is lost or used twice, and `MergeRebuild` that the result does
not depend on the order the sources are read in; `BrokerReconcile` says exactly when the merge and `compare`
(`autoresearch/broker/reconcile.py`) count the same trades.

`Wrappers`, `Strings`, `Utf8`, `Permutations` and `StableSort` are shared helpers.

## Where the code does less than it seems to

Each of these is stated exactly, as an equivalence whose condition can be checked before the call, and most
come with a concrete run.

* A log file that lost only its final newline is accepted by the appender, and the accepted append hides the
  row that was there: appends are safe exactly when nothing but white space follows the last newline. A run of
  appends, each of them whole, torn, or cut before its newline, keeps every row exactly when no append lands on
  a row that lost its newline.
* A reader survives every torn append exactly when the receipt is ASCII: otherwise a tear inside a character makes
  the decoding of the whole file fail. A row is read back exactly when no text in its receipt has U+0085, U+2028 or
  U+2029, which canonical JSON does not escape and `splitlines` takes for the end of a line. A target name is
  enough for either. Over a whole run of appends, each of which may stop after any byte, readers keep every row they
  ever got, and get every receipt an append answered with, exactly when no write lands on a row that lost its
  newline, none stops inside a character, and none that is whole has such a line boundary in its row.
* A retried staging puts the head back on its own pointer without reading what was committed in between.
  Readers keep their answer exactly when what they see now is a predecessor of the retried pointer.
* Under the target locks alone, which a crash releases, a run never loses a committed value exactly when every
  retry that resets a head does so while the shown pointer is behind the retried one, and every receipt finds its
  pointer on the path from the head. The second can fail because a publication that had staged everything before
  it died commits without staging again (`autoresearch/trace/publication.py:381-407`). Where a publication keeps
  its target from its first write until its commit, across crashes, no run loses anything.
* Two equal p-values get equal adjusted values exactly when they are not negative. `bh_fdr` alone does not
  refuse negative values; `family_adjustment` does.
* Every expansion accepted on top of a view leaves a graph without cycles exactly when nothing can be accepted
  at all, or the view has no cycle and no task with an admissible id in it waits, directly or through others, for
  an id it does not have. The view a caller passes in place of the plan's own tasks is not checked for either.
* The snapshot guard runs before the fetch. An accepted snapshot is filed under another day than it was observed
  on exactly when the day changes between the guard and the answer, and a run leaves a misdated file exactly
  when such an answer reached the lake. The comment at `autoresearch/data/cache.py:378` promises more.
* The R:R tolerance admits every honest ratio, declared as a decimal literal, exactly when it reaches the worst
  case. It does whenever the
  declared loss is not larger in size than the exact one, and otherwise falls short by at most the factor
  |l| / (|l| - dl).
* `MATURITY_STATUSES` (`autoresearch/analyze/ledger.py:91-103`) calls `PENDING_D2` temporary and
  `NA_NON_TRADING_DAY` permanent. The first is final when D+1 is in the lake without an open or a close, the
  second is not while the lake has not reached a date that is a day. Forward returns freeze at maturity: what is
  stored is what a later lake would give exactly when D+n was already in that night or the later lake gives
  nothing either.
* The natural key is meant to be one definition for merge and reconciliation (`autoresearch/broker/schema.py:139`), but
  the merge groups by the joined text and `compare` counts the tuples. They count the same trades of two sources
  exactly when, in every group, the rows that get paired carry the same BUY and SELL keys in both. Validated rows do;
  a separator inside a key column can make one trade of two.
* Row identities do not depend on the order of an export exactly when rows that tie completely, without a
  trade id, share an amount. The design (docs/specs/2026-08-27-broker-trades-ingest-design.md:102-103) and the
  comment at `autoresearch/broker/schema.py:192` promise it without that condition.

## Model

| member | source | states |
|---|---|---|
| CommitChain.ReadFromIsLongest | autoresearch/common/commit_chain.py:17-35 | the rows read are the leading non-blank lines, each valid and naming its predecessor's hash, and the next line does not extend them |
| CommitChain.LongestValidPrefixIsUnique | autoresearch/common/commit_chain.py:17-35 | that promise determines the rows read |
| CommitChain.ChainLog.Read | autoresearch/common/commit_chain.py:17-35 | the reader's loop returns the longest valid prefix |
| CommitChain.ChainLog.Append | autoresearch/common/commit_chain.py:38-75 | the file and the answer after one append: refused when a line is unreadable, idempotent on the identity, linked to the last row otherwise |
| CommitChain.AppendLineEffect | autoresearch/common/commit_chain.py:67-75 | after a newline the appended row is the one new row read; on an unterminated line it destroys the row that was there |
| CommitChain.AppendIsSafeExactlyAfterNewline | autoresearch/common/commit_chain.py:71-74 | a new receipt is added without loss if and only if only white space follows the last newline |
| CommitChain.LostNewlineHidesACommittedReceipt | autoresearch/common/commit_chain.py:71-74 | a concrete file whose only row disappears after an accepted append |
| CommitChain.TornTailIsReadableAndRefused | autoresearch/common/commit_chain.py:24-28 | a remainder torn between two characters leaves the whole earlier chain readable and makes every append refuse |
| CommitChain.AppendKeepsSound | autoresearch/common/commit_chain.py:38-75 | an append to a sound file keeps it sound and only extends what is read |
| ReceiptRules.ReceiptIsValidExactlyWhen | autoresearch/contracts/publication.py:184-210 | a receipt is valid if and only if engine, run id, publication id and path are in order, no effect is a conflict, no two are about one target, and it carries the digest of everything else |
| ReceiptRules.AppendAnswers | autoresearch/common/commit_chain.py:47-75 | on a complete log: a receipt that is there already is answered with if it says the same but for its link, and refused otherwise; a new one is linked to the last row and written behind it if it is valid, and refused otherwise |
| ReceiptRules.DamagedLogIsRefused | autoresearch/common/commit_chain.py:49-54 | a log with a line that does not parse is not appended to |
| ChainRuns.RunOnlyExtends | autoresearch/common/commit_chain.py:38-75 | along any run of whole, torn and cut appends without damage the rows only grow at the end, stay linked, and never repeat an identity |
| ChainRuns.DamageLosesARow | autoresearch/common/commit_chain.py:67-75 | an append behind a row without its newline, however much of it is written, takes that row away from readers and makes every later append refuse |
| ChainRuns.RunKeepsRowsExactlyWhenUndamaged | autoresearch/common/commit_chain.py:38-75 | every row ever read during a run is still read at its end if and only if no append of the run lands on a row without its newline |
| ChainRuns.WithoutCutsNothingIsDamaged | autoresearch/common/commit_chain.py:67-75 | appends that are whole or torn inside their row never damage a terminated log |
| ChainJson.PartOfARowIsUnfinished | autoresearch/common/atomic.py:11-13 | every proper part of the canonical JSON of a receipt leaves a string or a bracket open, and the whole leaves nothing open |
| ChainJson.RowChars | autoresearch/common/atomic.py:11-13 | the characters of the row are printable ASCII and those that the texts of the receipt hold above the control characters |
| ChainText.TextRefinesLines | autoresearch/common/commit_chain.py:23-28 | on rows that stay on their line, the text of a whole row, of a row without its newline, of part of a row, and of a row glued to another does to the file what the line model says |
| ChainText.TearsAreReadableExactlyWhenAscii | autoresearch/common/commit_chain.py:23 | readers keep the whole chain after a tear at any byte of a row if and only if every text of its receipt is ASCII, control characters apart |
| ChainText.RowIsReadExactlyWhenOneLine | autoresearch/common/commit_chain.py:23-31 | an appended row is read back if and only if no text of its receipt holds a line boundary that canonical JSON leaves unescaped; otherwise the log refuses every later append |
| ChainText.SeparatorHidesARow | autoresearch/contracts/publication.py:171-178 | a valid receipt with U+2028 in a target name, accepted by an empty log and not there for readers |
| ChainText.WideTargetCanBeTorn | autoresearch/contracts/publication.py:171-178 | a valid receipt with a target name outside ASCII, whose write can stop so that the log cannot be decoded |
| CanonicalRows.RowIs | autoresearch/contracts/publication.py:58-73 | the text of a row, member by member: sorted keys, no link as `null`, version 1, and each effect an object of its own |
| CanonicalRows.PiecesAreLines | autoresearch/common/commit_chain.py:23 | the lines of a text have no line boundary in them and make up the text with boundaries in between |
| JsonDecodes.PrintDecodes | autoresearch/common/atomic.py:11-13 | receipts with one canonical text are one receipt |
| JsonDecodes.SomeParserReadsAll | autoresearch/common/commit_chain.py:27 | there is a parser that reads every row back and refuses what the results about the log ask it to refuse |
| ChainBytes.PartOfALine | autoresearch/common/commit_chain.py:67-75 | what readers get after any number of characters of a row and its newline, written behind a terminated log |
| ChainBytes.PartBehindARow | autoresearch/common/commit_chain.py:67-75 | any part of a row written behind a row that lost its newline takes that row away and freezes the log |
| ChainBytes.RunKeepsEverythingExactlyWhen | autoresearch/common/commit_chain.py:17-75 | over any run of appends that stop after any byte, every row ever read and every receipt answered is read at the end if and only if no write lands on an unterminated row, stops inside a character, or is whole with a line boundary in its row |
| ChainBytes.RunFromTheEmptyLog | autoresearch/common/commit_chain.py:38-75 | the same for every run from the empty log |
| Utf8.EncodingOfAStart | autoresearch/common/commit_chain.py:23 | a text whose UTF-8 starts that of another is the start of that text, so bytes decode in one way |
| CommitChain.ReappendReturnsStored | autoresearch/common/commit_chain.py:52-63 | appending a stored receipt again, with any link, writes nothing and returns the stored row |
| CommitChain.TipFixesHistory | autoresearch/contracts/publication.py:90-91 | two valid chains with the same last hash are equal row by row and in length, if the hash does not collide on their rows |
| PublishedState.StateStore.FindCommitted | autoresearch/common/published_state.py:90-108 | the walk's loop finds what the walk function says, a committed pointer of the right target |
| PublishedState.StateStore.ReadCommittedBytes | autoresearch/common/published_state.py:111-130 | reads the version of that pointer when its bytes hash to the recorded digest |
| PublishedState.StateStore.Stage | autoresearch/common/published_state.py:187-304 | performs exactly the planned writes, version then pointer then head, and gives the planned answer or error |
| StagingOutcomes.CasGetsThroughExactlyWhenExpected | autoresearch/common/published_state.py:245-302 | over a shown value a replacing or appending mutation gets through if and only if it expects that value; the head then names its pointer, whose predecessor is the old head, and the version holds the payload |
| StagingOutcomes.NothingShownGetsThrough | autoresearch/common/published_state.py:200-205 | where nothing is shown every policy gets through, whatever it expects |
| StagingOutcomes.AdvanceGetsThroughExactlyWhenNewer | autoresearch/common/published_state.py:249-265 | an advancing mutation gets through if and only if its date, or of one date its run, is larger as text than the shown one; otherwise nothing is written |
| StagingOutcomes.StampLessIsNewer | autoresearch/common/published_state.py:177-184 | payloads are ordered by `as_of` and then by the session run, which the publication's run stands in for |
| StagingOutcomes.RetryGetsThroughExactlyWhenTheSame | autoresearch/common/published_state.py:213-244 | a publication with a pointer gets through if and only if that pointer says the same, and only the head is written |
| StagingOutcomes.SeenIsAlreadyApplied | autoresearch/common/published_state.py:205-212 | what readers see already is applied already, and nothing is written |
| StagingOutcomes.WrongPayloadIsRefused | autoresearch/common/published_state.py:197-199 | a payload with another digest than announced is refused |
| StagingOutcomes.CollisionIsRefused | autoresearch/common/published_state.py:265-267 | another payload in the version file refuses a mutation that would get through otherwise |
| CommittedReads.CommittedExactlyWhen | autoresearch/common/published_state.py:47-76 | a publication counts as committed if and only if its receipt, in the reports root it names or else the reader's, is valid, is a row of that root's chain and names its engine, run, id and bundle hash |
| CommittedReads.ReadExactlyWhenUndamaged | autoresearch/common/published_state.py:111-130 | the shown bytes are read if and only if the version file is there and hashes to the digest that pointer holds |
| CommittedReads.AdvanceOverDamageIsRefused | autoresearch/common/published_state.py:249-256 | an advancing mutation over a value whose version is damaged is refused |
| StoreInvariant.PointerTextDecodes | autoresearch/common/published_state.py:265-281 | the unseparated concatenation hashed into a pointer id can be read back in one way only |
| StoreInvariant.DistinctIds | autoresearch/common/published_state.py:98-107 | pointers with one id are one pointer, so the cycle guard only meets real cycles |
| StoreInvariant.ReaderSeesFirstCommitted | autoresearch/common/published_state.py:95-108 | in a store that satisfies the invariant no walk ends at a guard: it ends at the first committed pointer along strictly older predecessors |
| StoreInvariant.CommittedBytesAreReadable | autoresearch/common/published_state.py:111-130 | the bytes of the pointer a reader sees are there and pass the hash check |
| Staging.WriteKeepsInv | autoresearch/common/published_state.py:265-298 | every single write of a staging keeps the store invariant |
| Staging.GrowthIsInvisible | autoresearch/common/published_state.py:95-108 | more pointers under the same head and receipts leave the committed pointer as it was |
| Staging.HeadMoves | autoresearch/common/published_state.py:290-298 | after a head moves its readers get the first committed pointer from the new place, and other targets are untouched |
| Staging.StagingIsInvisible | autoresearch/common/published_state.py:213-298 | after any prefix of the writes of an uncommitted publication every reader of every target gets the answer it got before |
| Staging.CrashThenRetryIsOneRun | autoresearch/common/published_state.py:197-304 | planning the same mutation again after any prefix of its writes ends in the store, and gives the status, of one uninterrupted call |
| Committing.AppendReceiptIsInvisible | autoresearch/common/published_state.py:47-76 | a chain row without its receipt file commits nothing and uncommits nothing |
| Committing.WriteReceiptCommits | autoresearch/common/published_state.py:47-76 | writing a receipt file whose row is in the chain commits exactly the publication it names |
| Committing.OneReceiptCommitsEverything | autoresearch/trace/publication.py:421-439 | one receipt shows every target staged at its head with exactly the staged bytes and leaves every target it did not stage as it was |
| Committing.RetryAfterCommit | autoresearch/common/published_state.py:200-212 | staging again after the commit writes nothing and reports ALREADY_APPLIED |
| RetryHead.RetryIsInvisibleExactlyWhenCurrentIsOlder | autoresearch/common/published_state.py:219-244 | resetting the head to a stored pointer is invisible to readers if and only if what they see is one of that pointer's predecessors |
| RetryHead.CrashedRetryHidesACommit | autoresearch/common/published_state.py:219-244 | a run in which a retry after another commit succeeds and readers lose the committed value |
| RetryHead.CommitAfterARetryIsNotSeen | autoresearch/trace/publication.py:381-439 | a run in which a publication that had staged everything commits after another one's retry moved the head: it is committed and no reader sees it |
| LostCommit.ARetryHidesACommit | autoresearch/common/published_state.py:219-244 | one concrete store, with concrete digests, in which the retry reports APPLIED and the committed payload is gone for readers |
| PublicationProtocol.ReadersAgree | autoresearch/common/published_state.py:47-76 | readers of different reports roots see the same pointer and bytes |
| PublicationProtocol.CommitIsSerial | autoresearch/trace/publication.py:375-447 | at its commit every target of a publication goes from a value its mutation was entitled to replace to exactly the staged bytes; other targets keep their answers |
| PublicationProtocol.StepKeepsSerialInv | autoresearch/trace/publication.py:375-447 | every begin, write, crash, chain row and commit, in any interleaving, keeps the protocol invariant |
| PublicationProtocol.OnlyCommitsAreVisible | autoresearch/trace/publication.py:375-447 | no other step changes what readers of any target get |
| PublicationHistory.RunKeepsSerialInv | autoresearch/trace/publication.py:375-447 | the protocol invariant holds along every run |
| PublicationHistory.StaleWriterIsRefused | autoresearch/common/published_state.py:219-252 | after a commit over the value a second writer also expected, that writer's different payload gets through if and only if its own pointer for it was already there; without that pointer it is a conflict |
| PublicationHistory.CommitStrictlyAdvances | autoresearch/common/published_state.py:177-184 | a commit of an advancing mutation over a shown value strictly raises its (as_of, run id) |
| PublicationHistory.RunAdvances | autoresearch/common/published_state.py:177-184 | a target that is only advanced shows, between any two points of a run, the same value or one with a strictly larger (as_of, run id) |
| PublicationHistory.RunLosesNothing | autoresearch/common/published_state.py:265-298 | along every run every pointer ever committed stays on the path readers walk |
| PublicationHistory.EveryRunFromTheEmptyStore | autoresearch/trace/publication.py:375-447 | from the empty store both hold of every run: the protocol invariant, and no committed pointer leaves the path readers walk |
| ProtocolProgress.NewPublicationGetsThrough | autoresearch/trace/publication.py:381-407 | in every state of the protocol a new publication with a mutation that is right can be made: each of its steps is enabled when it is due, and at the end readers of every root get its pointer and its payload, and the target is free again |
| PublicationLocks.StepKeepsLockInv | autoresearch/trace/publication.py:375-447 | with targets given free at every crash, every step keeps the store well formed and what running stagings have still to write valid |
| PublicationLocks.StepLosesExactlyWhen | autoresearch/common/published_state.py:219-244 | a step takes a committed pointer off the path of readers if and only if it is a retry that resets the head past the shown pointer, or a receipt for a pointer off the path |
| PublicationLocks.RunNeverLosesExactlyWhen | autoresearch/trace/publication.py:375-447 | a run under the locks alone never loses a committed value of a target if and only if no step of it is one of those |
| PublicationLocks.RunFromTheEmptyStore | autoresearch/trace/publication.py:375-447 | the same for every run from the empty store |
| LockRuns.AReceiptOffThePathHarms | autoresearch/trace/publication.py:375-447 | a run from the empty store in which only the last step harms, a receipt for a pointer that another publication's retry took off the path |
| LockRuns.ARetryOfTheHeadHarms | autoresearch/common/published_state.py:219-244 | a run from the empty store in which only the last step harms, the head write of a retry after another publication's commit |
| LostCommit.TheyAreRivals | autoresearch/common/published_state.py:219-244 | concrete publications, digests and a receipt for both runs |
| DataContracts.NoViolationsMeansMet | autoresearch/data/contracts.py:309-328 | no violations if and only if the frame has rows, enough of them, and every required column |
| DataContracts.DegradationLog.CollectViolations | autoresearch/data/contracts.py:309-328 | lists the violations; none exactly when the contract is met |
| DataContracts.DegradationLog.Check | autoresearch/data/contracts.py:344-384 | raises for a blocking contract, records one degradation for another, and lets the frame through |
| DataContracts.ReasonsApply | autoresearch/data/contracts.py:314-328 | each reason is given exactly where it applies: nothing came, no rows, too few rows, columns missing from a frame with rows |
| DataContracts.ChecksRaiseOrRecordExactlyWhen | autoresearch/data/contracts.py:363-384 | a broken contract of the blocking tier raises and leaves no record, a broken one of the other tier leaves one record and lets the frame through, a kept one does neither |
| DataContracts.StampKeepsContract | autoresearch/data/cache.py:139-146 | stamping a frame that meets its contract does not break it |
| LakeCache.ColumnsDoNotMatter | autoresearch/data/cache.py:268-284 | requests that differ in `fields` alone share a file and ask the source the same question |
| LakeKeys.FirstSays | autoresearch/data/cache.py:149-154 | the value picked is what the first listed parameter that is there and not empty says |
| LakeKeys.DashesDoNotMatter | autoresearch/data/cache.py:157-159 | a date with dashes and without is one date |
| LakeKeys.DaysShareAFileExactlyWhenEqual | autoresearch/data/cache.py:174-176 | two requests for a day share a file if and only if their days agree, dashes apart |
| LakeKeys.PeriodsShareAFileExactlyWhenEqual | autoresearch/data/cache.py:177-179 | the same for report periods |
| LakeKeys.EntitiesShareAFileExactlyWhenEqual | autoresearch/data/cache.py:180-185 | two snapshot requests share a file if and only if they are about one entity, dots and underscores apart, as of one day |
| LakeKeys.NoDayIsItsOwnFile | autoresearch/data/cache.py:174-176 | requests without a day share a file with each other and with no request for a day |
| LakeKeys.StaticIsOneFile | autoresearch/data/cache.py:172-173 | a static endpoint has one file |
| LakeAnswers.FilesAnswerTheirOwnQuestion | autoresearch/data/cache.py:374-403 | every file a run adds is the answer to a fetch for a request of its own path, as it came but for the stamp of snapshots |
| LakeAnswers.HitsAnswerForTheirDay | autoresearch/data/cache.py:332-403 | a call for a day that was answered from the lake, or filled it, got what the source said when asked for that day |
| LakeAnswers.StoredDaysAreSettled | autoresearch/data/cache.py:326-403 | no file comes into being for a live endpoint, or for a day that had not settled |
| LakeAnswers.AnswersFitTheRequest | autoresearch/data/cache.py:326-403 | how a finished call was answered says whether its endpoint is live and its day has settled |
| LakeCalls.OneCall | autoresearch/data/cache.py:323-403 | the steps of one undisturbed call end with the outcome and the stored frame that a function of the lake, the day, the request and the answer says: live, hit, unsettled, refused snapshot, failed fetch, broken contract, kept out of the lake, stored |
| LakeCalls.FailuresOnlyFreeTheLock | autoresearch/data/cache.py:374-403 | a failed write raises and a crash forgets the call; neither touches the lake, and both free exactly the locks of that process |
| LakeCache.StepKeepsInv | autoresearch/data/cache.py:287-400 | every step of every process keeps the invariant, crashes and write errors included |
| LakeCacheRuns.PublishedAtMostOnce | autoresearch/data/cache.py:225-265 | over any run of any number of processes the file of a key is replaced at most once, and never if it was there |
| LakeCacheRuns.FilesNeverChange | autoresearch/data/cache.py:225-248 | a file that is there keeps its content for the rest of the run |
| LakeCacheRuns.HitsAgree | autoresearch/data/cache.py:332-352 | any two calls answered from a key's file, or filling it, at any moments of a run, return the same frame |
| LakeCacheRuns.StoredFramesMeetTheirContract | autoresearch/data/cache.py:386-396 | every file a run adds for a blocking endpoint, or one that does not persist violations, meets its contract as stored |
| LakeCacheRuns.BlockingReadsMeetTheirContract | autoresearch/data/cache.py:332-400 | a call on a blocking endpoint that is not live raises or returns a frame without violations |
| LakeCacheRuns.StoredFramesAreWhole | autoresearch/data/cache.py:225-248 | every file a run adds is one whole answer of the source, never a part of one |
| LakeCacheDays.SnapshotsAreMisfiledExactlyWhen | autoresearch/data/cache.py:378-396 | a run of any number of processes leaves a snapshot under another day than it was observed on if and only if an answer that came on another day than its call's reached a file |
| LakeCacheDays.SnapshotsAreFiledUnderTheirDay | autoresearch/data/cache.py:378-396 | so it leaves none if no day passes while a snapshot is being fetched |
| LakeCacheDays.MidnightBetweenGuardAndFetch | autoresearch/data/cache.py:378-396 | whatever other processes do in between, an accepted answer of a call that passed the guard is filed under the wrong day if and only if the day has changed since |
| LakeCacheDays.NewYearsListingIsFiledUnderTheOldYear | autoresearch/data/cache.py:378-396 | a concrete call on a snapshot endpoint whose contract refuses violating frames: a listing that meets it, observed on New Year's Day, is filed under the day before |
| TaskGraph.PeelAll | autoresearch/contracts/session_plan.py:74-83 | the peeling loop empties the graph and ranks it, or leaves a remainder in which every node depends on the remainder |
| TaskGraph.StuckHasCycle | autoresearch/contracts/session_plan.py:74-83 | such a remainder contains a cycle |
| TaskGraph.ValidateDag | autoresearch/contracts/session_plan.py:62-83 | accepts if and only if ids are unique, dependencies are known unless external ones are allowed, no task depends on itself, and a rank exists; otherwise it says what was met first: an id twice, an unknown dependency, or a cycle |
| TaskGraph.ValidateReplayDag | autoresearch/contracts/replay.py:102-121 | the closed-world check accepts if and only if ids are unique, every dependency is known and a rank exists |
| TaskGraph.AcyclicExactlyWithoutCycles | autoresearch/contracts/replay.py:113-121 | a rank exists if and only if no walk along dependencies returns to its start |
| SessionExpansion.ValidatePlan | autoresearch/contracts/session_plan.py:96-133 | accepts exactly the well-formed plans with an acyclic closed graph |
| SessionExpansion.ValidateExpansion | autoresearch/contracts/session_plan.py:136-166 | accepts exactly the well-formed expansions whose own graph is acyclic |
| PlanRules.NamesAreIds | autoresearch/contracts/session_plan.py:32 | an id has 1 to 128 lower-case letters, digits, underscores, dots and dashes and starts with a letter or a digit |
| PlanRules.PlanIsValidExactlyWhen | autoresearch/contracts/session_plan.py:86-133 | a plan is valid if and only if its ids are in order and there once, its dependencies are there, no walk along them closes, each template has an id of its own, a registered expander, roles in order and dependencies among the tasks, and the plan carries its own digest |
| PlanRules.ExpansionIsValidExactlyWhen | autoresearch/contracts/session_plan.py:136-166 | an expansion is valid if and only if it names an allowed template, has inputs without repetition and tasks in order without a cycle among them, and carries its own digest, in its id as well |
| SessionExpansion.ApplyExpansion | autoresearch/contracts/session_expansion.py:9-41 | returns the combined view or the first check that fails |
| SessionExpansion.UnionIsAcyclicExactlyWhenViewIs | autoresearch/contracts/session_expansion.py:16-41 | appending an acyclic batch to a view without missing dependencies gives a graph without cycles if and only if the view had none |
| ExpansionRules.LetInExactlyWhen | autoresearch/contracts/session_expansion.py:20-26 | an expansion in order but for scope and roles is let in if and only if the template it names lists the role of each inference task and, for a review of one stock, its input and tasks are about one |
| ExpansionRules.LetInRolesAreListed | autoresearch/contracts/session_expansion.py:16-26 | whatever is let in names a template of the plan that lists all its roles |
| ExpansionRules.ScopeMeansOneStock | autoresearch/contracts/session_expansion.py:44-58 | the scope check accepts exactly one input besides the frame: the sentinel, or the sentinel and a six-digit code that is the subject of every task |
| ExpansionRules.RefusedBeforeScope | autoresearch/contracts/session_expansion.py:16-20 | an invalid plan, an invalid expansion and an expansion of another plan are refused in this order, before anything else is looked at |
| ExpansionRules.GraphErrors | autoresearch/contracts/session_expansion.py:28-41 | after scope and roles: a frozen task left out, an id twice, a dependency nowhere, or the combined view |
| OpenViews.SomethingIsAcceptedExactlyWhen | autoresearch/contracts/session_expansion.py:9-41 | some expansion is accepted on top of a view if and only if the plan is valid and has a template, and the view has unique ids, all the plan's tasks, no missing id that no task may have, and not every id there is |
| OpenViews.ViewIsSafeExactlyWhen | autoresearch/contracts/session_expansion.py:16-41 | every accepted expansion leaves no cycle if and only if none can be accepted, or the view has no cycle and none of its admissible ids waits for a missing one |
| OpenViews.OpenExactlyWhenSomeIdWaits | autoresearch/contracts/session_expansion.py:31-41 | where all ids of the view are admissible, one waits if and only if a dependency is missing |
| OpenViews.AcceptedExpansionClosesACycle | autoresearch/contracts/session_expansion.py:16-41 | a concrete valid plan, a view with one missing dependency, and an accepted expansion after which the graph has a cycle |
| SessionExpansion.AnyNumberOfExpansions | autoresearch/contracts/session_expansion.py:16-41 | after any number of accepted expansions ids are unique, dependencies resolve, no cycle exists and the frozen tasks are an unchanged prefix |
| SessionExpansion.ExpandedPlanIsAClosedDag | autoresearch/contracts/session_expansion.py:16-41 | the same from the plan itself, in terms of cycles |
| MultipleTesting.StepUpIsLeast | autoresearch/common/stats.py:375-386 | the running minimum is the least of 1 and of the candidates at its own and all later ranks |
| MultipleTesting.BhFdr | autoresearch/common/stats.py:369-386 | the backward loop gives every p-value its adjusted value and rejection |
| MultipleTesting.RejectedAreTheFirstRanks | autoresearch/common/stats.py:375-386 | for alpha below 1 the rejected set is ranks 1..k with k the largest rank whose p-value is at most alpha k / m |
| MultipleTesting.QWithoutRanks | autoresearch/common/stats.py:375-386 | for p >= 0, q is the least of 1 and v m / #{values <= v} over the values v >= p, whatever the sort does with ties |
| MultipleTesting.PermutationKeepsPairs | autoresearch/common/stats.py:375-386 | whatever order the p-values come in, negative ones included, the same multiset of (p, q) pairs results |
| MultipleTesting.PermutationPermutesQ | autoresearch/common/stats.py:375-386 | a value that is not negative gets the same q wherever it stands in the permuted family |
| MultipleTesting.TiesAgreeExactlyWhenNotNegative | autoresearch/common/stats.py:375-386 | equal p-values get equal q if and only if they are not negative |
| MultipleTesting.QIsMonotone | autoresearch/common/stats.py:375-386 | q is at least p, at most 1, and grows with p |
| MultipleTesting.FamilyAdjustment | autoresearch/common/stats.py:395-426 | accepts exactly known dependence, alpha in (0, 1) and p-values in [0, 1], and returns the adjusted rows |
| StepUpProcedure.FamilyAdjustmentStepsUp | autoresearch/common/stats.py:375-426 | the rows returned are those of the step-up procedure: q is the least of 1 and the corrected p(s) m / s from its rank on, and the rejected rows are ranks 1..k, k the largest with p(k) at most alpha k / m, divided by 1 + 1/2 + ... + 1/m under arbitrary dependence; every row is rejected if and only if its own q is at most alpha |
| StepUpProcedure.HarmonicIs | autoresearch/common/stats.py:420 | the correction adds 1/m for each further member of the family |
| MultipleTesting.ArbitraryIsMoreConservative | autoresearch/common/stats.py:415-426 | under arbitrary dependence q is at least the other one, and its rejections are a subset |
| ScenarioEstimate.ToleranceIsHalfTheLastPlace | autoresearch/contracts/execution.py:314-319 | the tolerance is half the last declared place from four places on, half of the fourth before, and always positive |
| ScenarioEstimate.CheckRows | autoresearch/contracts/execution.py:356-380 | the scenario loop accepts exactly rows that are well formed, uniquely named, and close to the returns recomputed at the reversed entry bounds |
| ScenarioEstimate.AcceptedRowIs | autoresearch/contracts/execution.py:356-379 | an accepted row's low return is near exit / high entry - 1 and its high return near exit / low entry - 1 |
| ScenarioEstimate.Validate | autoresearch/contracts/execution.py:322-411 | accepts exactly the estimates with close returns, probabilities that sum to one, and a close EV and R:R |
| EstimateRules.EstimateIsAcceptedExactlyWhen | autoresearch/contracts/execution.py:322-411 | an estimate is accepted if and only if, on its literals, entry and rows are in order, probabilities are absent or share out one among three scenarios, a declared expected value is near the weighted returns at both ends, and a declared ratio is near that of the bull and the bear return |
| EstimateRules.HalfIsTolerance | autoresearch/contracts/execution.py:314-319 | the tolerance is half of 10 to the minus places, with four places at least |
| ScenarioEstimate.AcceptedRowWithoutEntryIs | autoresearch/contracts/execution.py:365-367 | without an entry a row may declare no return |
| ScenarioEstimate.HonestEvPasses | autoresearch/contracts/execution.py:388-399 | an EV rounded honestly from the exact one passes, although it is compared with rounded returns |
| ScenarioEstimate.AcceptedEvIsNearExact | autoresearch/contracts/execution.py:388-399 | an accepted EV is within its tolerance plus twice the weighted return tolerances of the exact one |
| ScenarioEstimate.AcceptedEvErrorIsSmall | autoresearch/contracts/execution.py:388-399 | so no accepted EV is further than 0.00015 from the exact one |
| ScenarioRatio.HonestRatiosPassExactlyWhen | autoresearch/contracts/execution.py:400-410 | for given declared returns, entry and bear price, every honest ratio that is a decimal literal passes, whatever the bull price, if and only if the worst move of the exact ratio is within the propagated tolerance |
| ScenarioRatio.NotOverstatedLossIsTolerated | autoresearch/contracts/execution.py:400-410 | which holds whenever the declared loss is not larger in size than the exact one |
| ScenarioRatio.HonestRatioMissesByAFactor | autoresearch/contracts/execution.py:400-410 | however the loss was rounded, the propagated error times abs(l) / (abs(l) - dl) covers every honest ratio |
| ScenarioRatio.AnHonestRatioIsRefused | autoresearch/contracts/execution.py:400-410 | concrete decimal literals for entry, prices, returns and an honest ratio that is refused |
| OutcomeLedger.IngestOnlyAdds | autoresearch/analyze/ledger.py:211-239 | existing rows keep every cell, a new key takes the first card read for it, and every readable card has a row |
| OutcomeLedger.Ledger.Ingest | autoresearch/analyze/ledger.py:211-239 | the scan inserts exactly the missing keys and counts them |
| OutcomeLedger.Ledger.FillOne | autoresearch/analyze/ledger.py:351-382 | one row of a fill, with the cached market returns of its date |
| OutcomeLedger.Ledger.Fill | autoresearch/analyze/ledger.py:325-385 | fills every unmatured row, leaves matured rows alone, and counts filled, skipped and each reason |
| LedgerReadings.CardsOfADay | autoresearch/analyze/ledger.py:291-376 | what one fill answers for a card of a day of the lake, read off the bars of the next two days: waits, matures, or has no row |
| LedgerReadings.GapOfADay | autoresearch/analyze/ledger.py:319 | the gap is the open of D+2 over the close of D+1, less one |
| LedgerReadings.ForwardOfADay | autoresearch/analyze/ledger.py:320-381 | a forward return over n days is the close of D+n over the open of D+1, less one, for full cards, and blank where a price is missing |
| LedgerReadings.UnmeasurableCards | autoresearch/analyze/ledger.py:354-366 | a card without a code, without a date, or of a date that is no day of the lake |
| LedgerReadings.NewRowsAreBlank | autoresearch/analyze/ledger.py:135-150 | a row that comes in is unmatured and has no readings |
| LedgerRuns.StatusIs | autoresearch/analyze/ledger.py:275-322 | the status depends on D+1 and D+2 alone: pending while a column is missing, matured when the code has both prices, otherwise no lake row |
| LedgerRuns.ReturnsAre | autoresearch/analyze/ledger.py:316-321 | a matured card's gap is open[D+2] / close[D+1] - 1 and fwd_n is close[D+n] / open[D+1] - 1, blank beyond the lake |
| LedgerRuns.FilledRowIs | autoresearch/analyze/ledger.py:351-382 | a fill leaves a matured row alone, gives another one its status, and when that is matured the gap, and only full cards the three forward returns |
| LedgerRuns.MaturedStays | autoresearch/analyze/ledger.py:286-322 | a matured card reads the same gap from every later lake |
| LedgerRuns.StatusIsFinalExactlyWhenSettled | autoresearch/analyze/ledger.py:286-322 | no later lake changes a status if and only if the card is not measurable, its date is no day, D+2 is in, D+1 is in without prices, or the lake has passed the date |
| LedgerRuns.ForwardIsFinalExactlyWhen | autoresearch/analyze/ledger.py:351-382 | a forward return read at maturity is what every later lake gives if and only if D+n is in or the code did not open on D+1 |
| LedgerRuns.NightlyFillsAreOneFill | autoresearch/analyze/ledger.py:325-385 | however ingests, fills and new days interleave, a last fill gives each row the maturity, status and gap of one fill on the final lake |
| LedgerRuns.NightlyForwardAgreesExactlyWhen | autoresearch/analyze/ledger.py:351-382 | after any later run a full card reports the forward return of one fill on the final lake if and only if D+n was in on the night it matured, or the final lake gives none |
| LedgerRuns.MaturedRowsNeverChange | autoresearch/analyze/ledger.py:351-353 | a matured row stays as it is for the rest of any run |
| BrokerSchema.JoinIsInjective | autoresearch/broker/schema.py:150-151 | joined keys determine their parts while no part holds the separator |
| BrokerSchema.CheckedRowsJoinInjectively | autoresearch/broker/schema.py:138-151 | validated rows with one joined key have one natural key |
| BrokerNumbers.TextIsNear | autoresearch/broker/schema.py:82-84 | the text of a number is a decimal with four places within half of the last of the number |
| BrokerNumbers.OneTextIsNear | autoresearch/broker/schema.py:82-84 | numbers with one text differ by at most 0.0001 |
| MergedCells.TiesAreEven | autoresearch/broker/schema.py:82-84 | a number half way between two texts takes the even one |
| MergedCells.StrippedIsCore | autoresearch/broker/schema.py:74-79 | the text of a cell is what stands between the white space in front and behind |
| MergedCells.CheckedExactlyWhen | autoresearch/broker/schema.py:225-259 | what validated rows have in the text columns of their key |
| BrokerNumbers.OneKeyIsOneTrade | autoresearch/broker/schema.py:138-147 | rows with one natural key agree on account, day, code and side, and on price and quantity, of cash movements on the amount, to 0.0001 |
| BrokerNumbers.KeyColumnsDecideTheKey | autoresearch/broker/schema.py:138-147 | nothing but those columns goes into the key, the amount only of cash movements |
| BrokerNumbers.ComparedRowsAreOneTrade | autoresearch/broker/reconcile.py:17-40 | rows that the comparison counts under one key agree in the same way |
| BrokerNumbers.MergedRowsAreOneTrade | autoresearch/broker/store.py:117-142 | so do validated rows that are merged into one trade |
| BrokerNumbers.AmendedRowIsRefused | autoresearch/broker/store.py:66-70 | a row that comes back under its hash with other economics is refused, and nothing is stored |
| BrokerNumbers.OneIdentityIsOneRow | autoresearch/broker/schema.py:196-202 | rows with one identity have one trade id, and without ids one content and one number |
| BrokerNumbers.TradeIdDecidesTheIdentity | autoresearch/broker/schema.py:196-198 | of a row with a trade id only that, its account and its day count |
| BrokerNumbering.CumcountIsSeq | autoresearch/broker/schema.py:192-195 | the running count at a row's turn in the sorted batch is the number of its group's rows that sort earlier, or tie and stand earlier |
| RawRows.NumberIsPlace | autoresearch/broker/schema.py:191-195 | a row's number says how many rows of its account, day, code, side, price and quantity stand before it, by time, then trade id, then place in the file |
| BrokerNumbering.Normalize | autoresearch/broker/schema.py:192-205 | the numbering and the hashing loop give each row the identity of its place |
| BrokerIdentity.SwapKeepsIdentities | autoresearch/broker/schema.py:192-205 | swapping two neighbours that are not ambiguous leaves the same identities |
| BrokerIdentity.IdentitiesIgnoreOrderExactlyWhen | autoresearch/broker/schema.py:192-205 | the identities of a batch do not depend on its order if and only if fully tied rows without a trade id share an amount |
| BrokerIdentity.IdentityInWiderExport | autoresearch/broker/schema.py:192-205 | a row keeps its identity in a wider export, wherever the added rows stand, if and only if it has a trade id or no added row of its group sorts before it, or ties with it and stands above it |
| RawStore.RawStore.CheckIdentities | autoresearch/broker/store.py:66-70 | finds a conflict exactly when some hash carries two economic signatures |
| RawStore.RawStore.Upsert | autoresearch/broker/store.py:57-76 | refuses mixed sources and conflicts without writing, and otherwise appends exactly the rows whose hash is new |
| RawRows.UpsertStores | autoresearch/broker/store.py:57-77 | an empty or mixed batch is refused, and so is one with which a hash would stand for two trades; otherwise the file of its source gets, behind what is there, exactly the rows whose hash is not there, and no other file changes |
| RawStore.RunKeepsSound | autoresearch/broker/store.py:57-76 | along any run of batches every row hash means one economic signature |
| RawStore.RunOnlyAppends | autoresearch/broker/store.py:71-75 | the files only grow at the end |
| RawStore.ReimportIsNoop | autoresearch/broker/store.py:57-76 | an accepted batch imported again after any later batches is accepted and stores nothing |
| BrokerMerge.SourcesAreBestFirst | autoresearch/broker/store.py:22 | the source order of a group names each of its sources once, by priority and name |
| MergeRebuild.TradesAreTheBestSources | autoresearch/broker/store.py:22 | the first row of a trade is that of the best source: the brokers' exports before the clearing house, that before a screenshot, that before any other |
| MergedCells.MergedCellIs | autoresearch/broker/store.py:124-131 | time, name, fees, net amount and balance of a trade come from the best source that has them, every other cell but trade id and time of ingestion from the best source |
| MergedCells.MergedIdIs | autoresearch/broker/store.py:132-135 | the best source's trade id stands unless it is a hash and another source has a real one, the first of which is taken |
| MergedCells.MergedStampIs | autoresearch/broker/store.py:136-138 | a trade of several sources came in when the first of them did |
| MergedCells.RowsAreTakenByNumber | autoresearch/broker/store.py:118-121 | the rows of a source in a group are taken by their numbers, rows without one first, and rows of one number in the order of the file |
| MergedCells.DisplayIsByColumns | autoresearch/broker/store.py:100-145 | trades are sorted by account, day, time, code, side and trade id, by the first of them that differs |
| MergedCells.KeyTextIs | autoresearch/broker/schema.py:138-151 | the text that rows are grouped by, column by column |
| BrokerMerge.MergedIsMerge | autoresearch/broker/store.py:123-139 | a merged row takes each fillable cell from the first source that has it, keeps every other primary cell, prefers a real trade id, and carries the earliest stamp |
| BrokerMerge.MergeLayer | autoresearch/broker/store.py:123-139 | the two inner loops compute that row |
| BrokerMerge.Merge | autoresearch/broker/store.py:103-142 | the groups in the order of their joined keys, for each the trades of its positions in order and no others, and then all of them stably sorted for display |
| BrokerMerge.TradesOfKey | autoresearch/broker/store.py:117-142 | each trade of a key merges the rows of that key that their sources have at one position, and still has that natural key; positions follow `seq`, and rows of one `seq` their order in the file |
| BrokerMerge.DisplayIsAnOrder | autoresearch/broker/store.py:100 | the six display columns order the trades, with ties |
| StableSort.SortIsStablySorted | autoresearch/broker/store.py:118-119 | the sort keeps the rows, puts them in order, and keeps the order of tied rows |
| StableSort.StableOrderIsUnique | autoresearch/broker/store.py:141-142 | that promise determines the sorted rows |
| MergeRebuild.MergeIgnoresTheOrderOfSources | autoresearch/broker/store.py:103-142 | raw rows that agree source by source give one list of trades, row by row |
| MergeConservation.EveryRowIsMergedOnce | autoresearch/broker/store.py:117-142 | every raw row of a group goes into exactly one of its trades |
| MergeConservation.DepthIsLargestCount | autoresearch/broker/store.py:122 | a group has as many trades as the source with the most rows of it |
| BrokerReconcile.MergeAgreesExactlyWhenPairedAlike | autoresearch/broker/reconcile.py:26-40 | for the rows of two sources, the keys of the merged BUY and SELL rows are the three buckets of `compare` together and those of the double-sourced rows the first, if and only if the rows each group pairs carry the same keys in both sources |
| BrokerNumbers.CompareCounts | autoresearch/broker/reconcile.py:17-40 | for each natural key the three buckets count the BUY and SELL rows both sources have of it, and those one has beyond the other |
| BrokerReconcile.AgreeInNumbers | autoresearch/broker/reconcile.py:36-40 | then the merged BUY and SELL rows number both + only_a + only_b, and the double-sourced ones both |
| BrokerReconcile.CheckedRowsArePairedAlike | autoresearch/broker/schema.py:138-151 | validated rows meet that condition |
| BrokerReconcile.TwoTradesBecomeOne | autoresearch/broker/store.py:113-117 | two trades of two sources with different keys that are joined alike do not |
| BrokerReconcile.ASeparatorJoinsTwoTrades | autoresearch/broker/schema.py:150-151 | two concrete rows with a separator inside a key column |

## Left out

* Files, JSON, CSV, parquet, fsync and path handling: a file is a map entry or a value, an atomic replace is one step.
* SHA-256 and SHA-1: a function parameter, and the identity that is hashed in the broker model. That `_key_hash` tells targets apart is assumed.
* Schema validators field by field, timestamps, digest formats, engine and artifact registries. Of receipts, the engine, the ids, the canonical path, the effects, the link and the own hash are checked.
* Source tracing, captured bytes, replay reads, publication journals and the promotion of directories around a staging.
* `doctor --purge`, which deletes lake files on purpose, and the explicit `as_of` parameter of snapshot endpoints, which the guard does not look at.
* Rounding of binary floating point and of the decimal context: p-values, returns and prices are exact reals. The six-digit rounding of ledger returns is not applied, prices in the lake are positive, and several rows of one code on one day are one bar.
* Calls into the source, clocks and randomness: answers, days and interleavings are parameters or events.
* `read_committed_state`, which takes the payload of a list of targets one by one.
* The rest of `stats.py`: bootstrap intervals, special functions and verdicts.
* Cost models, calendars, snapshots and position accounting in `execution.py`; missing and additional keys of the input dictionaries.
* Parsing of dates, times, codes, sides and numbers in `normalize`, the row checks and warnings of `validate` beyond the key columns, and negative zero.
* `compare`'s turnover, OTHER counts and key lists, and the text of `report`.
- PublicationProtocol.StepKeepsSerialInv: a publication keeps its target from its first write to its commit even across a crash; the file lock alone does not, and `PublicationLocks` says exactly what follows.
- PublicationHistory.RunAdvances: allows an unchanged value, because a payload that is not newer is superseded without a write.
- CommitChain.TornTailIsReadableAndRefused: for a tear between two characters; `ChainBytes` has tears at any byte. The store and protocol theorems take the log to be decodable and every row to be one line.
- ChainText.RowIsReadExactlyWhenOneLine: of `json.loads` only that it reads the row back, refuses a text that leaves a string or a bracket open, and refuses one that goes on, not only with white space, after a whole document.
- PublicationLocks.StepKeepsLockInv: a receipt may commit a publication that has not staged all its targets, which `execute_publication` does not do; the equivalences hold for those runs too.
- LakeCacheDays.SnapshotsAreFiledUnderTheirDay: a sufficient condition on the clock; SnapshotsAreMisfiledExactlyWhen has the exact one.
- LedgerRuns.NightlyFillsAreOneFill: leaves `fwd_5`, `fwd_10` and `fwd_20` to NightlyForwardAgreesExactlyWhen, because they depend on the night of maturity.
- RawStore.RawStore.Upsert: rows of one hash inside one batch are all appended when the hash is new, as in the source.
- BrokerReconcile.MergeAgreesExactlyWhenPairedAlike: for raw rows of two sources over their whole period, without the windows and accounts of `report`.
- BrokerMerge.Merge: takes the six display columns as text, which they are in every raw file.
