/** What every interleaving of cache calls guarantees. */
module LakeCacheRuns {
  import opened Wrappers
  import opened DataContracts
  import opened LakeCache

  lemma {:induction false} RunKeepsInv(cfg: Config, s: State, events: seq<Event>)
    requires Inv(cfg, s)
    ensures Inv(cfg, Run(cfg, s, events))
    decreases |events|
  {
    if events != [] {
      StepKeepsInv(cfg, s, events[0]);
      RunKeepsInv(cfg, Step(cfg, s, events[0]), events[1..]);
    }
  }

  // ---------- published once ----------

  /** The step replaces the file at `q` by a finished temporary file. */
  predicate Replaces(cfg: Config, s: State, e: Event, q: Path) {
    !e.Tick? && MoveOf(cfg, s, e).Publish? && MoveOf(cfg, s, e).path == q
  }

  function Replacements(cfg: Config, s: State, events: seq<Event>, q: Path): nat
    decreases |events|
  {
    if events == [] then 0
    else (if Replaces(cfg, s, events[0], q) then 1 else 0) + Replacements(cfg, Step(cfg, s, events[0]), events[1..], q)
  }

  function Present(s: State, q: Path): nat { if q in s.lake then 1 else 0 }

  /** Only an advance of a process whose temporary file is complete publishes, and it publishes
      the whole frame. */
  lemma OnlyCompleteFilesArePublished(cfg: Config, s: State, e: Event)
    requires Inv(cfg, s) && !e.Tick? && MoveOf(cfg, s, e).Publish?
    ensures var p := At(s, e.pid);
            && p.Writing? && MoveOf(cfg, s, e).frame == p.frame && MoveOf(cfg, s, e).path == PathOf(cfg, p.req)
            && MoveOf(cfg, s, e).origins == Origins(p.req.today, p.on)
  {
    assert ProcOk(cfg, s.lake, s.locks, e.pid, s.procs[e.pid]);
  }

  lemma StepPublishesOnce(cfg: Config, s: State, e: Event, q: Path)
    requires Inv(cfg, s)
    ensures q in s.lake ==> q in Step(cfg, s, e).lake && Step(cfg, s, e).lake[q] == s.lake[q]
    ensures Present(Step(cfg, s, e), q) == Present(s, q) + if Replaces(cfg, s, e, q) then 1 else 0
    ensures Replaces(cfg, s, e, q) ==> Storable(cfg.reg, q.endpoint, Step(cfg, s, e).lake[q])
  {
    hide PathOf;
    if !e.Tick? {
      EventMoveOk(cfg, s, e);
    }
  }

  /** Over any run of any number of processes, crashes included, the file of a key is replaced
      exactly as often as it comes into being: at most once, and never if it was there. */
  lemma {:induction false} PublishedAtMostOnce(cfg: Config, s: State, events: seq<Event>, q: Path)
    requires Inv(cfg, s)
    ensures Present(s, q) + Replacements(cfg, s, events, q) == Present(Run(cfg, s, events), q)
    decreases |events|
  {
    if events != [] {
      StepPublishesOnce(cfg, s, events[0], q);
      StepKeepsInv(cfg, s, events[0]);
      PublishedAtMostOnce(cfg, Step(cfg, s, events[0]), events[1..], q);
    }
  }

  lemma {:induction false} FilesNeverChange(cfg: Config, s: State, events: seq<Event>, q: Path)
    requires Inv(cfg, s) && q in s.lake
    ensures q in Run(cfg, s, events).lake && Run(cfg, s, events).lake[q] == s.lake[q]
    decreases |events|
  {
    if events != [] {
      StepPublishesOnce(cfg, s, events[0], q);
      StepKeepsInv(cfg, s, events[0]);
      FilesNeverChange(cfg, Step(cfg, s, events[0]), events[1..], q);
    }
  }

  predicate AnsweredFromFile(cfg: Config, p: Proc, q: Path) {
    && p.Done? && PathOf(cfg, p.req) == q && p.outcome.Returned?
    && (p.outcome.access.CacheHit? || p.outcome.access.FetchedCached?)
  }

  /** Any two calls on a key that were answered from its file, or filled it, at any two moments of
      a run, returned the same frame. */
  lemma HitsAgree(cfg: Config, s: State, events: seq<Event>, a: Pid, b: Pid, q: Path)
    requires Inv(cfg, s)
    requires AnsweredFromFile(cfg, At(s, a), q) && AnsweredFromFile(cfg, At(Run(cfg, s, events), b), q)
    ensures At(s, a).outcome.frame == At(Run(cfg, s, events), b).outcome.frame
  {
    assert ProcOk(cfg, s.lake, s.locks, a, At(s, a));
    RunKeepsInv(cfg, s, events);
    var t := Run(cfg, s, events);
    assert ProcOk(cfg, t.lake, t.locks, b, At(t, b));
    FilesNeverChange(cfg, s, events, q);
  }

  // ---------- contracts ----------

  /** Every file a run adds for a blocking endpoint, or one that does not persist violations,
      meets its contract as stored, stamp included. */
  lemma {:induction false} StoredFramesMeetTheirContract(cfg: Config, s: State, events: seq<Event>, q: Path)
    requires Inv(cfg, s) && q !in s.lake && q in Run(cfg, s, events).lake
    ensures Storable(cfg.reg, q.endpoint, Run(cfg, s, events).lake[q])
    decreases |events|
  {
    var s' := Step(cfg, s, events[0]);
    StepPublishesOnce(cfg, s, events[0], q);
    StepKeepsInv(cfg, s, events[0]);
    if q in s'.lake {
      FilesNeverChange(cfg, s', events[1..], q);
    } else {
      StoredFramesMeetTheirContract(cfg, s', events[1..], q);
    }
  }

  /** A call on a blocking endpoint that is not live either raised or returned a frame without
      violations; columns count unless the day had not settled. */
  lemma BlockingReadsMeetTheirContract(cfg: Config, s: State, events: seq<Event>, pid: Pid)
    requires Inv(cfg, s)
    requires At(Run(cfg, s, events), pid).Done?
    ensures var p := At(Run(cfg, s, events), pid);
            Blocks(cfg.reg, p.req.endpoint) && p.outcome.Returned? && !p.outcome.access.FetchedLive? ==>
              && p.outcome.frame.Some?
              && p.outcome.frame.value.rows != []
              && (!p.outcome.access.FetchedUnsettled? ==> Meets(cfg.reg, p.req.endpoint, p.outcome.frame.value))
  {
    RunKeepsInv(cfg, s, events);
    var t := Run(cfg, s, events);
    var p := At(t, pid);
    assert ProcOk(cfg, t.lake, t.locks, pid, p);
    if Blocks(cfg.reg, p.req.endpoint) && p.outcome.Returned? && !p.outcome.access.FetchedLive? {
      NoViolationsMeansMet(cfg.reg, p.req.endpoint, p.outcome.frame.value);
    }
  }

  // ---------- nothing partial ----------

  /** The frame a fetch answer turns into before it is checked. */
  function Prepared(answer: Option<Frame>): Frame { if answer.None? then EMPTY_FRAME else answer.value }

  function Answers(events: seq<Event>): set<Frame>
    decreases |events|
  {
    if events == [] then {}
    else
      var first := if events[0].Fetch? && events[0].answer.Some? then {Prepared(events[0].answer.value)} else {};
      first + Answers(events[1..])
  }

  /** A whole answer, stamped or not. */
  predicate Whole(raws: set<Frame>, f: Frame) {
    f in raws || exists raw | raw in raws :: f == Stamp(raw)
  }

  predicate ProcWhole(raws: set<Frame>, p: Proc) {
    && (p.Fetched? ==> p.raw in raws)
    && (p.Checked? || p.Writing? ==> Whole(raws, p.frame))
  }

  /** Since `before` was the lake, only whole answers among `raws` have come in. */
  ghost predicate Sourced(s: State, before: map<Path, Frame>, raws: set<Frame>) {
    && (forall pid | pid in s.procs :: ProcWhole(raws, s.procs[pid]))
    && (forall q | q in s.lake && q !in before :: Whole(raws, s.lake[q]))
  }

  predicate MoveWhole(raws: set<Frame>, m: Move) {
    m.Stay? || ProcWhole(raws, m.next)
  }

  lemma MoverStaysWhole(cfg: Config, s: State, e: Event, raws: set<Frame>)
    requires !e.Tick? && ProcWhole(raws, At(s, e.pid))
    ensures MoveWhole(raws + Answers([e]), MoveOf(cfg, s, e))
  {
    assert [e][1..] == [];
  }

  lemma StepKeepsSourced(cfg: Config, s: State, e: Event, before: map<Path, Frame>, raws: set<Frame>)
    requires Inv(cfg, s) && Sourced(s, before, raws)
    ensures Sourced(Step(cfg, s, e), before, raws + Answers([e]))
  {
    if !e.Tick? {
      assert ProcWhole(raws, At(s, e.pid));
      MoverStaysWhole(cfg, s, e, raws);
      if MoveOf(cfg, s, e).Publish? {
        OnlyCompleteFilesArePublished(cfg, s, e);
      }
      AppliedWhole(s, e.pid, MoveOf(cfg, s, e), before, raws, raws + Answers([e]));
    } else {
      assert [e][1..] == [];
      assert raws + Answers([e]) == raws;
    }
  }

  lemma AppliedWhole(s: State, pid: Pid, m: Move, before: map<Path, Frame>, raws: set<Frame>, more: set<Frame>)
    requires Sourced(s, before, raws) && raws <= more && MoveWhole(more, m)
    requires m.Publish? ==> Whole(more, m.frame)
    ensures Sourced(Apply(s, pid, m), before, more)
  {
    var s' := Apply(s, pid, m);
    forall other | other in s'.procs ensures ProcWhole(more, s'.procs[other]) {
      if other in s.procs {
        assert ProcWhole(raws, s.procs[other]);
      }
    }
    forall q | q in s'.lake && q !in before ensures Whole(more, s'.lake[q]) {
      if q in s.lake {
        assert Whole(raws, s.lake[q]);
      }
    }
  }

  lemma {:induction false} RunKeepsSourced(cfg: Config, s: State, events: seq<Event>, before: map<Path, Frame>,
                                          raws: set<Frame>)
    requires Inv(cfg, s) && Sourced(s, before, raws)
    ensures Sourced(Run(cfg, s, events), before, raws + Answers(events))
    decreases |events|
  {
    if events == [] {
      assert raws + Answers(events) == raws;
    } else {
      StepKeepsSourced(cfg, s, events[0], before, raws);
      StepKeepsInv(cfg, s, events[0]);
      RunKeepsSourced(cfg, Step(cfg, s, events[0]), events[1..], before, raws + Answers([events[0]]));
      assert [events[0]][1..] == [];
      assert raws + Answers([events[0]]) + Answers(events[1..]) == raws + Answers(events);
    }
  }

  /** Whatever the interleaving and wherever processes die, a file a run adds is one whole answer
      of the source: no reader of the file gets a part of one. */
  lemma StoredFramesAreWhole(cfg: Config, s: State, events: seq<Event>, q: Path)
    requires Quiet(s)
    requires q !in s.lake && q in Run(cfg, s, events).lake
    ensures Whole(Answers(events), Run(cfg, s, events).lake[q])
  {
    QuietInv(cfg, s);
    RunKeepsSourced(cfg, s, events, s.lake, {});
    assert {} + Answers(events) == Answers(events);
  }
}
