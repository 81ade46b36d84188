/** Which question every file of the lake answers, over whole runs (autoresearch/data/cache.py, `get_or_fetch`). */
module LakeAnswers {
  import opened Wrappers
  import opened Strings
  import opened DataContracts
  import opened LakeCache
  import opened LakeCacheRuns
  import opened LakeKeys

  /** The i-th event of the run is the answer to a fetch for a request. */
  predicate Answered(cfg: Config, s: State, events: seq<Event>, i: nat, req: Request, raw: Frame)
    requires i < |events|
  {
    && events[i].Fetch? && events[i].answer.Some? && Prepared(events[i].answer.value) == raw
    && At(Run(cfg, s, events[..i]), events[i].pid) == Fetching(req)
  }

  predicate Asked(cfg: Config, s: State, events: seq<Event>, req: Request, raw: Frame) {
    exists i: nat :: i < |events| && Answered(cfg, s, events, i, req, raw)
  }

  /** What is stored of an answer: snapshots get their stamp. */
  function Kept(cfg: Config, req: Request, raw: Frame): Frame {
    if cfg.policy(req.endpoint).snapshot then Stamp(raw) else raw
  }

  ghost predicate KeptAnswer(cfg: Config, s: State, events: seq<Event>, req: Request, frame: Frame) {
    exists raw :: Asked(cfg, s, events, req, raw) && frame == Kept(cfg, req, raw)
  }

  ghost predicate ProcAsked(cfg: Config, s: State, events: seq<Event>, p: Proc) {
    && (p.Fetched? ==> Asked(cfg, s, events, p.req, p.raw))
    && (p.Checked? || p.Writing? ==> KeptAnswer(cfg, s, events, p.req, p.frame))
  }

  ghost predicate FileAsked(cfg: Config, s: State, events: seq<Event>, q: Path, frame: Frame) {
    exists req :: PathOf(cfg, req) == q && KeptAnswer(cfg, s, events, req, frame)
  }

  /** Every frame on its way to the lake, and every file the run has added, is the answer to a fetch for a request of
      its own path. */
  ghost predicate AllAsked(cfg: Config, s: State, events: seq<Event>, t: State) {
    && (forall pid | pid in t.procs :: ProcAsked(cfg, s, events, t.procs[pid]))
    && (forall q | q in t.lake && q !in s.lake :: FileAsked(cfg, s, events, q, t.lake[q]))
  }

  lemma {:induction false} RunOneMore(cfg: Config, s: State, events: seq<Event>, e: Event)
    ensures Run(cfg, s, events + [e]) == Step(cfg, Run(cfg, s, events), e)
    decreases |events|
  {
    if events == [] {
      assert [e][1..] == [] && events + [e] == [e];
    } else {
      assert (events + [e])[1..] == events[1..] + [e];
      RunOneMore(cfg, Step(cfg, s, events[0]), events[1..], e);
    }
  }

  lemma AskedLater(cfg: Config, s: State, events: seq<Event>, e: Event, req: Request, raw: Frame)
    requires Asked(cfg, s, events, req, raw)
    ensures Asked(cfg, s, events + [e], req, raw)
  {
    var i: nat :| i < |events| && Answered(cfg, s, events, i, req, raw);
    assert (events + [e])[..i] == events[..i] && (events + [e])[i] == events[i];
    assert Answered(cfg, s, events + [e], i, req, raw);
  }

  lemma KeptLater(cfg: Config, s: State, events: seq<Event>, e: Event, req: Request, frame: Frame)
    requires KeptAnswer(cfg, s, events, req, frame)
    ensures KeptAnswer(cfg, s, events + [e], req, frame)
  {
    var raw :| Asked(cfg, s, events, req, raw) && frame == Kept(cfg, req, raw);
    AskedLater(cfg, s, events, e, req, raw);
  }

  lemma ProcLater(cfg: Config, s: State, events: seq<Event>, e: Event, p: Proc)
    requires ProcAsked(cfg, s, events, p)
    ensures ProcAsked(cfg, s, events + [e], p)
  {
    if p.Fetched? {
      AskedLater(cfg, s, events, e, p.req, p.raw);
    } else if p.Checked? || p.Writing? {
      KeptLater(cfg, s, events, e, p.req, p.frame);
    }
  }

  /** The process that moves: what it holds afterwards was asked for. */
  lemma MoverAsked(cfg: Config, s: State, events: seq<Event>, e: Event)
    requires !e.Tick? && ProcAsked(cfg, s, events, At(Run(cfg, s, events), e.pid))
    ensures var m := MoveOf(cfg, Run(cfg, s, events), e); m.Stay? || ProcAsked(cfg, s, events + [e], m.next)
  {
    var t := Run(cfg, s, events);
    var p, m := At(t, e.pid), MoveOf(cfg, t, e);
    ProcLater(cfg, s, events, e, p);
    if e.Fetch? && p.Fetching? && e.answer.Some? {
      assert (events + [e])[..|events|] == events && (events + [e])[|events|] == e;
      assert Answered(cfg, s, events + [e], |events|, p.req, Prepared(e.answer.value));
    } else if e.Advance? && p.Fetched? && m.GoOn? {
      assert KeptAnswer(cfg, s, events + [e], p.req, Kept(cfg, p.req, p.raw));
    }
  }

  lemma StepAsked(cfg: Config, s: State, events: seq<Event>, e: Event)
    requires Inv(cfg, Run(cfg, s, events)) && AllAsked(cfg, s, events, Run(cfg, s, events))
    ensures AllAsked(cfg, s, events + [e], Run(cfg, s, events + [e]))
  {
    hide Inv, ProcOk, KeptAnswer, Asked, NextMove, FetchMove, FileAsked, Run, MoveOf;
    var t, t' := Run(cfg, s, events), Run(cfg, s, events + [e]);
    RunOneMore(cfg, s, events, e);
    if !e.Tick? {
      assert ProcAsked(cfg, s, events, At(t, e.pid));
      MoverAsked(cfg, s, events, e);
    }
    forall pid | pid in t'.procs ensures ProcAsked(cfg, s, events + [e], t'.procs[pid]) {
      if pid in t.procs {
        ProcLater(cfg, s, events, e, t.procs[pid]);
      }
    }
    forall q | q in t'.lake && q !in s.lake ensures FileAsked(cfg, s, events + [e], q, t'.lake[q]) {
      FileStaysAsked(cfg, s, events, e, q);
    }
  }

  lemma FileStaysAsked(cfg: Config, s: State, events: seq<Event>, e: Event, q: Path)
    requires Inv(cfg, Run(cfg, s, events)) && AllAsked(cfg, s, events, Run(cfg, s, events))
    requires q in Step(cfg, Run(cfg, s, events), e).lake && q !in s.lake
    ensures FileAsked(cfg, s, events + [e], q, Step(cfg, Run(cfg, s, events), e).lake[q])
  {
    hide Inv, ProcOk, KeptAnswer, NextMove, FetchMove;
    var t := Run(cfg, s, events);
    if !e.Tick? && MoveOf(cfg, t, e).Publish? && MoveOf(cfg, t, e).path == q {
      OnlyCompleteFilesArePublished(cfg, t, e);
      var p := At(t, e.pid);
      assert ProcAsked(cfg, s, events, p);
      KeptLater(cfg, s, events, e, p.req, p.frame);
    } else {
      assert FileAsked(cfg, s, events, q, t.lake[q]);
      var req :| PathOf(cfg, req) == q && KeptAnswer(cfg, s, events, req, t.lake[q]);
      KeptLater(cfg, s, events, e, req, t.lake[q]);
    }
  }

  lemma {:induction false} RunAsked(cfg: Config, s: State, events: seq<Event>)
    requires Quiet(s)
    ensures Inv(cfg, Run(cfg, s, events)) && AllAsked(cfg, s, events, Run(cfg, s, events))
    decreases |events|
  {
    hide Inv, ProcAsked, FileAsked;
    QuietInv(cfg, s);
    if events != [] {
      var n := |events| - 1;
      assert events == events[..n] + [events[n]];
      RunAsked(cfg, s, events[..n]);
      StepAsked(cfg, s, events[..n], events[n]);
      RunKeepsInv(cfg, s, events);
    }
  }

  /** Every file a run of an unused lake adds is the answer to a fetch for a request of its own path, as it came but for
      the stamp of snapshots. */
  lemma FilesAnswerTheirOwnQuestion(cfg: Config, s: State, events: seq<Event>, q: Path) returns (req: Request, i: nat)
    requires Quiet(s) && q !in s.lake && q in Run(cfg, s, events).lake
    ensures PathOf(cfg, req) == q && i < |events| && events[i].Fetch? && events[i].answer.Some?
    ensures At(Run(cfg, s, events[..i]), events[i].pid) == Fetching(req)
    ensures var raw := if events[i].answer.value.None? then EMPTY_FRAME else events[i].answer.value.value;
            Run(cfg, s, events).lake[q] == if cfg.policy(req.endpoint).snapshot then Stamp(raw) else raw
  {
    RunAsked(cfg, s, events);
    assert FileAsked(cfg, s, events, q, Run(cfg, s, events).lake[q]);
    req :| PathOf(cfg, req) == q && KeptAnswer(cfg, s, events, req, Run(cfg, s, events).lake[q]);
    var raw :| Asked(cfg, s, events, req, raw) && Run(cfg, s, events).lake[q] == Kept(cfg, req, raw);
    i :| i < |events| && Answered(cfg, s, events, i, req, raw);
  }

  /** So a call for a day that was answered from the lake, or filled it, got what the source said when it was asked for
      that very day. */
  lemma HitsAnswerForTheirDay(cfg: Config, s: State, events: seq<Event>, pid: Pid, day: string)
    returns (req: Request, i: nat, asked: string)
    requires Quiet(s) && s.lake == map[] && var p := At(Run(cfg, s, events), pid);
             && p.Done? && AnsweredFromFile(cfg, p, PathOf(cfg, p.req))
             && cfg.policy(p.req.endpoint).kind.ByDate? && SaysDay(p.req.params, day) && Named(day)
    ensures i < |events| && events[i].Fetch? && events[i].answer.Some?
    ensures At(Run(cfg, s, events[..i]), events[i].pid) == Fetching(req)
    ensures var p := At(Run(cfg, s, events), pid);
            && req.endpoint == p.req.endpoint && SaysDay(req.params, asked) && Compact(asked) == Compact(day)
            && var raw := if events[i].answer.value.None? then EMPTY_FRAME else events[i].answer.value.value;
               p.outcome.frame == Some(if cfg.policy(req.endpoint).snapshot then Stamp(raw) else raw)
  {
    var t := Run(cfg, s, events);
    var p := At(t, pid);
    var q := PathOf(cfg, p.req);
    RunAsked(cfg, s, events);
    assert ProcOk(cfg, t.lake, t.locks, pid, p);
    req, i := FilesAnswerTheirOwnQuestion(cfg, s, events, q);
    asked := First(req.params, DATE_PARAMS);
    FirstSays(req.params, DATE_PARAMS);
    KeyOfADay(cfg.policy(p.req.endpoint), p.req.params, p.req.today, day);
    KeyOfADay(cfg.policy(p.req.endpoint), req.params, req.today, asked);
  }

  // ---------- which days are stored ----------

  /** The day a request names is over, or it is today and the call takes it for settled; or it names none. */
  ghost predicate Settled(req: Request) {
    exists day :: SaysDay(req.params, day)
      && (Compact(day) == "" || TextBefore(Compact(day), req.today) || (Compact(day) == req.today && req.assumeSettled))
  }

  lemma UnsettledIsNotSettled(policy: Policy, req: Request)
    requires policy.kind.ByDate?
    ensures Unsettled(policy, req) <==> !Settled(req)
  {
    var day := First(req.params, DATE_PARAMS);
    FirstSays(req.params, DATE_PARAMS);
    StringLessIsBefore(Compact(day), req.today);
    if Settled(req) {
      var other :| SaysDay(req.params, other)
        && (Compact(other) == "" || TextBefore(Compact(other), req.today)
            || (Compact(other) == req.today && req.assumeSettled));
      SaysIsUnique(req.params, DATE_PARAMS, day, other);
    } else {
      assert SaysDay(req.params, day);
    }
  }

  /** A call gets past the guards only where it may: live endpoints are asked every time and never stored, and neither
      are days that have not settled. */
  predicate Guarded(cfg: Config, p: Proc) {
    match p
    case Idle => true
    case Probing(_) => true
    case FetchingLive(req) => cfg.policy(req.endpoint).live
    case FetchingUnsettled(req) =>
      !cfg.policy(req.endpoint).live && Unsettled(cfg.policy(req.endpoint), req)
    case Hit(req) => !cfg.policy(req.endpoint).live
    case Missed(req) => !cfg.policy(req.endpoint).live
    case Done(req, outcome) =>
      && (outcome.Returned? && outcome.access.FetchedLive? ==> cfg.policy(req.endpoint).live)
      && (outcome.Returned? && !outcome.access.FetchedLive? ==> !cfg.policy(req.endpoint).live)
      && (outcome.Returned? && outcome.access.FetchedUnsettled? ==> Unsettled(cfg.policy(req.endpoint), req))
      && (outcome.Returned? && (outcome.access.FetchedCached? || outcome.access.FetchedRefused?) ==>
            !Unsettled(cfg.policy(req.endpoint), req))
    case _ => !cfg.policy(p.req.endpoint).live && !Unsettled(cfg.policy(p.req.endpoint), p.req)
  }

  lemma MoverStaysGuarded(cfg: Config, s: State, e: Event)
    requires !e.Tick? && Guarded(cfg, At(s, e.pid))
    ensures MoveOf(cfg, s, e).Stay? || Guarded(cfg, MoveOf(cfg, s, e).next)
  {
    hide PathOf, Unsettled;
  }

  lemma {:induction false} RunStaysGuarded(cfg: Config, s: State, events: seq<Event>)
    requires forall pid | pid in s.procs :: Guarded(cfg, s.procs[pid])
    ensures forall pid | pid in Run(cfg, s, events).procs :: Guarded(cfg, Run(cfg, s, events).procs[pid])
    decreases |events|
  {
    hide Guarded, MoveOf;
    if events != [] {
      var e, s' := events[0], Step(cfg, s, events[0]);
      if !e.Tick? {
        IdleIsGuarded(cfg);
        assert Guarded(cfg, At(s, e.pid));
        MoverStaysGuarded(cfg, s, e);
      }
      RunStaysGuarded(cfg, s', events[1..]);
    }
  }

  lemma IdleIsGuarded(cfg: Config)
    ensures Guarded(cfg, Idle)
  {
  }

  /** No file comes into being for a live endpoint, or for a day that had not settled for the call that was answered. */
  lemma StoredDaysAreSettled(cfg: Config, s: State, events: seq<Event>, q: Path)
    requires Quiet(s) && q !in s.lake && q in Run(cfg, s, events).lake
    ensures !cfg.policy(q.endpoint).live
    ensures cfg.policy(q.endpoint).kind.ByDate? ==> exists req :: PathOf(cfg, req) == q && Settled(req)
  {
    var req, i := FilesAnswerTheirOwnQuestion(cfg, s, events, q);
    RunStaysGuarded(cfg, s, events[..i]);
    assert Guarded(cfg, Fetching(req));
    if cfg.policy(q.endpoint).kind.ByDate? {
      UnsettledIsNotSettled(cfg.policy(q.endpoint), req);
    }
  }

  /** How a finished call was answered says whether its endpoint is live and its day has settled. */
  lemma AnswersFitTheRequest(cfg: Config, s: State, events: seq<Event>, pid: Pid)
    requires Quiet(s)
    requires var p := At(Run(cfg, s, events), pid); p.Done? && p.outcome.Returned?
    ensures var p := At(Run(cfg, s, events), pid);
            var policy, access := cfg.policy(p.req.endpoint), p.outcome.access;
            && (access.FetchedLive? <==> policy.live)
            && (access.FetchedUnsettled? ==> policy.kind.ByDate? && !Settled(p.req))
            && (policy.kind.ByDate? && (access.FetchedCached? || access.FetchedRefused?) ==> Settled(p.req))
  {
    RunStaysGuarded(cfg, s, events);
    var p := At(Run(cfg, s, events), pid);
    assert Guarded(cfg, p);
    if cfg.policy(p.req.endpoint).kind.ByDate? {
      UnsettledIsNotSettled(cfg.policy(p.req.endpoint), p.req);
    }
  }
}
