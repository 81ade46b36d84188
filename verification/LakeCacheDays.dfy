/** On which day a stored snapshot was observed, and under which day it is filed. */
module LakeCacheDays {
  import opened Wrappers
  import opened DataContracts
  import opened LakeCache
  import opened LakeCacheRuns

  predicate Snapshot(cfg: Config, req: Request) { cfg.policy(req.endpoint).snapshot }

  predicate Misdated(o: Origins) { o.on != o.today }

  /** Some snapshot is filed under another day than it was observed on. */
  ghost predicate Misfiled(cfg: Config, s: State) {
    exists q :: q in s.origins && cfg.policy(q.endpoint).snapshot && Misdated(s.origins[q])
  }

  /** Origins are known of stored files only. */
  predicate Recorded(s: State) { forall q | q in s.origins :: q in s.lake }

  // ---------- from the answer of the source to the file ----------

  /** An answer is on its way into a file. */
  predicate Carrying(p: Proc) { p.Fetched? || p.Checked? || p.Writing? }

  predicate CarriesLate(cfg: Config, p: Proc) { Carrying(p) && Snapshot(cfg, p.req) && p.on != p.req.today }

  /** A snapshot is answered on another day than the one its call will file it under. */
  predicate LateFetch(cfg: Config, s: State, e: Event) {
    e.Fetch? && e.answer.Some? && At(s, e.pid).Fetching? && Snapshot(cfg, At(s, e.pid).req)
    && s.day != At(s, e.pid).req.today
  }

  predicate Publishes(cfg: Config, s: State, e: Event, pid: Pid) {
    !e.Tick? && e.pid == pid && MoveOf(cfg, s, e).Publish?
  }

  /** What the process carries becomes a file before the process leaves, fails or dies. */
  predicate ReachesTheLake(cfg: Config, s: State, events: seq<Event>, pid: Pid)
    decreases |events|
  {
    events != []
    && (Publishes(cfg, s, events[0], pid)
        || (Carrying(At(Step(cfg, s, events[0]), pid))
            && ReachesTheLake(cfg, Step(cfg, s, events[0]), events[1..], pid)))
  }

  /** A late answer of the run ends up in a file. */
  predicate FilesALateAnswer(cfg: Config, s: State, events: seq<Event>)
    decreases |events|
  {
    events != []
    && ((LateFetch(cfg, s, events[0]) && ReachesTheLake(cfg, Step(cfg, s, events[0]), events[1..], events[0].pid))
        || FilesALateAnswer(cfg, Step(cfg, s, events[0]), events[1..]))
  }

  /** A late answer carried at the start of the run ends up in a file. */
  ghost predicate FilesACarriedAnswer(cfg: Config, s: State, events: seq<Event>) {
    exists pid :: CarriesLate(cfg, At(s, pid)) && ReachesTheLake(cfg, s, events, pid)
  }

  // ---------- one step ----------

  lemma StepKeepsRecorded(cfg: Config, s: State, e: Event)
    requires Recorded(s)
    ensures Recorded(Step(cfg, s, e))
  {
  }

  /** What the moving process carries afterwards. */
  lemma MoverCarries(cfg: Config, s: State, e: Event)
    requires !e.Tick?
    ensures var p, p' := At(s, e.pid), At(Step(cfg, s, e), e.pid);
            CarriesLate(cfg, p') <==> LateFetch(cfg, s, e) || (CarriesLate(cfg, p) && Carrying(p'))
  {
    if MoveOf(cfg, s, e).Stay? {
      assert Step(cfg, s, e) == s;
    } else {
      assert At(Step(cfg, s, e), e.pid) == MoveOf(cfg, s, e).next;
      NextCarries(cfg, s, e);
    }
  }

  lemma NextCarries(cfg: Config, s: State, e: Event)
    requires !e.Tick? && !MoveOf(cfg, s, e).Stay?
    ensures var p, p' := At(s, e.pid), MoveOf(cfg, s, e).next;
            CarriesLate(cfg, p') <==> LateFetch(cfg, s, e) || (CarriesLate(cfg, p) && Carrying(p'))
  {
    hide PathOf;
  }

  lemma OthersKeepStill(cfg: Config, s: State, e: Event, pid: Pid)
    requires e.Tick? || e.pid != pid
    ensures At(Step(cfg, s, e), pid) == At(s, pid)
  {
  }

  lemma StepMisfiles(cfg: Config, s: State, e: Event)
    requires Inv(cfg, s) && Recorded(s)
    ensures Misfiled(cfg, Step(cfg, s, e))
        <==> Misfiled(cfg, s) || (!e.Tick? && Publishes(cfg, s, e, e.pid) && CarriesLate(cfg, At(s, e.pid)))
  {
    if !e.Tick? && MoveOf(cfg, s, e).Publish? {
      OnlyCompleteFilesArePublished(cfg, s, e);
      var m, p := MoveOf(cfg, s, e), At(s, e.pid);
      assert ProcOk(cfg, s.lake, s.locks, e.pid, p);
      assert m.path !in s.lake && m.path.endpoint == p.req.endpoint;
      PublishMisfiles(cfg, s, e.pid, m);
    }
  }

  lemma PublishMisfiles(cfg: Config, s: State, pid: Pid, m: Move)
    requires m.Publish? && m.path !in s.origins
    ensures Misfiled(cfg, Apply(s, pid, m))
        <==> Misfiled(cfg, s) || (cfg.policy(m.path.endpoint).snapshot && Misdated(m.origins))
  {
    var t := Apply(s, pid, m);
    assert t.origins == s.origins[m.path := m.origins];
    if Misfiled(cfg, s) {
      var q :| q in s.origins && cfg.policy(q.endpoint).snapshot && Misdated(s.origins[q]);
      assert q in t.origins && t.origins[q] == s.origins[q];
    }
    if cfg.policy(m.path.endpoint).snapshot && Misdated(m.origins) {
      assert m.path in t.origins;
    }
  }

  // ---------- whole runs ----------

  /** A snapshot is misfiled now, or will be through an answer that is late already or comes late. */
  ghost predicate WillMisfile(cfg: Config, s: State, events: seq<Event>) {
    Misfiled(cfg, s) || FilesACarriedAnswer(cfg, s, events) || FilesALateAnswer(cfg, s, events)
  }

  lemma CarriedAnswerBefore(cfg: Config, s: State, events: seq<Event>, pid: Pid)
    requires events != [] && CarriesLate(cfg, At(Step(cfg, s, events[0]), pid))
    requires ReachesTheLake(cfg, Step(cfg, s, events[0]), events[1..], pid)
    ensures FilesACarriedAnswer(cfg, s, events) || FilesALateAnswer(cfg, s, events)
  {
    var e := events[0];
    if e.Tick? || e.pid != pid {
      OthersKeepStill(cfg, s, e, pid);
      assert ReachesTheLake(cfg, s, events, pid);
    } else {
      MoverCarries(cfg, s, e);
      if !LateFetch(cfg, s, e) {
        assert ReachesTheLake(cfg, s, events, pid);
      }
    }
  }

  lemma CarriedAnswerAfter(cfg: Config, s: State, events: seq<Event>, pid: Pid)
    requires events != [] && CarriesLate(cfg, At(s, pid)) && ReachesTheLake(cfg, s, events, pid)
    ensures Publishes(cfg, s, events[0], pid) || FilesACarriedAnswer(cfg, Step(cfg, s, events[0]), events[1..])
  {
    var e, s' := events[0], Step(cfg, s, events[0]);
    if !Publishes(cfg, s, e, pid) {
      if e.Tick? || e.pid != pid {
        OthersKeepStill(cfg, s, e, pid);
      } else {
        MoverCarries(cfg, s, e);
      }
      assert CarriesLate(cfg, At(s', pid)) && ReachesTheLake(cfg, s', events[1..], pid);
    }
  }

  lemma WillMisfileLater(cfg: Config, s: State, events: seq<Event>)
    requires Inv(cfg, s) && Recorded(s) && events != [] && WillMisfile(cfg, s, events)
    ensures WillMisfile(cfg, Step(cfg, s, events[0]), events[1..])
  {
    var e, s', rest := events[0], Step(cfg, s, events[0]), events[1..];
    StepMisfiles(cfg, s, e);
    if !Misfiled(cfg, s') {
      if FilesACarriedAnswer(cfg, s, events) {
        var pid :| CarriesLate(cfg, At(s, pid)) && ReachesTheLake(cfg, s, events, pid);
        CarriedAnswerAfter(cfg, s, events, pid);
      } else if LateFetch(cfg, s, e) && ReachesTheLake(cfg, s', rest, e.pid) {
        MoverCarries(cfg, s, e);
      }
    }
  }

  lemma WillMisfileBefore(cfg: Config, s: State, events: seq<Event>)
    requires Inv(cfg, s) && Recorded(s) && events != [] && WillMisfile(cfg, Step(cfg, s, events[0]), events[1..])
    ensures WillMisfile(cfg, s, events)
  {
    var e, s', rest := events[0], Step(cfg, s, events[0]), events[1..];
    StepMisfiles(cfg, s, e);
    if Misfiled(cfg, s') {
      if !Misfiled(cfg, s) {
        assert ReachesTheLake(cfg, s, events, e.pid);
      }
    } else if FilesACarriedAnswer(cfg, s', rest) {
      var pid :| CarriesLate(cfg, At(s', pid)) && ReachesTheLake(cfg, s', rest, pid);
      CarriedAnswerBefore(cfg, s, events, pid);
    }
  }

  lemma {:induction false} RunMisfilesExactlyWhen(cfg: Config, s: State, events: seq<Event>)
    requires Inv(cfg, s) && Recorded(s)
    ensures Misfiled(cfg, Run(cfg, s, events)) <==> WillMisfile(cfg, s, events)
    decreases |events|
  {
    if events != [] {
      StepKeepsInv(cfg, s, events[0]);
      StepKeepsRecorded(cfg, s, events[0]);
      RunMisfilesExactlyWhen(cfg, Step(cfg, s, events[0]), events[1..]);
      if WillMisfile(cfg, s, events) {
        WillMisfileLater(cfg, s, events);
      }
      if WillMisfile(cfg, Step(cfg, s, events[0]), events[1..]) {
        WillMisfileBefore(cfg, s, events);
      }
    }
  }

  /** From a lake nobody is using: every snapshot a run stores is filed under the day it was observed on if
      and only if no answer that came on another day than its call's made it into a file. */
  lemma SnapshotsAreMisfiledExactlyWhen(cfg: Config, s: State, events: seq<Event>)
    requires Quiet(s) && s.origins == map[]
    ensures Misfiled(cfg, Run(cfg, s, events)) <==> FilesALateAnswer(cfg, s, events)
  {
    QuietInv(cfg, s);
    RunMisfilesExactlyWhen(cfg, s, events);
  }

  // ---------- a clock that stands still during fetches ----------

  /** Nobody is between the snapshot guard and the answer of the source. */
  predicate NoSnapshotInFlight(cfg: Config, s: State) {
    forall pid | pid in s.procs :: s.procs[pid].Fetching? ==> !Snapshot(cfg, s.procs[pid].req)
  }

  /** The clock moves only while no snapshot is being fetched. */
  predicate CalmClock(cfg: Config, s: State, events: seq<Event>)
    decreases |events|
  {
    events == []
    || ((events[0].Tick? ==> NoSnapshotInFlight(cfg, s)) && CalmClock(cfg, Step(cfg, s, events[0]), events[1..]))
  }

  predicate ProcDated(cfg: Config, day: string, p: Proc) {
    && (p.Fetching? && Snapshot(cfg, p.req) ==> p.req.today == day)
    && ((p.Fetched? || p.Checked? || p.Writing?) && Snapshot(cfg, p.req) ==> p.on == p.req.today)
  }

  ghost predicate Dated(cfg: Config, s: State) {
    && (forall pid | pid in s.procs :: ProcDated(cfg, s.day, s.procs[pid]))
    && (forall q | q in s.origins && cfg.policy(q.endpoint).snapshot :: s.origins[q].on == s.origins[q].today)
  }

  lemma MoverStaysDated(cfg: Config, s: State, e: Event)
    requires !e.Tick? && ProcDated(cfg, s.day, At(s, e.pid))
    ensures MoveOf(cfg, s, e).Stay? || ProcDated(cfg, s.day, MoveOf(cfg, s, e).next)
    ensures MoveOf(cfg, s, e).Publish? ==>
              At(s, e.pid).Writing? && MoveOf(cfg, s, e).path == PathOf(cfg, At(s, e.pid).req)
              && MoveOf(cfg, s, e).origins == Origins(At(s, e.pid).req.today, At(s, e.pid).on)
  {
    hide PathOf;
  }

  lemma TickKeepsDated(cfg: Config, s: State, e: Event)
    requires Dated(cfg, s) && e.Tick? && NoSnapshotInFlight(cfg, s)
    ensures Dated(cfg, Step(cfg, s, e))
  {
    hide MoveOf;
    forall pid | pid in s.procs ensures ProcDated(cfg, e.day, s.procs[pid]) {
      assert ProcDated(cfg, s.day, At(s, pid));
    }
  }

  lemma StepKeepsDated(cfg: Config, s: State, e: Event)
    requires Dated(cfg, s) && (e.Tick? ==> NoSnapshotInFlight(cfg, s))
    ensures Dated(cfg, Step(cfg, s, e))
  {
    hide MoveOf;
    if e.Tick? {
      TickKeepsDated(cfg, s, e);
    } else {
      var s' := Step(cfg, s, e);
      assert ProcDated(cfg, s.day, At(s, e.pid));
      hide ProcDated;
      MoverStaysDated(cfg, s, e);
    }
  }

  /** If no day passes while a snapshot is being fetched, every stored snapshot was observed on the
      day it is filed under. */
  lemma {:induction false} SnapshotsAreFiledUnderTheirDay(cfg: Config, s: State, events: seq<Event>)
    requires Dated(cfg, s) && CalmClock(cfg, s, events)
    ensures Dated(cfg, Run(cfg, s, events))
    decreases |events|
  {
    if events != [] {
      StepKeepsDated(cfg, s, events[0]);
      SnapshotsAreFiledUnderTheirDay(cfg, Step(cfg, s, events[0]), events[1..]);
    }
  }

  // ---------- midnight between the guard and the answer ----------

  /** Nothing but the clock and other processes. */
  predicate Others(events: seq<Event>, pid: Pid) {
    forall i | 0 <= i < |events| :: events[i].Tick? || events[i].pid != pid
  }

  function DayAfter(day: string, events: seq<Event>): string
    decreases |events|
  {
    if events == [] then day else DayAfter(if events[0].Tick? then events[0].day else day, events[1..])
  }

  /** The answer meets what the cache asks of it before it stores a snapshot. */
  predicate Accepted(cfg: Config, req: Request, frame: Frame) {
    && CheckOutcome(cfg.reg, req.endpoint, Some(frame), true).Ok?
    && !RefusesLake(cfg.reg, req.endpoint, Some(Stamp(frame)))
  }

  function Advances(pid: Pid, n: nat): seq<Event> { seq(n, _ => Advance(pid)) }

  /** The answer, its check, its acceptance, every row, and the replacement of the file. */
  function Filling(pid: Pid, frame: Frame): seq<Event> {
    [Fetch(pid, Some(Some(frame)))] + Advances(pid, |frame.rows| + 3)
  }

  lemma {:induction false} OthersLeaveItAlone(cfg: Config, s: State, events: seq<Event>, pid: Pid)
    requires Inv(cfg, s) && Others(events, pid)
    ensures Inv(cfg, Run(cfg, s, events)) && At(Run(cfg, s, events), pid) == At(s, pid)
    ensures Run(cfg, s, events).day == DayAfter(s.day, events)
    decreases |events|
  {
    if events != [] {
      StepKeepsInv(cfg, s, events[0]);
      OthersKeepStill(cfg, s, events[0], pid);
      OthersLeaveItAlone(cfg, Step(cfg, s, events[0]), events[1..], pid);
    }
  }

  lemma {:induction false} RowsAreWritten(cfg: Config, s: State, pid: Pid, p: Proc, n: nat)
    requires At(s, pid) == p && p.Writing? && PartOf(p.temporary, p.frame) && |p.frame.rows| == |p.temporary.rows| + n
    ensures var t, q := Run(cfg, s, Advances(pid, n + 1)), PathOf(cfg, p.req);
            && t.lake == s.lake[q := p.frame]
            && t.origins == s.origins[q := Origins(p.req.today, p.on)]
    decreases n
  {
    var s' := Step(cfg, s, Advance(pid));
    assert Advances(pid, n + 1)[0] == Advance(pid) && Advances(pid, n + 1)[1..] == Advances(pid, n);
    if n == 0 {
      assert p.temporary == p.frame;
      assert Run(cfg, s', Advances(pid, 0)) == s';
    } else {
      var k := |p.temporary.rows|;
      var p' := p.(temporary := p.temporary.(rows := p.temporary.rows + [p.frame.rows[k]]));
      assert p.frame.rows[..k + 1] == p.frame.rows[..k] + [p.frame.rows[k]];
      assert At(s', pid) == p';
      RowsAreWritten(cfg, s', pid, p', n - 1);
    }
  }

  lemma AnswerIsStored(cfg: Config, s: State, pid: Pid, req: Request, frame: Frame)
    requires At(s, pid) == Fetching(req) && Snapshot(cfg, req) && Accepted(cfg, req, frame)
    ensures var t, q := Run(cfg, s, Filling(pid, frame)), PathOf(cfg, req);
            && t.lake == s.lake[q := Stamp(frame)]
            && t.origins == s.origins[q := Origins(req.today, s.day)]
  {
    var n, f := |frame.rows|, Stamp(frame);
    var s1 := Step(cfg, s, Fetch(pid, Some(Some(frame))));
    var s2 := Step(cfg, s1, Advance(pid));
    var s3 := Step(cfg, s2, Advance(pid));
    assert At(s1, pid) == Fetched(req, frame, s.day);
    assert At(s2, pid) == Checked(req, f, s.day);
    assert At(s3, pid) == Writing(req, f, s.day, Frame(f.cols, []));
    assert Filling(pid, frame)[1..] == Advances(pid, n + 3);
    AdvanceFirst(cfg, s1, pid, n + 2);
    AdvanceFirst(cfg, s2, pid, n + 1);
    RowsAreWritten(cfg, s3, pid, At(s3, pid), n);
  }

  lemma AdvanceFirst(cfg: Config, s: State, pid: Pid, n: nat)
    ensures Run(cfg, s, Advances(pid, n + 1)) == Run(cfg, Step(cfg, s, Advance(pid)), Advances(pid, n))
  {
    assert Advances(pid, n + 1)[1..] == Advances(pid, n);
  }

  /** A call that has the lock and passes the guard, while other processes move and the clock goes on, stores
      an accepted answer under its own day; the observation is of the day the clock then shows. So the file
      is dated wrongly if and only if the clock has moved to another day since the guard. */
  lemma MidnightBetweenGuardAndFetch(cfg: Config, s: State, pid: Pid, req: Request, between: seq<Event>, frame: Frame)
    requires Inv(cfg, s) && At(s, pid) == Locked(req) && PathOf(cfg, req) !in s.lake
    requires Snapshot(cfg, req) && req.today == s.day
    requires Others(between, pid) && Accepted(cfg, req, frame)
    ensures var q := PathOf(cfg, req);
            var fetching := Run(cfg, Step(cfg, s, Advance(pid)), between);
            var t := Run(cfg, fetching, Filling(pid, frame));
            && q !in fetching.lake
            && q in t.lake && t.lake[q] == Stamp(frame) && q in t.origins
            && (Misdated(t.origins[q]) <==> DayAfter(s.day, between) != s.day)
  {
    var guarded := Step(cfg, s, Advance(pid));
    assert At(guarded, pid) == Fetching(req) && guarded.day == s.day;
    StepKeepsInv(cfg, s, Advance(pid));
    OthersLeaveItAlone(cfg, guarded, between, pid);
    var fetching := Run(cfg, guarded, between);
    assert ProcOk(cfg, fetching.lake, fetching.locks, pid, At(fetching, pid));
    AnswerIsStored(cfg, fetching, pid, req, frame);
  }

  // ---------- one night ----------

  const LISTING := "csindex_rebalance_list"
  const LISTING_COLUMNS := {"ann_id", "title", "publish_date"}

  /** The index rebalance listing: a snapshot whose contract refuses violating frames the lake. */
  ghost function OneNight(): Config {
    Config(endpoint => if endpoint == LISTING then Policy(AsOf, false, true) else Policy(NoKey, false, false),
           Registry(map[LISTING := Contract(Degrading, LISTING_COLUMNS, 1, false, false)], true))
  }

  /** A request of New Year's Eve passes the guard, the clock strikes twelve, and the source answers with a
      listing that meets its contract: it is stored, and read from then on, as the listing of the old year. */
  lemma NewYearsListingIsFiledUnderTheOldYear() returns (cfg: Config, before: State, events: seq<Event>, req: Request)
    ensures Quiet(before) && before.lake == map[] && before.day == req.today == "20261231"
    ensures LISTING in cfg.reg.contracts && !cfg.reg.contracts[LISTING].persistViolations
    ensures var t, q := Run(cfg, before, events), PathOf(cfg, req);
            && Snapshot(cfg, req) && q in t.lake && t.lake[q].rows != [] && Meets(cfg.reg, LISTING, t.lake[q])
            && q in t.origins && t.origins[q] == Origins("20261231", "20270101")
  {
    cfg := OneNight();
    req := Request(LISTING, map[], "20261231", false);
    before := State(map[], map[], map[], "20261231", map[]);
    var frame := Frame(LISTING_COLUMNS, ["announcement"]);
    var start := [Start(0, req), Advance(0), Advance(0), Advance(0)];
    var rest := [Advance(0), Tick("20270101")] + Filling(0, frame);
    events := start + rest;
    NoViolationsMeansMet(cfg.reg, LISTING, frame);
    NoViolationsMeansMet(cfg.reg, LISTING, Stamp(frame));
    GuardIsReached(cfg, before, req);
    RunConcat(cfg, before, start, rest);
    TheClockStrikes(cfg, Run(cfg, before, start), 0, req, frame, "20270101");
  }

  lemma TheClockStrikes(cfg: Config, s: State, pid: Pid, req: Request, frame: Frame, next: string)
    requires At(s, pid) == Locked(req) && PathOf(cfg, req) !in s.lake
    requires Snapshot(cfg, req) && req.today == s.day && Accepted(cfg, req, frame)
    ensures var t, q := Run(cfg, s, [Advance(pid), Tick(next)] + Filling(pid, frame)), PathOf(cfg, req);
            t.lake == s.lake[q := Stamp(frame)] && t.origins == s.origins[q := Origins(req.today, next)]
  {
    var events := [Advance(pid), Tick(next)] + Filling(pid, frame);
    var guarded := Step(cfg, s, Advance(pid));
    assert At(guarded, pid) == Fetching(req);
    assert events[1..][0] == Tick(next) && events[1..][1..] == Filling(pid, frame);
    AnswerIsStored(cfg, Step(cfg, guarded, Tick(next)), pid, req, frame);
  }

  lemma RunTwo(cfg: Config, s: State, a: Event, b: Event)
    ensures Run(cfg, s, [a, b]) == Step(cfg, Step(cfg, s, a), b)
  {
    assert [a, b][1..] == [b] && [b][1..] == [];
    assert Run(cfg, Step(cfg, s, a), [b]) == Run(cfg, Step(cfg, Step(cfg, s, a), b), []);
  }

  lemma RunFour(cfg: Config, s: State, a: Event, b: Event, c: Event, d: Event)
    ensures Run(cfg, s, [a, b, c, d]) == Step(cfg, Step(cfg, Step(cfg, Step(cfg, s, a), b), c), d)
  {
    assert [a, b, c, d] == [a, b] + [c, d];
    RunConcat(cfg, s, [a, b], [c, d]);
    RunTwo(cfg, s, a, b);
    RunTwo(cfg, Run(cfg, s, [a, b]), c, d);
  }

  lemma GuardIsReached(cfg: Config, s: State, req: Request)
    requires Quiet(s) && PathOf(cfg, req) !in s.lake && cfg.policy(req.endpoint) == Policy(AsOf, false, true)
    ensures Run(cfg, s, [Start(0, req), Advance(0), Advance(0), Advance(0)])
         == s.(procs := map[0 := Locked(req)], locks := map[PathOf(cfg, req) := 0])
  {
    hide PathOf;
    var s1, s2 := s.(procs := map[0 := Probing(req)]), s.(procs := map[0 := Missed(req)]);
    var s3 := s.(procs := map[0 := Waiting(req)]);
    RunFour(cfg, s, Start(0, req), Advance(0), Advance(0), Advance(0));
    assert Step(cfg, s, Start(0, req)) == s1;
    assert Step(cfg, s1, Advance(0)) == s2;
    assert Step(cfg, s2, Advance(0)) == s3;
  }

  lemma {:induction false} RunConcat(cfg: Config, s: State, a: seq<Event>, b: seq<Event>)
    ensures Run(cfg, s, a + b) == Run(cfg, Run(cfg, s, a), b)
    decreases |a|
  {
    if a == [] {
      assert a + b == b;
    } else {
      assert (a + b)[1..] == a[1..] + b;
      RunConcat(cfg, Step(cfg, s, a[0]), a[1..], b);
    }
  }
}
