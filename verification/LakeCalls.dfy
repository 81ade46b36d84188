/** One call of `get_or_fetch` that nobody gets in the way of (autoresearch/data/cache.py): the steps of the process
    together do what the function says, answer by answer. */
module LakeCalls {
  import opened Wrappers
  import opened DataContracts
  import opened LakeCache
  import opened LakeCacheRuns
  import opened LakeAnswers

  // ---------- what a call answers and stores ----------

  /** An answer through the contract of its endpoint: the blocking tier raises where it is broken. */
  function Through(reg: Registry, endpoint: string, df: Option<Frame>, cols: bool, access: Access): Outcome {
    if Breaks(reg, endpoint, df, cols) && reg.contracts[endpoint].tier == Blocking then Raised(ContractViolated)
    else Returned(df, access)
  }

  /** A snapshot says since when and on what basis it is known. */
  function Observed(snapshot: bool, raw: Frame): Frame {
    if snapshot then Frame(raw.cols + {"first_seen_ts", "first_seen_basis"}, raw.rows) else raw
  }

  /** What is answered once nothing is in the lake and the lock is taken, and whether it is stored: never where the
      source raised, the blocking tier did, or a broken contract keeps the frame out. */
  function Fetched(cfg: Config, req: Request, answer: Option<Option<Frame>>): (Outcome, bool) {
    var policy, reg := cfg.policy(req.endpoint), cfg.reg;
    if answer.None? then (Raised(FetchFailed), false)
    else
      var raw := if answer.value.None? then Frame({}, []) else answer.value.value;
      var frame := Observed(policy.snapshot, raw);
      if Breaks(reg, req.endpoint, Some(raw), true) && reg.contracts[req.endpoint].tier == Blocking
      then (Raised(ContractViolated), false)
      else if Breaks(reg, req.endpoint, Some(frame), true) && !reg.contracts[req.endpoint].persistViolations
      then (Returned(Some(frame), FetchedRefused), false)
      else (Returned(Some(frame), FetchedCached), true)
  }

  /** The outcome of a call, and whether its frame is stored. */
  ghost function GetOrFetch(cfg: Config, lake: map<Path, Frame>, day: string, req: Request,
                            answer: Option<Option<Frame>>): (Outcome, bool)
  {
    var policy, path := cfg.policy(req.endpoint), PathOf(cfg, req);
    if policy.live then
      (if answer.None? then Raised(FetchFailed) else Returned(answer.value, FetchedLive), false)
    else if path in lake then (Through(cfg.reg, req.endpoint, Some(lake[path]), true, CacheHit), false)
    else if policy.kind == ByDate && !Settled(req) then
      (if answer.None? then Raised(FetchFailed)
       else Through(cfg.reg, req.endpoint, answer.value, false, FetchedUnsettled), false)
    else if policy.snapshot && req.today != day then (Raised(SnapshotDate), false)
    else Fetched(cfg, req, answer)
  }

  function Advances(pid: Pid, n: nat): seq<Event> { if n == 0 then [] else [Advance(pid)] + Advances(pid, n - 1) }

  /** The events of one call: up to the fetch, the fetch, and on to the last row written. */
  function CallOf(pid: Pid, req: Request, answer: Option<Option<Frame>>): seq<Event> {
    var rows := if answer.Some? && answer.value.Some? then |answer.value.value.rows| else 0;
    [Start(pid, req)] + Advances(pid, 4) + [LakeCache.Fetch(pid, answer)] + Advances(pid, 3 + rows)
  }

  // ---------- runs ----------

  lemma {:induction false} RunConcat(cfg: Config, s: State, a: seq<Event>, b: seq<Event>)
    ensures Run(cfg, s, a + b) == Run(cfg, Run(cfg, s, a), b)
    decreases |a|
  {
    if a == [] {
      assert a + b == b;
    } else {
      assert (a + b)[0] == a[0] && (a + b)[1..] == a[1..] + b;
      RunConcat(cfg, Step(cfg, s, a[0]), a[1..], b);
    }
  }

  /** The n-th state of a process that goes on by itself. */
  function After(cfg: Config, s: State, pid: Pid, n: nat): State
    decreases n
  {
    if n == 0 then s else After(cfg, Apply(s, pid, NextMove(cfg, s, At(s, pid))), pid, n - 1)
  }

  lemma {:induction false} AdvancesAreSteps(cfg: Config, s: State, pid: Pid, n: nat)
    ensures Run(cfg, s, Advances(pid, n)) == After(cfg, s, pid, n)
    decreases n
  {
    if n > 0 {
      assert Advances(pid, n)[1..] == Advances(pid, n - 1);
      AdvancesAreSteps(cfg, Apply(s, pid, NextMove(cfg, s, At(s, pid))), pid, n - 1);
    }
  }

  lemma {:induction false} Rests(cfg: Config, s: State, pid: Pid, n: nat)
    requires NextMove(cfg, s, At(s, pid)).Stay?
    ensures After(cfg, s, pid, n) == s
    decreases n
  {
    if n > 0 {
      Rests(cfg, s, pid, n - 1);
    }
  }

  /** The process stands there, with these locks, this lake and the old day. */
  predicate Stands(s: State, t: State, pid: Pid, p: Proc, locks: map<Path, Pid>, lake: map<Path, Frame>) {
    At(t, pid) == p && t.locks == locks && t.lake == lake && t.day == s.day
  }

  /** One more step of the process, by the move it makes. */
  lemma Goes(cfg: Config, s: State, t: State, pid: Pid, p: Proc, locks: map<Path, Pid>, lake: map<Path, Frame>)
    requires Stands(s, t, pid, p, locks, lake)
    ensures var next := Apply(t, pid, NextMove(cfg, t, p));
            match NextMove(cfg, t, p)
            case Stay => next == t
            case GoOn(q) => Stands(s, next, pid, q, locks, lake)
            case Take(q, path) => Stands(s, next, pid, q, locks[path := pid], lake)
            case Leave(q, path) => Stands(s, next, pid, q, locks - {path}, lake)
            case Publish(q, path, frame, _) => Stands(s, next, pid, q, locks - {path}, lake[path := frame])
  {
    hide NextMove;
  }

  lemma OutcomeThrough(reg: Registry, endpoint: string, df: Option<Frame>, cols: bool, access: Access)
    ensures Delivered(reg, endpoint, df, cols, access) == Through(reg, endpoint, df, cols, access)
  {
    ViolationsMeanBroken(reg, endpoint, df, cols);
  }

  /** A process that stays where it is after its first moves. */
  lemma OneMore(cfg: Config, s: State, pid: Pid, n: nat)
    requires n > 0
    ensures After(cfg, s, pid, n) == After(cfg, Apply(s, pid, NextMove(cfg, s, At(s, pid))), pid, n - 1)
  {
  }

  lemma FirstMoves(cfg: Config, s: State, t: State, pid: Pid, req: Request)
    requires Stands(s, t, pid, Probing(req), s.locks, s.lake)
    requires cfg.policy(req.endpoint).live || PathOf(cfg, req) in s.lake
    ensures Stands(s, After(cfg, t, pid, 4), pid,
                   if cfg.policy(req.endpoint).live then FetchingLive(req) else Done(req, ReadHit(cfg, s, req)),
                   s.locks, s.lake)
  {
    hide PathOf, Delivered, Apply, At;
    Goes(cfg, s, t, pid, Probing(req), s.locks, s.lake);
    var t1 := Apply(t, pid, NextMove(cfg, t, Probing(req)));
    OneMore(cfg, t, pid, 4);
    if cfg.policy(req.endpoint).live {
      Rests(cfg, t1, pid, 3);
    } else {
      Goes(cfg, s, t1, pid, Hit(req), s.locks, s.lake);
      OneMore(cfg, t1, pid, 3);
      Rests(cfg, Apply(t1, pid, NextMove(cfg, t1, Hit(req))), pid, 2);
    }
  }

  lemma MovesOfAMiss(cfg: Config, s: State, t: State, pid: Pid, req: Request)
    requires Stands(s, t, pid, Probing(req), s.locks, s.lake) && PathOf(cfg, req) !in s.locks
    requires !cfg.policy(req.endpoint).live && PathOf(cfg, req) !in s.lake
    ensures var t4, policy := After(cfg, t, pid, 4), cfg.policy(req.endpoint);
            if Unsettled(policy, req) then Stands(s, t4, pid, FetchingUnsettled(req), s.locks, s.lake)
            else if policy.snapshot && req.today != s.day then
              Stands(s, t4, pid, Done(req, Raised(SnapshotDate)), s.locks, s.lake)
            else Stands(s, t4, pid, Fetching(req), s.locks[PathOf(cfg, req) := pid], s.lake)
  {
    hide PathOf, Unsettled, Apply, At;
    var path, policy := PathOf(cfg, req), cfg.policy(req.endpoint);
    Goes(cfg, s, t, pid, Probing(req), s.locks, s.lake);
    var t1 := Apply(t, pid, NextMove(cfg, t, Probing(req)));
    OneMore(cfg, t, pid, 4);
    Goes(cfg, s, t1, pid, Missed(req), s.locks, s.lake);
    var t2 := Apply(t1, pid, NextMove(cfg, t1, Missed(req)));
    OneMore(cfg, t1, pid, 3);
    if Unsettled(policy, req) {
      Rests(cfg, t2, pid, 2);
    } else {
      Goes(cfg, s, t2, pid, Waiting(req), s.locks, s.lake);
      var t3 := Apply(t2, pid, NextMove(cfg, t2, Waiting(req)));
      OneMore(cfg, t2, pid, 2);
      Goes(cfg, s, t3, pid, Locked(req), s.locks[path := pid], s.lake);
      OneMore(cfg, t3, pid, 1);
      assert s.locks[path := pid] - {path} == s.locks;
    }
  }

  /** Up to the fetch, a call has answered from the lake, refused a snapshot of another day, or is about to ask. */
  lemma UpToTheFetch(cfg: Config, s: State, pid: Pid, req: Request)
    requires PathOf(cfg, req) !in s.locks && (At(s, pid).Idle? || At(s, pid).Done?)
    ensures var t := After(cfg, Step(cfg, s, Start(pid, req)), pid, 4);
            var policy, path := cfg.policy(req.endpoint), PathOf(cfg, req);
            if policy.live then Stands(s, t, pid, FetchingLive(req), s.locks, s.lake)
            else if path in s.lake then
              Stands(s, t, pid, Done(req, Through(cfg.reg, req.endpoint, Some(s.lake[path]), true, CacheHit)),
                     s.locks, s.lake)
            else if policy.kind == ByDate && !Settled(req) then
              Stands(s, t, pid, FetchingUnsettled(req), s.locks, s.lake)
            else if policy.snapshot && req.today != s.day then
              Stands(s, t, pid, Done(req, Raised(SnapshotDate)), s.locks, s.lake)
            else Stands(s, t, pid, Fetching(req), s.locks[path := pid], s.lake)
  {
    hide PathOf, NextMove, Delivered, Through, Unsettled, Settled, Apply, At, Step, After;
    var path, policy := PathOf(cfg, req), cfg.policy(req.endpoint);
    var t := Started(cfg, s, pid, req);
    if policy.live || path in s.lake {
      FirstMoves(cfg, s, t, pid, req);
      if path in s.lake {
        OutcomeThrough(cfg.reg, req.endpoint, Some(s.lake[path]), true, CacheHit);
      }
    } else {
      MovesOfAMiss(cfg, s, t, pid, req);
      if policy.kind == ByDate {
        UnsettledIsNotSettled(policy, req);
      } else {
        OnlyDaysAreUnsettled(policy, req);
      }
    }
  }

  lemma OnlyDaysAreUnsettled(policy: Policy, req: Request)
    ensures Unsettled(policy, req) ==> policy.kind == ByDate
  {
  }

  lemma Started(cfg: Config, s: State, pid: Pid, req: Request) returns (t: State)
    requires At(s, pid).Idle? || At(s, pid).Done?
    ensures t == Step(cfg, s, Start(pid, req)) && Stands(s, t, pid, Probing(req), s.locks, s.lake)
  {
    t := Step(cfg, s, Start(pid, req));
  }

  // ---------- from the fetch on ----------

  lemma Asks(cfg: Config, s: State, t: State, pid: Pid, p: Proc, answer: Option<Option<Frame>>,
             locks: map<Path, Pid>, lake: map<Path, Frame>)
    requires Stands(s, t, pid, p, locks, lake)
    ensures var next := Step(cfg, t, LakeCache.Fetch(pid, answer));
            match FetchMove(cfg, t.day, p, answer)
            case Stay => next == t
            case GoOn(q) => Stands(s, next, pid, q, locks, lake)
            case Leave(q, path) => Stands(s, next, pid, q, locks - {path}, lake)
            case _ => true
  {
    hide FetchMove;
  }

  /** Row by row into the temporary file, and then the whole of it in place. */
  lemma {:induction false} Writes(cfg: Config, s: State, t: State, pid: Pid, p: Proc, k: nat,
                                  locks: map<Path, Pid>, lake: map<Path, Frame>)
    requires p.Writing? && k <= |p.frame.rows| && p.temporary == Frame(p.frame.cols, p.frame.rows[..k])
    requires Stands(s, t, pid, p, locks, lake)
    ensures var path := PathOf(cfg, p.req);
            Stands(s, After(cfg, t, pid, |p.frame.rows| - k + 1), pid,
                   Done(p.req, Returned(Some(p.frame), FetchedCached)), locks - {path}, lake[path := p.frame])
    decreases |p.frame.rows| - k
  {
    hide PathOf, Apply, At;
    Goes(cfg, s, t, pid, p, locks, lake);
    var next := Apply(t, pid, NextMove(cfg, t, p));
    OneMore(cfg, t, pid, |p.frame.rows| - k + 1);
    if k < |p.frame.rows| {
      assert p.frame.rows[..k] + [p.frame.rows[k]] == p.frame.rows[..k + 1];
      Writes(cfg, s, next, pid, NextMove(cfg, t, p).next, k + 1, locks, lake);
    } else {
      assert p.temporary == p.frame;
    }
  }

  /** A frame in order for the caller is kept out of the lake, or written. */
  lemma CheckedGoes(cfg: Config, s: State, t: State, pid: Pid, req: Request, frame: Frame, on: string,
                    locks: map<Path, Pid>)
    requires Stands(s, t, pid, Checked(req, frame, on), locks, s.lake)
    ensures var refused := RefusesLake(cfg.reg, req.endpoint, Some(frame));
            var path := PathOf(cfg, req);
            Stands(s, After(cfg, t, pid, 2 + |frame.rows|), pid,
                   Done(req, Returned(Some(frame), if refused then FetchedRefused else FetchedCached)),
                   locks - {path}, if refused then s.lake else s.lake[path := frame])
  {
    hide PathOf, Apply, At, RefusesLake;
    var n := |frame.rows|;
    var p := Checked(req, frame, on);
    Goes(cfg, s, t, pid, p, locks, s.lake);
    var next := Apply(t, pid, NextMove(cfg, t, p));
    OneMore(cfg, t, pid, 2 + n);
    if RefusesLake(cfg.reg, req.endpoint, Some(frame)) {
      Rests(cfg, next, pid, 1 + n);
    } else {
      Writes(cfg, s, next, pid, Writing(req, frame, on, Frame(frame.cols, [])), 0, locks, s.lake);
    }
  }

  /** The frame that came is checked, stamped, checked again and written. */
  lemma AnswerGoes(cfg: Config, s: State, t: State, pid: Pid, req: Request, raw: Frame, on: string,
                   locks: map<Path, Pid>)
    requires Stands(s, t, pid, LakeCache.Fetched(req, raw, on), locks, s.lake)
    ensures var (outcome, stored) := Fetched(cfg, req, Some(Some(raw)));
            var path := PathOf(cfg, req);
            && (stored ==> outcome.Returned? && outcome.frame.Some?)
            && Stands(s, After(cfg, t, pid, 3 + |raw.rows|), pid, Done(req, outcome), locks - {path},
                      if stored then s.lake[path := outcome.frame.value] else s.lake)
  {
    hide PathOf, Apply, At, Breaks, Violations, After;
    var reg, n := cfg.reg, |raw.rows|;
    var frame := Observed(cfg.policy(req.endpoint).snapshot, raw);
    ViolationsMeanBroken(reg, req.endpoint, Some(raw), true);
    ViolationsMeanBroken(reg, req.endpoint, Some(frame), true);
    BrokenIsRegistered(reg, req.endpoint, Some(raw), true);
    BrokenIsRegistered(reg, req.endpoint, Some(frame), true);
    var p := LakeCache.Fetched(req, raw, on);
    Goes(cfg, s, t, pid, p, locks, s.lake);
    var next := Apply(t, pid, NextMove(cfg, t, p));
    OneMore(cfg, t, pid, 3 + n);
    if CheckOutcome(reg, req.endpoint, Some(raw), true).Err? {
      Rests(cfg, next, pid, 2 + n);
    } else {
      CheckedGoes(cfg, s, next, pid, req, frame, on, locks);
    }
  }

  lemma BrokenIsRegistered(reg: Registry, endpoint: string, df: Option<Frame>, cols: bool)
    ensures Breaks(reg, endpoint, df, cols) ==> endpoint in reg.contracts
  {
  }

  lemma FromTheFetch(cfg: Config, s: State, t: State, pid: Pid, req: Request, answer: Option<Option<Frame>>, n: nat)
    requires PathOf(cfg, req) !in s.locks
    requires Stands(s, t, pid, Fetching(req), s.locks[PathOf(cfg, req) := pid], s.lake)
    requires n == if answer.Some? && answer.value.Some? then |answer.value.value.rows| else 0
    ensures var (outcome, stored) := Fetched(cfg, req, answer);
            && (stored ==> outcome.Returned? && outcome.frame.Some?)
            && Stands(s, After(cfg, Step(cfg, t, LakeCache.Fetch(pid, answer)), pid, 3 + n), pid, Done(req, outcome),
                      s.locks, if stored then s.lake[PathOf(cfg, req) := outcome.frame.value] else s.lake)
  {
    hide PathOf, Apply, Step, At, Breaks, Violations, RefusesLake, CheckOutcome;
    var path := PathOf(cfg, req);
    var locks := s.locks[path := pid];
    assert locks - {path} == s.locks;
    Asks(cfg, s, t, pid, Fetching(req), answer, locks, s.lake);
    var next := Step(cfg, t, LakeCache.Fetch(pid, answer));
    if answer.None? {
      Rests(cfg, next, pid, 3 + n);
    } else {
      AnswerGoes(cfg, s, next, pid, req, if answer.value.None? then EMPTY_FRAME else answer.value.value, t.day, locks);
    }
  }

  // ---------- the whole call ----------

  /** A call nobody gets in the way of, with the source answering once: it ends, without the lock, with the outcome the
      function says, and the lake has that frame under the path of the request exactly where the function says so. */
  lemma OneCall(cfg: Config, s: State, pid: Pid, req: Request, answer: Option<Option<Frame>>)
    requires PathOf(cfg, req) !in s.locks && (At(s, pid).Idle? || At(s, pid).Done?)
    ensures var t := Run(cfg, s, CallOf(pid, req, answer));
            var (outcome, stored) := GetOrFetch(cfg, s.lake, s.day, req, answer);
            && (stored ==> outcome.Returned? && outcome.frame.Some?)
            && At(t, pid) == Done(req, outcome) && t.locks == s.locks
            && t.lake == if stored then s.lake[PathOf(cfg, req) := outcome.frame.value] else s.lake
  {
    hide PathOf, Apply, At, Step, Settled, Through, Fetched, NextMove, After, Delivered, CallOf;
    var n := if answer.Some? && answer.value.Some? then |answer.value.value.rows| else 0;
    var t1, t4, t5 := CallGoes(cfg, s, pid, req, answer, n);
    UpToTheFetch(cfg, s, pid, req);
    var policy, path := cfg.policy(req.endpoint), PathOf(cfg, req);
    if policy.live || path in s.lake || (policy.kind == ByDate && !Settled(req))
       || (policy.snapshot && req.today != s.day) {
      CallEndsAtTheFetch(cfg, s, t4, pid, req, answer, n);
    } else {
      FromTheFetch(cfg, s, t4, pid, req, answer, n);
    }
  }

  lemma CallEndsAtTheFetch(cfg: Config, s: State, t: State, pid: Pid, req: Request, answer: Option<Option<Frame>>,
                           n: nat)
    requires var policy, path := cfg.policy(req.endpoint), PathOf(cfg, req);
             if policy.live then Stands(s, t, pid, FetchingLive(req), s.locks, s.lake)
             else if path in s.lake then
               Stands(s, t, pid, Done(req, Through(cfg.reg, req.endpoint, Some(s.lake[path]), true, CacheHit)),
                      s.locks, s.lake)
             else if policy.kind == ByDate && !Settled(req) then
               Stands(s, t, pid, FetchingUnsettled(req), s.locks, s.lake)
             else
               && policy.snapshot && req.today != s.day
               && Stands(s, t, pid, Done(req, Raised(SnapshotDate)), s.locks, s.lake)
    ensures var (outcome, stored) := GetOrFetch(cfg, s.lake, s.day, req, answer);
            && !stored
            && Stands(s, After(cfg, Step(cfg, t, LakeCache.Fetch(pid, answer)), pid, 3 + n), pid, Done(req, outcome),
                      s.locks, s.lake)
  {
    hide PathOf, Apply, At, Step, Settled, Through, Fetched, NextMove, After, Delivered, CheckOutcome, Violations;
    EndsAtTheFetch(cfg, s, t, pid, At(t, pid), answer, n);
    if answer.Some? {
      OutcomeThrough(cfg.reg, req.endpoint, answer.value, false, FetchedUnsettled);
    }
  }

  /** Where the fetch is the last thing a call does, or comes when it is done. */
  lemma EndsAtTheFetch(cfg: Config, s: State, t: State, pid: Pid, p: Proc, answer: Option<Option<Frame>>, n: nat)
    requires Stands(s, t, pid, p, s.locks, s.lake)
    requires p.FetchingLive? || p.FetchingUnsettled? || p.Done?
    ensures var u := After(cfg, Step(cfg, t, LakeCache.Fetch(pid, answer)), pid, 3 + n);
            Stands(s, u, pid, if p.Done? then p else FetchMove(cfg, t.day, p, answer).next, s.locks, s.lake)
  {
    hide Apply, At, Step, Delivered;
    Asks(cfg, s, t, pid, p, answer, s.locks, s.lake);
    Rests(cfg, Step(cfg, t, LakeCache.Fetch(pid, answer)), pid, 3 + n);
  }

  lemma CallGoes(cfg: Config, s: State, pid: Pid, req: Request, answer: Option<Option<Frame>>, n: nat)
    returns (t1: State, t4: State, t5: State)
    requires n == if answer.Some? && answer.value.Some? then |answer.value.value.rows| else 0
    ensures t1 == Step(cfg, s, Start(pid, req)) && t4 == After(cfg, t1, pid, 4)
    ensures t5 == Step(cfg, t4, LakeCache.Fetch(pid, answer))
    ensures Run(cfg, s, CallOf(pid, req, answer)) == After(cfg, t5, pid, 3 + n)
  {
    hide Step, After, Advances;
    t1 := Step(cfg, s, Start(pid, req));
    t4 := After(cfg, t1, pid, 4);
    t5 := Step(cfg, t4, LakeCache.Fetch(pid, answer));
    var start, fetch := [Start(pid, req)], [LakeCache.Fetch(pid, answer)];
    AdvancesAreSteps(cfg, t1, pid, 4);
    AdvancesAreSteps(cfg, t5, pid, 3 + n);
    OneEvent(cfg, s, start[0]);
    OneEvent(cfg, t4, fetch[0]);
    RunConcat(cfg, s, start, Advances(pid, 4));
    RunConcat(cfg, s, start + Advances(pid, 4), fetch);
    RunConcat(cfg, s, start + Advances(pid, 4) + fetch, Advances(pid, 3 + n));
  }

  lemma OneEvent(cfg: Config, s: State, e: Event)
    ensures Run(cfg, s, [e]) == Step(cfg, s, e)
  {
    assert [e][1..] == [];
  }

  // ---------- calls that fail ----------

  /** A write that fails raises; a crash forgets the call. Neither touches the lake, and both free exactly the locks
      the process had. */
  lemma FailuresOnlyFreeTheLock(cfg: Config, s: State, pid: Pid)
    requires Inv(cfg, s)
    ensures var t := Step(cfg, s, Crash(pid));
            && At(t, pid) == Idle && t.lake == s.lake
            && t.locks == map q | q in s.locks && s.locks[q] != pid :: s.locks[q]
    ensures At(s, pid).Writing? ==>
              var t := Step(cfg, s, WriteError(pid));
              && At(t, pid) == Done(At(s, pid).req, Raised(WriteFailed)) && t.lake == s.lake
              && t.locks == map q | q in s.locks && s.locks[q] != pid :: s.locks[q]
  {
    hide PathOf, Blocks, Storable, PartOf, OutcomeOk, Violations;
    var p := At(s, pid);
    forall q | q in s.locks ensures s.locks[q] == pid <==> Holding(p) && q == PathOf(cfg, p.req) {
      if s.locks[q] == pid {
        assert Holding(s.procs[pid]) && PathOf(cfg, s.procs[pid].req) == q;
      }
      if Holding(p) {
        assert ProcOk(cfg, s.lake, s.locks, pid, p);
      }
    }
  }
}
