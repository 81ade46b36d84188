/** The data lake cache: any number of processes calling `get_or_fetch` on a shared directory,
    step by step, with crashes (autoresearch/data/cache.py). */
module LakeCache {
  import opened Wrappers
  import opened Strings
  import opened DataContracts

  // ---------- keys ----------

  type Params = map<string, string>

  datatype KeyKind = NoKey | Static | ByDate | ByPeriod | AsOf

  datatype Policy = Policy(kind: KeyKind, live: bool, snapshot: bool)

  datatype Request = Request(endpoint: string, params: Params, today: string, assumeSettled: bool)

  /** One file of the lake. */
  datatype Path = Path(endpoint: string, key: string)

  const DATE_PARAMS := ["trade_date", "date", "ann_date", "cal_date", "nav_date"]
  const PERIOD_PARAMS := ["period", "date", "end_date"]
  const ENTITY_PARAMS := ["ts_code", "symbol", "code", "exchange_id", "exchange", "index_code", "ann_id"]
  const FIELDS := "fields"

  /** The first listed parameter that is present and not empty; empty when there is none. */
  function First(params: Params, keys: seq<string>): string {
    if keys == [] then ""
    else if keys[0] in params && params[keys[0]] != "" then params[keys[0]]
    else First(params, keys[1..])
  }

  function Without(s: string, c: char): string {
    if s == [] then [] else if s[0] == c then Without(s[1..], c) else [s[0]] + Without(s[1..], c)
  }

  function Compact(s: string): string { Without(s, '-') }

  function DotsToUnderscores(s: string): string {
    if s == [] then [] else [if s[0] == '.' then '_' else s[0]] + DotsToUnderscores(s[1..])
  }

  function OrElse(s: string, default: string): string { if s == "" then default else s }

  function CacheKey(policy: Policy, params: Params, today: string): string {
    match policy.kind
    case NoKey => "None"
    case Static => "static"
    case ByDate => OrElse(Compact(First(params, DATE_PARAMS)), "unkeyed")
    case ByPeriod => OrElse(Compact(First(params, PERIOD_PARAMS)), "unkeyed")
    case AsOf =>
      DotsToUnderscores(OrElse(First(params, ENTITY_PARAMS), "all")) + "@"
      + OrElse(Compact(if "as_of" in params then params["as_of"] else ""), today)
  }

  /** What is asked of the source when the answer is going to be stored: every column. */
  function LakeParams(params: Params): Params { map k | k in params && k != FIELDS :: params[k] }

  lemma {:induction false} FirstIgnoresFields(params: Params, keys: seq<string>)
    requires FIELDS !in keys
    ensures First(LakeParams(params), keys) == First(params, keys)
    decreases |keys|
  {
    if keys != [] {
      FirstIgnoresFields(params, keys[1..]);
    }
  }

  /** Requests that differ only in the columns they ask for share a file, and whichever of them
      fills it asks the source the same question. */
  lemma ColumnsDoNotMatter(policy: Policy, p: Params, q: Params, today: string)
    requires forall k | k != FIELDS :: (k in p <==> k in q) && (k in p ==> p[k] == q[k])
    ensures CacheKey(policy, p, today) == CacheKey(policy, q, today)
    ensures LakeParams(p) == LakeParams(q)
  {
    assert LakeParams(p) == LakeParams(q);
    FirstIgnoresFields(p, DATE_PARAMS);
    FirstIgnoresFields(q, DATE_PARAMS);
    FirstIgnoresFields(p, PERIOD_PARAMS);
    FirstIgnoresFields(q, PERIOD_PARAMS);
    FirstIgnoresFields(p, ENTITY_PARAMS);
    FirstIgnoresFields(q, ENTITY_PARAMS);
  }

  /** The requested trading day has not settled, so nothing may be stored for it. */
  predicate Unsettled(policy: Policy, req: Request) {
    var d := Compact(First(req.params, DATE_PARAMS));
    policy.kind.ByDate? && d != "" && !StringLess(d, req.today) && !(d == req.today && req.assumeSettled)
  }

  // ---------- processes ----------

  type Pid = nat

  datatype Access = FetchedLive | CacheHit | FetchedUnsettled | FetchedRefused | FetchedCached

  datatype Failure = FetchFailed | ContractViolated | SnapshotDate | WriteFailed | FileMissing

  datatype Outcome = Returned(frame: Option<Frame>, access: Access) | Raised(failure: Failure)

  /** Where a call stands. From `Locked` to `Writing` the process holds the lock of its path. */
  datatype Proc =
    | Idle
    | Probing(req: Request)
    | FetchingLive(req: Request)
    | Hit(req: Request)
    | Missed(req: Request)
    | FetchingUnsettled(req: Request)
    | Waiting(req: Request)
    | Locked(req: Request)
    | HitLocked(req: Request)
    | Fetching(req: Request)
    | Fetched(req: Request, raw: Frame, on: string)
    | Checked(req: Request, frame: Frame, on: string)
    | Writing(req: Request, frame: Frame, on: string, temporary: Frame)
    | Done(req: Request, outcome: Outcome)

  datatype Config = Config(policy: string -> Policy, reg: Registry)

  /** For a stored file: the `today` of the call that stored it and the day its content was observed. */
  datatype Origins = Origins(today: string, on: string)

  datatype State = State(
    lake: map<Path, Frame>,
    locks: map<Path, Pid>,
    procs: map<Pid, Proc>,
    day: string,
    origins: map<Path, Origins>)

  datatype Event =
    | Start(pid: Pid, req: Request)
    | Advance(pid: Pid)
    | Fetch(pid: Pid, answer: Option<Option<Frame>>)
    | WriteError(pid: Pid)
    | Crash(pid: Pid)
    | Tick(day: string)

  function PathOf(cfg: Config, req: Request): Path {
    Path(req.endpoint, CacheKey(cfg.policy(req.endpoint), req.params, req.today))
  }

  predicate Holding(p: Proc) {
    p.Locked? || p.HitLocked? || p.Fetching? || p.Fetched? || p.Checked? || p.Writing?
  }

  /** Past the probe under the lock: about to produce the file. */
  predicate Producing(p: Proc) {
    p.Fetching? || p.Fetched? || p.Checked? || p.Writing?
  }

  /** What one step of one process does: nothing, go on, take the lock, give it back, or replace the
      file and give the lock back. */
  datatype Move =
    | Stay
    | GoOn(next: Proc)
    | Take(next: Proc, path: Path)
    | Leave(next: Proc, path: Path)
    | Publish(next: Proc, path: Path, frame: Frame, origins: Origins)

  function Apply(s: State, pid: Pid, m: Move): State {
    match m
    case Stay => s
    case GoOn(p) => s.(procs := s.procs[pid := p])
    case Take(p, path) => s.(procs := s.procs[pid := p], locks := s.locks[path := pid])
    case Leave(p, path) => s.(procs := s.procs[pid := p], locks := s.locks - {path})
    case Publish(p, path, frame, origins) =>
      s.(procs := s.procs[pid := p], locks := s.locks - {path}, lake := s.lake[path := frame],
         origins := s.origins[path := origins])
  }

  function Delivered(reg: Registry, endpoint: string, df: Option<Frame>, cols: bool, access: Access): Outcome {
    if CheckOutcome(reg, endpoint, df, cols).Ok? then Returned(df, access) else Raised(ContractViolated)
  }

  function ReadHit(cfg: Config, s: State, req: Request): Outcome {
    var path := PathOf(cfg, req);
    if path in s.lake then Delivered(cfg.reg, req.endpoint, Some(s.lake[path]), true, CacheHit) else Raised(FileMissing)
  }

  /** The next step of one process; a process waiting for a held lock does not move. */
  function NextMove(cfg: Config, s: State, p: Proc): Move {
    match p
    case Probing(req) =>
      if cfg.policy(req.endpoint).live then GoOn(FetchingLive(req))
      else if PathOf(cfg, req) in s.lake then GoOn(Hit(req))
      else GoOn(Missed(req))
    case Hit(req) => GoOn(Done(req, ReadHit(cfg, s, req)))
    case Missed(req) =>
      if Unsettled(cfg.policy(req.endpoint), req) then GoOn(FetchingUnsettled(req)) else GoOn(Waiting(req))
    case Waiting(req) => if PathOf(cfg, req) in s.locks then Stay else Take(Locked(req), PathOf(cfg, req))
    case Locked(req) =>
      if PathOf(cfg, req) in s.lake then GoOn(HitLocked(req))
      else if cfg.policy(req.endpoint).snapshot && req.today != s.day then
        Leave(Done(req, Raised(SnapshotDate)), PathOf(cfg, req))
      else GoOn(Fetching(req))
    case HitLocked(req) => Leave(Done(req, ReadHit(cfg, s, req)), PathOf(cfg, req))
    case Fetched(req, raw, on) =>
      if CheckOutcome(cfg.reg, req.endpoint, Some(raw), true).Err? then
        Leave(Done(req, Raised(ContractViolated)), PathOf(cfg, req))
      else GoOn(Checked(req, if cfg.policy(req.endpoint).snapshot then Stamp(raw) else raw, on))
    case Checked(req, frame, on) =>
      if RefusesLake(cfg.reg, req.endpoint, Some(frame)) then
        Leave(Done(req, Returned(Some(frame), FetchedRefused)), PathOf(cfg, req))
      else GoOn(Writing(req, frame, on, Frame(frame.cols, [])))
    case Writing(req, frame, on, temporary) =>
      if |temporary.rows| < |frame.rows| then
        GoOn(Writing(req, frame, on, temporary.(rows := temporary.rows + [frame.rows[|temporary.rows|]])))
      else
        Publish(Done(req, Returned(Some(frame), FetchedCached)), PathOf(cfg, req), temporary, Origins(req.today, on))
    case _ => Stay
  }

  /** The source answers (`None`: it raised). */
  function FetchMove(cfg: Config, day: string, p: Proc, answer: Option<Option<Frame>>): Move {
    match p
    case FetchingLive(req) =>
      GoOn(Done(req, if answer.None? then Raised(FetchFailed) else Returned(answer.value, FetchedLive)))
    case FetchingUnsettled(req) =>
      GoOn(Done(req, if answer.None? then Raised(FetchFailed)
                     else Delivered(cfg.reg, req.endpoint, answer.value, false, FetchedUnsettled)))
    case Fetching(req) =>
      if answer.None? then Leave(Done(req, Raised(FetchFailed)), PathOf(cfg, req))
      else GoOn(Fetched(req, if answer.value.None? then EMPTY_FRAME else answer.value.value, day))
    case _ => Stay
  }

  function At(s: State, pid: Pid): Proc { if pid in s.procs then s.procs[pid] else Idle }

  function MoveOf(cfg: Config, s: State, e: Event): Move
    requires !e.Tick?
  {
    var p := At(s, e.pid);
    match e
    case Start(_, req) => if p.Idle? || p.Done? then GoOn(Probing(req)) else Stay
    case Advance(_) => NextMove(cfg, s, p)
    case Fetch(_, answer) => FetchMove(cfg, s.day, p, answer)
    case WriteError(_) => if p.Writing? then Leave(Done(p.req, Raised(WriteFailed)), PathOf(cfg, p.req)) else Stay
    case Crash(_) => if Holding(p) then Leave(Idle, PathOf(cfg, p.req)) else GoOn(Idle)
  }

  function Step(cfg: Config, s: State, e: Event): State {
    if e.Tick? then s.(day := e.day) else Apply(s, e.pid, MoveOf(cfg, s, e))
  }

  function Run(cfg: Config, s: State, events: seq<Event>): State
    decreases |events|
  {
    if events == [] then s else Run(cfg, Step(cfg, s, events[0]), events[1..])
  }

  /** A lake as found, and nobody in it. */
  predicate Quiet(s: State) {
    s.locks == map[] && s.procs == map[]
  }

  // ---------- the invariant ----------

  /** A process between `Locked` and `Writing` holds the lock of its path, and while it produces
      the file the file does not exist. */
  predicate ProcOk(cfg: Config, lake: map<Path, Frame>, locks: map<Path, Pid>, pid: Pid, p: Proc) {
    && (Holding(p) ==> PathOf(cfg, p.req) in locks && locks[PathOf(cfg, p.req)] == pid)
    && (Producing(p) ==> PathOf(cfg, p.req) !in lake)
    && (p.Hit? || p.HitLocked? ==> PathOf(cfg, p.req) in lake)
    && (p.Checked? && Blocks(cfg.reg, p.req.endpoint)
        ==> Violations(cfg.reg, p.req.endpoint, Some(p.frame), true) == [])
    && (p.Writing? ==> Storable(cfg.reg, p.req.endpoint, p.frame) && PartOf(p.temporary, p.frame))
    && (p.Done? ==> OutcomeOk(cfg, lake, p.req, p.outcome))
  }

  /** A temporary file holds the leading rows of the frame being written. */
  predicate PartOf(temporary: Frame, frame: Frame) {
    temporary.cols == frame.cols && temporary.rows <= frame.rows
  }

  /** What may be written: a frame of a blocking endpoint, or of one that does not persist
      violations, has none. */
  predicate Storable(reg: Registry, endpoint: string, f: Frame) {
    endpoint in reg.contracts && (Blocks(reg, endpoint) || !reg.contracts[endpoint].persistViolations) ==>
      Violations(reg, endpoint, Some(f), true) == []
  }

  /** A hit returns what the file holds, from then on for ever; what a settled read of a blocking
      endpoint returns meets its contract, and an unsettled one is at least not empty. */
  predicate OutcomeOk(cfg: Config, lake: map<Path, Frame>, req: Request, o: Outcome) {
    && (o.Returned? && (o.access.CacheHit? || o.access.FetchedCached?) ==>
          PathOf(cfg, req) in lake && o.frame == Some(lake[PathOf(cfg, req)]))
    && (o.Returned? && Blocks(cfg.reg, req.endpoint) && !o.access.FetchedLive? ==>
          Violations(cfg.reg, req.endpoint, o.frame, !o.access.FetchedUnsettled?) == [])
  }

  predicate LocksOk(cfg: Config, s: State) {
    forall path | path in s.locks ::
      && s.locks[path] in s.procs && Holding(s.procs[s.locks[path]])
      && PathOf(cfg, s.procs[s.locks[path]].req) == path
  }

  ghost predicate Inv(cfg: Config, s: State) {
    && LocksOk(cfg, s)
    && (forall pid | pid in s.procs :: ProcOk(cfg, s.lake, s.locks, pid, s.procs[pid]))
  }

  lemma QuietInv(cfg: Config, s: State)
    requires Quiet(s)
    ensures Inv(cfg, s)
  {
  }

  /** A move that keeps what its process owes to the others. */
  predicate MoveOk(cfg: Config, s: State, pid: Pid, m: Move) {
    var p := At(s, pid);
    match m
    case Stay => true
    case GoOn(next) =>
      && ProcOk(cfg, s.lake, s.locks, pid, next)
      && (Holding(p) ==> Holding(next) && PathOf(cfg, next.req) == PathOf(cfg, p.req))
    case Take(next, path) =>
      && !Holding(p) && path !in s.locks && next.Locked? && path == PathOf(cfg, next.req)
    case Leave(next, path) =>
      && Holding(p) && path == PathOf(cfg, p.req) && !Holding(next) && !next.Hit?
      && (next.Done? ==> OutcomeOk(cfg, s.lake, next.req, next.outcome))
    case Publish(next, path, frame, origins) =>
      && Holding(p) && path == PathOf(cfg, p.req) && path !in s.lake
      && next.Done? && OutcomeOk(cfg, s.lake[path := frame], next.req, next.outcome)
      && Storable(cfg.reg, path.endpoint, frame)
  }

  lemma OtherStaysOk(cfg: Config, s: State, pid: Pid, m: Move, other: Pid)
    requires Inv(cfg, s) && MoveOk(cfg, s, pid, m) && other != pid && other in s.procs
    ensures ProcOk(cfg, Apply(s, pid, m).lake, Apply(s, pid, m).locks, other, s.procs[other])
  {
    assert ProcOk(cfg, s.lake, s.locks, other, s.procs[other]);
    if pid in s.procs {
      assert ProcOk(cfg, s.lake, s.locks, pid, s.procs[pid]);
    }
  }

  lemma MoverStaysOk(cfg: Config, s: State, pid: Pid, m: Move)
    requires Inv(cfg, s) && MoveOk(cfg, s, pid, m)
    ensures var s' := Apply(s, pid, m); pid in s'.procs ==> ProcOk(cfg, s'.lake, s'.locks, pid, s'.procs[pid])
  {
    if pid in s.procs {
      assert ProcOk(cfg, s.lake, s.locks, pid, s.procs[pid]);
    }
  }

  lemma LocksStayOk(cfg: Config, s: State, pid: Pid, m: Move)
    requires Inv(cfg, s) && MoveOk(cfg, s, pid, m)
    ensures LocksOk(cfg, Apply(s, pid, m))
  {
    if pid in s.procs {
      assert ProcOk(cfg, s.lake, s.locks, pid, s.procs[pid]);
    }
  }

  lemma ApplyKeepsInv(cfg: Config, s: State, pid: Pid, m: Move)
    requires Inv(cfg, s) && MoveOk(cfg, s, pid, m)
    ensures Inv(cfg, Apply(s, pid, m))
  {
    hide ProcOk, MoveOk, PathOf;
    var s' := Apply(s, pid, m);
    MoverStaysOk(cfg, s, pid, m);
    LocksStayOk(cfg, s, pid, m);
    forall other | other in s'.procs ensures ProcOk(cfg, s'.lake, s'.locks, other, s'.procs[other]) {
      if other != pid {
        OtherStaysOk(cfg, s, pid, m, other);
      }
    }
  }

  lemma CheckedOk(cfg: Config, req: Request, raw: Frame)
    requires CheckOutcome(cfg.reg, req.endpoint, Some(raw), true).Ok?
    ensures var frame := if cfg.policy(req.endpoint).snapshot then Stamp(raw) else raw;
            Blocks(cfg.reg, req.endpoint) ==> Violations(cfg.reg, req.endpoint, Some(frame), true) == []
  {
    if Blocks(cfg.reg, req.endpoint) {
      StampKeepsContract(cfg.reg, req.endpoint, raw);
    }
  }

  lemma NextMoveOk(cfg: Config, s: State, pid: Pid)
    requires Inv(cfg, s) && pid in s.procs
    ensures MoveOk(cfg, s, pid, NextMove(cfg, s, s.procs[pid]))
  {
    var p := s.procs[pid];
    assert ProcOk(cfg, s.lake, s.locks, pid, p);
    if p.Fetched? && NextMove(cfg, s, p).GoOn? {
      CheckedOk(cfg, p.req, p.raw);
    } else if p.Writing? {
      WritingMoveOk(cfg, s, pid, p);
    }
  }

  lemma WritingMoveOk(cfg: Config, s: State, pid: Pid, p: Proc)
    requires p == At(s, pid) && p.Writing? && ProcOk(cfg, s.lake, s.locks, pid, p)
    ensures MoveOk(cfg, s, pid, NextMove(cfg, s, p))
  {
    if |p.temporary.rows| >= |p.frame.rows| {
      assert p.temporary == p.frame;
    }
  }

  lemma EventMoveOk(cfg: Config, s: State, e: Event)
    requires Inv(cfg, s) && !e.Tick?
    ensures MoveOk(cfg, s, e.pid, MoveOf(cfg, s, e))
  {
    hide PathOf;
    if e.pid in s.procs {
      assert ProcOk(cfg, s.lake, s.locks, e.pid, s.procs[e.pid]);
      if e.Advance? {
        NextMoveOk(cfg, s, e.pid);
      } else if e.Fetch? {
        FetchMoveOk(cfg, s, e.pid, e.answer);
      }
    }
  }

  lemma FetchMoveOk(cfg: Config, s: State, pid: Pid, answer: Option<Option<Frame>>)
    requires pid in s.procs && ProcOk(cfg, s.lake, s.locks, pid, s.procs[pid])
    ensures MoveOk(cfg, s, pid, FetchMove(cfg, s.day, s.procs[pid], answer))
  {
  }

  lemma StepKeepsInv(cfg: Config, s: State, e: Event)
    requires Inv(cfg, s)
    ensures Inv(cfg, Step(cfg, s, e))
  {
    if !e.Tick? {
      EventMoveOk(cfg, s, e);
      ApplyKeepsInv(cfg, s, e.pid, MoveOf(cfg, s, e));
    }
  }
}
