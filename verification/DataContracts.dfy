/** Content contracts of fetched frames (autoresearch/data/contracts.py). */
module DataContracts {
  import opened Wrappers

  /** A table: its columns, and its rows as opaque records. */
  datatype Frame = Frame(cols: set<string>, rows: seq<string>)

  const EMPTY_FRAME := Frame({}, [])

  /** Tier A blocks the run, tier B records a degradation. */
  datatype Tier = Blocking | Degrading

  datatype Contract = Contract(
    tier: Tier, requiredCols: set<string>, minRows: nat, emptyOk: bool, persistViolations: bool)

  /** The registered contracts, and the switch for the row-count check. */
  datatype Registry = Registry(contracts: map<string, Contract>, checkRows: bool)

  datatype Violation = ReturnedNone | NoRows | TooFewRows(rows: nat) | MissingColumns(cols: set<string>)

  function Violations(reg: Registry, endpoint: string, df: Option<Frame>, cols: bool): seq<Violation> {
    if endpoint !in reg.contracts then []
    else if df.None? then [ReturnedNone]
    else
      var con, f := reg.contracts[endpoint], df.value;
      var missing := con.requiredCols - f.cols;
      (if f.rows == [] then [NoRows]
       else if reg.checkRows && con.minRows != 0 && |f.rows| < con.minRows then [TooFewRows(|f.rows|)]
       else [])
      + (if cols && missing != {} && f.rows != [] then [MissingColumns(missing)] else [])
  }

  /** A frame with no violations has rows, enough of them, and every required column. */
  predicate Meets(reg: Registry, endpoint: string, f: Frame) {
    endpoint in reg.contracts ==>
      var con := reg.contracts[endpoint];
      && f.rows != []
      && (reg.checkRows ==> |f.rows| >= con.minRows)
      && con.requiredCols <= f.cols
  }

  lemma NoViolationsMeansMet(reg: Registry, endpoint: string, f: Frame)
    ensures Violations(reg, endpoint, Some(f), true) == [] <==> Meets(reg, endpoint, f)
  {
    if endpoint in reg.contracts {
      var con := reg.contracts[endpoint];
      if con.requiredCols - f.cols == {} {
        assert forall c | c in con.requiredCols :: c !in con.requiredCols - f.cols;
      }
    }
  }

  predicate Blocks(reg: Registry, endpoint: string) {
    endpoint in reg.contracts && reg.contracts[endpoint].tier.Blocking?
  }

  /** Whether a frame must not be written to the lake although the run goes on with it. */
  predicate RefusesLake(reg: Registry, endpoint: string, df: Option<Frame>) {
    && endpoint in reg.contracts
    && !reg.contracts[endpoint].persistViolations
    && Violations(reg, endpoint, df, true) != []
  }

  datatype ContractError = ContractError(endpoint: string, reasons: seq<Violation>)

  datatype Origin = FromFetch | FromLake

  datatype Degradation = Degradation(
    endpoint: string, key: string, origin: Origin, reasons: seq<Violation>, legitimatelyEmpty: bool)

  function CheckOutcome(reg: Registry, endpoint: string, df: Option<Frame>, cols: bool)
    : Result<Option<Frame>, ContractError>
  {
    var v := Violations(reg, endpoint, df, cols);
    if v != [] && Blocks(reg, endpoint) then Err(ContractError(endpoint, v)) else Ok(df)
  }

  function Recorded(reg: Registry, endpoint: string, df: Option<Frame>, key: string, origin: Origin,
                    cols: bool): seq<Degradation>
  {
    var v := Violations(reg, endpoint, df, cols);
    if v == [] || Blocks(reg, endpoint) || endpoint !in reg.contracts then []
    else [Degradation(endpoint, key, origin, v, reg.contracts[endpoint].emptyOk && v == [NoRows])]
  }

  /** The process-wide list of degradations. */
  class DegradationLog {
    const reg: Registry
    var degraded: seq<Degradation>

    constructor (reg: Registry)
      ensures this.reg == reg && degraded == []
    {
      this.reg := reg;
      degraded := [];
    }

    method CollectViolations(endpoint: string, df: Option<Frame>, cols: bool) returns (reasons: seq<Violation>)
      ensures reasons == Violations(reg, endpoint, df, cols)
      ensures df.Some? && cols ==> (reasons == [] <==> Meets(reg, endpoint, df.value))
    {
      if df.Some? && cols {
        NoViolationsMeansMet(reg, endpoint, df.value);
      }
      if endpoint !in reg.contracts {
        return [];
      }
      if df.None? {
        return [ReturnedNone];
      }
      var con, f := reg.contracts[endpoint], df.value;
      reasons := [];
      if |f.rows| == 0 {
        reasons := reasons + [NoRows];
      } else if reg.checkRows && con.minRows != 0 && |f.rows| < con.minRows {
        reasons := reasons + [TooFewRows(|f.rows|)];
      }
      if cols {
        var missing := con.requiredCols - f.cols;
        if missing != {} && |f.rows| != 0 {
          reasons := reasons + [MissingColumns(missing)];
        }
      }
    }

    /** Let the frame through, raise, or let it through and leave one record. */
    method Check(endpoint: string, df: Option<Frame>, key: string, origin: Origin, cols: bool)
      returns (answer: Result<Option<Frame>, ContractError>)
      modifies this
      ensures answer == CheckOutcome(reg, endpoint, df, cols)
      ensures degraded == old(degraded) + Recorded(reg, endpoint, df, key, origin, cols)
    {
      var v := CollectViolations(endpoint, df, cols);
      if |v| == 0 {
        return Ok(df);
      }
      var con := reg.contracts[endpoint];
      if con.tier.Blocking? {
        return Err(ContractError(endpoint, v));
      }
      degraded := degraded + [Degradation(endpoint, key, origin, v, con.emptyOk && v == [NoRows])];
      return Ok(df);
    }
  }

  // ---------- what a check does ----------

  /** Nothing came, or no rows, or too few of them, or a required column is missing. */
  predicate Breaks(reg: Registry, endpoint: string, df: Option<Frame>, cols: bool) {
    && endpoint in reg.contracts
    && var con := reg.contracts[endpoint];
       || df.None? || |df.value.rows| == 0
       || (reg.checkRows && |df.value.rows| < con.minRows)
       || (cols && exists c :: c in con.requiredCols && c !in df.value.cols)
  }

  /** Each reason is given exactly where it applies; of a frame without rows only that it has none. */
  lemma ReasonsApply(reg: Registry, endpoint: string, df: Option<Frame>, cols: bool)
    requires endpoint in reg.contracts
    ensures var con, v := reg.contracts[endpoint], Violations(reg, endpoint, df, cols);
            && (ReturnedNone in v <==> df.None?)
            && (NoRows in v <==> df.Some? && |df.value.rows| == 0)
            && (forall n: nat ::
                  TooFewRows(n) in v <==> df.Some? && reg.checkRows && n == |df.value.rows| && 0 < n < con.minRows)
            && (forall missing ::
                  MissingColumns(missing) in v <==>
                  df.Some? && cols && |df.value.rows| > 0 && missing == con.requiredCols - df.value.cols != {})
            && |v| <= 2 && (|v| == 2 ==> v[0].TooFewRows? && v[1].MissingColumns?)
  {
  }

  lemma ViolationsMeanBroken(reg: Registry, endpoint: string, df: Option<Frame>, cols: bool)
    ensures Violations(reg, endpoint, df, cols) != [] <==> Breaks(reg, endpoint, df, cols)
  {
    if endpoint in reg.contracts && df.Some? {
      var missing := reg.contracts[endpoint].requiredCols - df.value.cols;
      assert missing != {} <==> exists c :: c in reg.contracts[endpoint].requiredCols && c !in df.value.cols by {
        if missing != {} {
          var c :| c in missing;
        }
        assert forall c :: c in missing <==> c in reg.contracts[endpoint].requiredCols && c !in df.value.cols;
      }
    }
  }

  /** A broken contract of the blocking tier raises and leaves no record; one of the other tier lets the frame through
      and leaves one, marked where no rows are legitimate; a kept contract does neither. */
  lemma ChecksRaiseOrRecordExactlyWhen(reg: Registry, endpoint: string, df: Option<Frame>, key: string,
                                       origin: Origin, cols: bool)
    ensures var answer, record := CheckOutcome(reg, endpoint, df, cols), Recorded(reg, endpoint, df, key, origin, cols);
            if !Breaks(reg, endpoint, df, cols) then answer == Ok(df) && record == []
            else if reg.contracts[endpoint].tier == Blocking
            then answer.Err? && answer.error.endpoint == endpoint && record == []
            else && answer == Ok(df) && |record| == 1 && record[0].endpoint == endpoint && record[0].key == key
                 && record[0].origin == origin
                 && (record[0].legitimatelyEmpty
                     <==> reg.contracts[endpoint].emptyOk && df.Some? && |df.value.rows| == 0)
  {
    ViolationsMeanBroken(reg, endpoint, df, cols);
    if endpoint in reg.contracts {
      ReasonsApply(reg, endpoint, df, cols);
    }
  }

  // ---------- the observation stamp ----------

  const FIRST_SEEN_TS := "first_seen_ts"
  const FIRST_SEEN_BASIS := "first_seen_basis"

  function Stamp(f: Frame): Frame { f.(cols := f.cols + {FIRST_SEEN_TS, FIRST_SEEN_BASIS}) }

  /** Stamping a frame that meets its contract does not break it. */
  lemma StampKeepsContract(reg: Registry, endpoint: string, f: Frame)
    requires Violations(reg, endpoint, Some(f), true) == []
    ensures Violations(reg, endpoint, Some(Stamp(f)), true) == []
  {
    NoViolationsMeansMet(reg, endpoint, f);
    NoViolationsMeansMet(reg, endpoint, Stamp(f));
  }
}
