/** Which requests share a file of the lake (autoresearch/data/cache.py, `_cache_key`), on their parameters. */
module LakeKeys {
  import opened Strings
  import opened LakeCache

  // ---------- the first parameter that says something ----------

  /** The k-th of the listed parameters is the first that is there and not empty. */
  predicate SaidBy(params: Params, keys: seq<string>, k: nat)
    requires k < |keys|
  {
    && keys[k] in params && params[keys[k]] != ""
    && forall j | 0 <= j < k :: keys[j] in params ==> params[keys[j]] == ""
  }

  /** The value is what the first listed parameter that is there and not empty says; empty if there is none. */
  predicate Says(params: Params, keys: seq<string>, value: string) {
    if value == "" then forall j | 0 <= j < |keys| :: keys[j] in params ==> params[keys[j]] == ""
    else exists k: nat :: k < |keys| && SaidBy(params, keys, k) && params[keys[k]] == value
  }

  lemma {:induction false} FirstSays(params: Params, keys: seq<string>)
    ensures Says(params, keys, First(params, keys))
    decreases |keys|
  {
    if keys != [] {
      if keys[0] in params && params[keys[0]] != "" {
        assert SaidBy(params, keys, 0);
      } else {
        FirstSays(params, keys[1..]);
        var value := First(params, keys[1..]);
        if value != "" {
          var k: nat :| k < |keys[1..]| && SaidBy(params, keys[1..], k) && params[keys[1..][k]] == value;
          assert SaidBy(params, keys, k + 1);
        }
      }
    }
  }

  lemma SaysIsUnique(params: Params, keys: seq<string>, a: string, b: string)
    requires Says(params, keys, a) && Says(params, keys, b)
    ensures a == b
  {
    if a != "" && b != "" {
      var i: nat :| i < |keys| && SaidBy(params, keys, i) && params[keys[i]] == a;
      var j: nat :| j < |keys| && SaidBy(params, keys, j) && params[keys[j]] == b;
      assert i == j;
    }
  }

  /** What a request says about its day: the first of these five. */
  predicate SaysDay(params: Params, day: string) {
    Says(params, ["trade_date", "date", "ann_date", "cal_date", "nav_date"], day)
  }

  predicate SaysPeriod(params: Params, period: string) { Says(params, ["period", "date", "end_date"], period) }

  predicate SaysEntity(params: Params, entity: string) {
    Says(params, ["ts_code", "symbol", "code", "exchange_id", "exchange", "index_code", "ann_id"], entity)
  }

  // ---------- dropping dashes ----------

  /** Dropping a character drops just that character, wherever it is. */
  lemma {:induction false} DroppedConcat(a: string, b: string, c: char)
    ensures Without(a + b, c) == Without(a, c) + Without(b, c)
    decreases |a|
  {
    if a == [] {
      assert a + b == b;
    } else {
      assert (a + b)[1..] == a[1..] + b;
      DroppedConcat(a[1..], b, c);
    }
  }

  lemma DroppedOne(x: char)
    ensures Compact([x]) == if x == '-' then [] else [x]
  {
    assert [x][1..] == "" && Without("", '-') == "";
  }

  lemma {:induction false} NothingToDrop(s: string)
    requires '-' !in s
    ensures Compact(s) == s
    decreases |s|
  {
    if s != [] {
      NothingToDrop(s[1..]);
      assert s == [s[0]] + s[1..];
    }
  }

  /** A date with dashes and the same date without them are one date. */
  lemma DashesDoNotMatter(year: string, month: string, day: string)
    requires '-' !in year && '-' !in month && '-' !in day
    ensures Compact(year + "-" + month + "-" + day) == year + month + day
  {
    DroppedConcat(year + "-" + month + "-", day, '-');
    DroppedConcat(year + "-" + month, "-", '-');
    DroppedConcat(year + "-", month, '-');
    DroppedConcat(year, "-", '-');
    DroppedOne('-');
    NothingToDrop(year);
    NothingToDrop(month);
    NothingToDrop(day);
  }

  // ---------- one file for one day ----------

  /** A name that stands for a day or a period, and not for its absence. */
  predicate Named(day: string) { Compact(day) != "" && Compact(day) != "unkeyed" }

  lemma KeyOfADay(policy: Policy, params: Params, today: string, day: string)
    requires policy.kind.ByDate? && SaysDay(params, day)
    ensures CacheKey(policy, params, today) == if Compact(day) == "" then "unkeyed" else Compact(day)
  {
    FirstSays(params, DATE_PARAMS);
    SaysIsUnique(params, DATE_PARAMS, day, First(params, DATE_PARAMS));
  }

  lemma KeyOfAPeriod(policy: Policy, params: Params, today: string, period: string)
    requires policy.kind.ByPeriod? && SaysPeriod(params, period)
    ensures CacheKey(policy, params, today) == if Compact(period) == "" then "unkeyed" else Compact(period)
  {
    FirstSays(params, PERIOD_PARAMS);
    SaysIsUnique(params, PERIOD_PARAMS, period, First(params, PERIOD_PARAMS));
  }

  /** Two requests for a day share a file if and only if they are for one day, dashes apart. */
  lemma DaysShareAFileExactlyWhenEqual(cfg: Config, p: Request, q: Request, a: string, b: string)
    requires p.endpoint == q.endpoint && cfg.policy(p.endpoint).kind.ByDate?
    requires SaysDay(p.params, a) && SaysDay(q.params, b) && Named(a) && Named(b)
    ensures PathOf(cfg, p) == PathOf(cfg, q) <==> Compact(a) == Compact(b)
  {
    KeyOfADay(cfg.policy(p.endpoint), p.params, p.today, a);
    KeyOfADay(cfg.policy(q.endpoint), q.params, q.today, b);
  }

  lemma PeriodsShareAFileExactlyWhenEqual(cfg: Config, p: Request, q: Request, a: string, b: string)
    requires p.endpoint == q.endpoint && cfg.policy(p.endpoint).kind.ByPeriod?
    requires SaysPeriod(p.params, a) && SaysPeriod(q.params, b) && Named(a) && Named(b)
    ensures PathOf(cfg, p) == PathOf(cfg, q) <==> Compact(a) == Compact(b)
  {
    KeyOfAPeriod(cfg.policy(p.endpoint), p.params, p.today, a);
    KeyOfAPeriod(cfg.policy(q.endpoint), q.params, q.today, b);
  }

  /** A request that says no day shares its file with every other one that says none, and with no request for a day. */
  lemma NoDayIsItsOwnFile(cfg: Config, p: Request, q: Request, day: string)
    requires p.endpoint == q.endpoint && cfg.policy(p.endpoint).kind.ByDate? && SaysDay(p.params, "")
    requires SaysDay(q.params, day)
    ensures day == "" ==> PathOf(cfg, p) == PathOf(cfg, q)
    ensures Named(day) ==> PathOf(cfg, p) != PathOf(cfg, q)
  {
    KeyOfADay(cfg.policy(p.endpoint), p.params, p.today, "");
    KeyOfADay(cfg.policy(q.endpoint), q.params, q.today, day);
  }

  /** All requests of a static endpoint share its one file. */
  lemma StaticIsOneFile(cfg: Config, p: Request, q: Request)
    requires p.endpoint == q.endpoint && cfg.policy(p.endpoint).kind.Static?
    ensures PathOf(cfg, p) == PathOf(cfg, q) == Path(p.endpoint, "static")
  {
  }

  // ---------- one file for one entity on one day ----------

  /** The day a request is as of: its own parameter, or the day of the call. */
  predicate IsAsOf(params: Params, today: string, day: string) {
    if "as_of" in params && Compact(params["as_of"]) != "" then day == Compact(params["as_of"]) else day == today
  }

  /** Names that differ in dots and underscores alone. */
  predicate SameUpToDots(a: string, b: string) {
    && |a| == |b|
    && forall i | 0 <= i < |a| :: a[i] == b[i] || (a[i] in "._" && b[i] in "._")
  }

  lemma {:induction false} DotsAreUnderscores(a: string, b: string)
    ensures DotsToUnderscores(a) == DotsToUnderscores(b) <==> SameUpToDots(a, b)
    ensures |DotsToUnderscores(a)| == |a|
    decreases |a|
  {
    DotsKeepLength(a);
    DotsKeepLength(b);
    if a != [] && b != [] {
      DotsAreUnderscores(a[1..], b[1..]);
      var x, y := DotsToUnderscores(a), DotsToUnderscores(b);
      assert x == y <==> x[0] == y[0] && x[1..] == y[1..];
      assert SameUpToDots(a, b) <==>
             (a[0] == b[0] || (a[0] in "._" && b[0] in "._")) && SameUpToDots(a[1..], b[1..]) by {
        FirstUpToDots(a, b);
      }
    }
  }

  lemma {:induction false} DotsKeepLength(s: string)
    ensures |DotsToUnderscores(s)| == |s|
    decreases |s|
  {
    if s != [] {
      DotsKeepLength(s[1..]);
    }
  }

  lemma FirstUpToDots(a: string, b: string)
    requires a != [] && b != []
    ensures SameUpToDots(a, b) <==>
            (a[0] == b[0] || (a[0] in "._" && b[0] in "._")) && SameUpToDots(a[1..], b[1..])
  {
    if SameUpToDots(a[1..], b[1..]) {
      forall i | 1 <= i < |a| ensures a[i] == b[i] || (a[i] in "._" && b[i] in "._") {
        assert a[1..][i - 1] == a[i] && b[1..][i - 1] == b[i];
      }
    }
  }

  lemma LastAt(a: string, x: string, b: string, y: string)
    requires '@' !in x && '@' !in y && a + "@" + x == b + "@" + y
    ensures a == b && x == y
  {
    var s := a + "@" + x;
    assert s[|a|] == '@' && s[|b|] == '@';
    assert forall i | |a| < i < |s| :: s[i] == x[i - |a| - 1];
    assert forall i | |b| < i < |s| :: s[i] == y[i - |b| - 1];
    assert |a| == |b|;
    assert a == s[..|a|] && b == s[..|b|] && x == s[|a| + 1..] && y == s[|b| + 1..];
  }

  function EntityName(entity: string): string { if entity == "" then "all" else entity }

  lemma KeyOfAnEntity(policy: Policy, params: Params, today: string, entity: string, day: string)
    requires policy.kind.AsOf? && SaysEntity(params, entity) && IsAsOf(params, today, day)
    ensures CacheKey(policy, params, today) == DotsToUnderscores(EntityName(entity)) + "@" + day
  {
    FirstSays(params, ENTITY_PARAMS);
    SaysIsUnique(params, ENTITY_PARAMS, entity, First(params, ENTITY_PARAMS));
    assert Compact("") == "";
  }

  /** Two snapshot requests share a file if and only if they are about one entity, dots and underscores apart, as of one
      day. A request about no entity is about "all". */
  lemma EntitiesShareAFileExactlyWhenEqual(cfg: Config, p: Request, q: Request, a: string, b: string, x: string,
                                           y: string)
    requires p.endpoint == q.endpoint && cfg.policy(p.endpoint).kind.AsOf?
    requires SaysEntity(p.params, a) && IsAsOf(p.params, p.today, x)
    requires SaysEntity(q.params, b) && IsAsOf(q.params, q.today, y)
    requires '@' !in x && '@' !in y
    ensures PathOf(cfg, p) == PathOf(cfg, q)
            <==> SameUpToDots(if a == "" then "all" else a, if b == "" then "all" else b) && x == y
  {
    KeyOfAnEntity(cfg.policy(p.endpoint), p.params, p.today, a, x);
    KeyOfAnEntity(cfg.policy(q.endpoint), q.params, q.today, b, y);
    var u, v := DotsToUnderscores(EntityName(a)), DotsToUnderscores(EntityName(b));
    DotsAreUnderscores(EntityName(a), EntityName(b));
    if u + "@" + x == v + "@" + y {
      LastAt(u, x, v, y);
    }
  }
}
