/** Which views a caller may hand to `apply_expansion` (autoresearch/contracts/session_expansion.py) so that no
    accepted expansion closes a cycle. */
module OpenViews {
  import opened Wrappers
  import opened TaskGraph
  import opened SessionExpansion

  // ---------- when anything is accepted ----------

  /** The ids a view depends on and does not have. */
  function Missing(view: seq<Task>): set<string> {
    set i, d | 0 <= i < |view| && d in view[i].deps && d !in TaskIds(view) :: d
  }

  predicate AllIds(ids: set<string>) { forall id | id in ids :: IsId(id) }

  ghost predicate HasFreeId(view: seq<Task>) { exists id :: IsId(id) && id !in TaskIds(view) }

  /** What has to hold of the plan and the view before any expansion can be accepted. The tasks of the view are
      not checked: its ids may be any strings. */
  ghost predicate CanGrow(plan: Plan, view: seq<Task>, digests: Digests) {
    && ValidPlan(plan, digests) && plan.body.templates != []
    && TaskIds(plan.body.tasks) <= TaskIds(view) && UniqueIds(Nodes(view))
    && AllIds(Missing(view)) && HasFreeId(view)
  }

  /** The one input under which an expansion of any template may hold tasks about anything. */
  function Input(template: Template): string {
    "scan.review." + (if template.id == "scan.reviews" then "plan" else "decision")
  }

  /** An expansion of the plan's first template with these tasks. */
  function ExpansionWith(plan: Plan, tasks: seq<Task>, digests: Digests): Expansion
    requires plan.body.templates != []
  {
    var template := plan.body.templates[0];
    var body := ExpansionBody(plan.hash, template.id, [Input(template)], tasks);
    var hash := digests.expansion(body);
    Expansion(body, template.id + "-" + (if |hash| >= 16 then hash[..16] else hash), hash)
  }

  predicate AllDeterministic(tasks: seq<Task>) { forall i | 0 <= i < |tasks| :: tasks[i].kind.Deterministic? }

  lemma NodesConcat(a: seq<Task>, b: seq<Task>)
    ensures Nodes(a + b) == Nodes(a) + Nodes(b)
    ensures TaskIds(a + b) == TaskIds(a) + TaskIds(b)
  {
    assert Nodes(a + b) == Nodes(a) + Nodes(b);
    IdsConcat(Nodes(a), Nodes(b));
  }

  lemma InputIsInScope(template: Template, body: ExpansionBody)
    requires body.inputs == [Input(template)]
    ensures ScopeOk(template, body)
  {
    assert body.inputs[1..] == [];
    assert Input(template)[5] == 'r' && "research.frame"[5] == 'r' && |Input(template)| != |"research.frame"|;
    assert WithoutFrame(body.inputs) == [Input(template)] + WithoutFrame([]);
  }

  lemma InputIsAnId(template: Template)
    ensures IsId(Input(template))
  {
    assert Input(template) == "scan.review.plan" || Input(template) == "scan.review.decision";
  }

  lemma ExpansionIsAccepted(plan: Plan, view: seq<Task>, tasks: seq<Task>, digests: Digests)
    requires CanGrow(plan, view, digests) && tasks != [] && AllDeterministic(tasks) && TasksOk(tasks)
    requires UniqueIds(Nodes(view + tasks)) && Closed(Nodes(view + tasks)) && Acyclic(Nodes(tasks))
    ensures Applied(plan, ExpansionWith(plan, tasks, digests), Some(view), digests) == Ok(view + tasks)
  {
    var e, templates := ExpansionWith(plan, tasks, digests), plan.body.templates;
    assert templates[0].id in TemplateIds(templates);
    assert TemplateOf(templates, e.body.templateId) == templates[0];
    InputIsInScope(templates[0], e.body);
    InputIsAnId(templates[0]);
    UniquePart(view, tasks);
  }

  lemma UniquePart(a: seq<Task>, b: seq<Task>)
    requires UniqueIds(Nodes(a + b))
    ensures UniqueIds(Nodes(a)) && UniqueIds(Nodes(b))
  {
    NodesConcat(a, b);
    var all := Nodes(a + b);
    assert forall i | 0 <= i < |a| :: Nodes(a)[i] == all[i];
    assert forall i | 0 <= i < |b| :: Nodes(b)[i] == all[|a| + i];
  }

  // ---------- tasks for missing ids ----------

  lemma ClosedExactlyWithoutMissing(view: seq<Task>)
    ensures Closed(Nodes(view)) <==> Missing(view) == {}
  {
    if Closed(Nodes(view)) {
      forall i, d | 0 <= i < |view| && d in view[i].deps ensures d in TaskIds(view) {
        assert Nodes(view)[i].deps <= Ids(Nodes(view));
      }
    } else {
      var i :| 0 <= i < |view| && !(Nodes(view)[i].deps <= Ids(Nodes(view)));
      var d :| d in Nodes(view)[i].deps && d !in Ids(Nodes(view));
      assert Nodes(view)[i].deps == view[i].deps;
      assert d in view[i].deps && d !in TaskIds(view);
      assert d in Missing(view);
    }
  }

  /** One task for each id; only `first` depends on anything. */
  predicate Fills(tasks: seq<Task>, ids: set<string>, first: string, deps: set<string>) {
    && AllDeterministic(tasks) && UniqueIds(Nodes(tasks)) && TaskIds(tasks) == ids && TasksOk(tasks)
    && forall i | 0 <= i < |tasks| :: tasks[i].deps == if tasks[i].id == first then deps else {}
  }

  lemma OneMoreFills(task: Task, rest: seq<Task>, ids: set<string>, first: string, deps: set<string>)
    requires Fills(rest, ids, first, deps) && task.id !in ids && task.kind.Deterministic? && TaskOk(task)
    requires task.deps == if task.id == first then deps else {}
    ensures Fills([task] + rest, ids + {task.id}, first, deps)
  {
    var tasks := [task] + rest;
    NodesConcat([task], rest);
    assert Nodes([task])[0].id == task.id && TaskIds([task]) == {task.id};
    assert Nodes(tasks)[0].id == task.id;
    forall i, j | 0 <= i < j < |tasks| ensures Nodes(tasks)[i].id != Nodes(tasks)[j].id {
      assert Nodes(tasks)[j] == Nodes(rest)[j - 1];
      if i == 0 {
        assert Nodes(rest)[j - 1].id in TaskIds(rest);
      } else {
        assert Nodes(tasks)[i] == Nodes(rest)[i - 1];
      }
    }
    forall i | 0 <= i < |tasks| ensures tasks[i].deps == if tasks[i].id == first then deps else {} {
      if i > 0 {
        assert tasks[i] == rest[i - 1];
      }
    }
  }

  lemma {:induction false} TasksFor(ids: set<string>, first: string, deps: set<string>) returns (tasks: seq<Task>)
    requires AllIds(ids) && AllIds(deps)
    ensures Fills(tasks, ids, first, deps)
    decreases |ids|
  {
    if ids == {} {
      tasks := [];
    } else {
      var id :| id in ids;
      var rest := TasksFor(ids - {id}, first, deps);
      var task := Task(id, if id == first then deps else {}, Deterministic, "", None);
      OneMoreFills(task, rest, ids - {id}, first, deps);
      assert ids - {id} + {id} == ids;
      tasks := [task] + rest;
    }
  }

  /** Tasks for ids the view lacks fit on top of it. */
  lemma FillersFit(view: seq<Task>, tasks: seq<Task>, ids: set<string>, first: string, deps: set<string>)
    requires UniqueIds(Nodes(view)) && Fills(tasks, ids, first, deps)
    requires Missing(view) <= ids && ids !! TaskIds(view) && deps <= TaskIds(view)
    ensures UniqueIds(Nodes(view + tasks)) && Closed(Nodes(view + tasks)) && Acyclic(Nodes(tasks))
  {
    NodesConcat(view, tasks);
    var all := Nodes(view + tasks);
    forall i, j | 0 <= i < j < |all| ensures all[i].id != all[j].id {
      IdOf(view, tasks, i);
      IdOf(view, tasks, j);
    }
    forall i | 0 <= i < |all| ensures all[i].deps <= Ids(all) {
      if i < |view| {
        forall d | d in view[i].deps ensures d in TaskIds(view) + ids {
          if d !in TaskIds(view) {
            assert d in Missing(view);
          }
        }
      } else {
        assert all[i].deps == tasks[i - |view|].deps;
      }
    }
    var rank := map x | x in ids :: 0;
    forall i | 0 <= i < |tasks|
      ensures Nodes(tasks)[i].id in rank
      ensures forall d | d in Nodes(tasks)[i].deps && d in Ids(Nodes(tasks)) ::
              d in rank && rank[d] < rank[Nodes(tasks)[i].id]
    {
      assert Nodes(tasks)[i].id in TaskIds(tasks);
      assert tasks[i].deps <= deps;
    }
    assert Ranks(Nodes(tasks), rank);
  }

  /** Which part of the union an id belongs to. */
  lemma IdOf(view: seq<Task>, tasks: seq<Task>, i: nat)
    requires i < |view| + |tasks|
    ensures var id := Nodes(view + tasks)[i].id;
            if i < |view| then id == Nodes(view)[i].id && id in TaskIds(view)
            else id == Nodes(tasks)[i - |view|].id && id in TaskIds(tasks)
  {
    NodesConcat(view, tasks);
    if i < |view| {
      assert Nodes(view)[i].id in Ids(Nodes(view));
    } else {
      assert Nodes(tasks)[i - |view|].id in Ids(Nodes(tasks));
    }
  }

  lemma HasTasks(tasks: seq<Task>, id: string)
    requires id in TaskIds(tasks)
    ensures tasks != []
  {
  }

  // ---------- the two theorems ----------

  /** Some expansion is accepted on top of a view exactly when the plan is valid and has a template, and the view
      has the frozen tasks, no id twice, no missing id that no task could have, and not every id there is. */
  lemma SomethingIsAcceptedExactlyWhen(plan: Plan, view: seq<Task>, digests: Digests)
    ensures (exists e :: Applied(plan, e, Some(view), digests).Ok?) <==> CanGrow(plan, view, digests)
  {
    if e :| Applied(plan, e, Some(view), digests).Ok? {
      AcceptedMeansCanGrow(plan, view, e, digests);
    }
    if CanGrow(plan, view, digests) {
      var newId :| IsId(newId) && newId !in TaskIds(view);
      var ids := Missing(view) + {newId};
      var tasks := TasksFor(ids, newId, {});
      FillersFit(view, tasks, ids, newId, {});
      HasTasks(tasks, newId);
      ExpansionIsAccepted(plan, view, tasks, digests);
      assert Applied(plan, ExpansionWith(plan, tasks, digests), Some(view), digests).Ok?;
    }
  }

  lemma AcceptedMeansCanGrow(plan: Plan, view: seq<Task>, e: Expansion, digests: Digests)
    requires Applied(plan, e, Some(view), digests).Ok?
    ensures CanGrow(plan, view, digests)
  {
    var tasks := e.body.tasks;
    assert e.body.templateId in TemplateIds(plan.body.templates);
    UniquePart(view, tasks);
    forall d | d in Missing(view) ensures IsId(d) {
      MissingIsBrought(view, tasks, d);
    }
    assert IsId(tasks[0].id) && tasks[0].id !in TaskIds(view) by {
      assert TaskOk(tasks[0]);
      NewIsNotThere(view, tasks, 0);
    }
  }

  /** A closed union brings every missing id. */
  lemma MissingIsBrought(view: seq<Task>, tasks: seq<Task>, d: string)
    requires Closed(Nodes(view + tasks)) && TasksOk(tasks) && d in Missing(view)
    ensures IsId(d) && d in TaskIds(tasks)
  {
    NodesConcat(view, tasks);
    var i :| 0 <= i < |view| && d in view[i].deps && d !in TaskIds(view);
    assert Nodes(view + tasks)[i].deps == view[i].deps;
    assert d in TaskIds(view + tasks);
    var j :| 0 <= j < |tasks| && Nodes(tasks)[j].id == d;
    assert TaskOk(tasks[j]);
  }

  lemma NewIsNotThere(view: seq<Task>, tasks: seq<Task>, j: nat)
    requires UniqueIds(Nodes(view + tasks)) && j < |tasks|
    ensures tasks[j].id !in TaskIds(view)
  {
    var all := Nodes(view + tasks);
    assert all[|view| + j].id == tasks[j].id;
    forall i | 0 <= i < |view| ensures Nodes(view)[i].id != tasks[j].id {
      assert all[i].id == Nodes(view)[i].id;
    }
  }

  /** Whatever is accepted on top of the view, the result has no cycle. */
  ghost predicate EveryResultIsAcyclic(plan: Plan, view: seq<Task>, digests: Digests) {
    forall e | Applied(plan, e, Some(view), digests).Ok? :: Acyclic(Nodes(Applied(plan, e, Some(view), digests).value))
  }

  // ---------- tasks that wait for a missing id ----------

  /** Dependencies of the view, one after another, down to an id it does not have. */
  predicate LeadsOut(view: seq<Task>, walk: seq<string>) {
    && |walk| >= 2 && walk[|walk| - 1] in Missing(view)
    && (forall i | 0 <= i < |walk| - 1 :: walk[i] in TaskIds(view) && DependsOn(Nodes(view), walk[i], walk[i + 1]))
  }

  ghost predicate Waits(view: seq<Task>, id: string) { exists walk :: LeadsOut(view, walk) && walk[0] == id }

  /** A task that a new task could name waits for a missing id. */
  ghost predicate SomeIdWaits(view: seq<Task>) { exists id :: IsId(id) && Waits(view, id) }

  /** Down from the waiting task to the missing id, and back by the filler that depends on it. */
  lemma FillerClosesACycle(view: seq<Task>, tasks: seq<Task>, walk: seq<string>)
    requires LeadsOut(view, walk) && walk[|walk| - 1] in TaskIds(tasks)
    requires Fills(tasks, TaskIds(tasks), walk[|walk| - 1], {walk[0]})
    ensures IsCycle(Nodes(view + tasks), walk + [walk[0]])
  {
    NodesConcat(view, tasks);
    var all, n, cycle := Nodes(view + tasks), |walk|, walk + [walk[0]];
    var j :| 0 <= j < |tasks| && Nodes(tasks)[j].id == walk[n - 1];
    assert all[|view| + j].id == walk[n - 1] && walk[0] in all[|view| + j].deps;
    forall i | 0 <= i < n ensures DependsOn(all, cycle[i], cycle[i + 1]) {
      if i < n - 1 {
        DependsOnInUnion(view, tasks, walk[i], walk[i + 1]);
      }
    }
    assert walk[0] in TaskIds(view);
  }

  lemma DependsOnInUnion(view: seq<Task>, tasks: seq<Task>, a: string, b: string)
    requires DependsOn(Nodes(view), a, b)
    ensures DependsOn(Nodes(view + tasks), a, b)
  {
    var i :| 0 <= i < |view| && Nodes(view)[i].id == a && b in Nodes(view)[i].deps;
    assert Nodes(view + tasks)[i] == Nodes(view)[i];
  }

  /** A view in which an id waits lets a batch through that closes a cycle. */
  lemma WaitingViewIsUnsafe(plan: Plan, view: seq<Task>, digests: Digests)
    requires CanGrow(plan, view, digests) && SomeIdWaits(view)
    ensures !EveryResultIsAcyclic(plan, view, digests)
  {
    var id :| IsId(id) && Waits(view, id);
    var walk :| LeadsOut(view, walk) && walk[0] == id;
    var missing := walk[|walk| - 1];
    var tasks := TasksFor(Missing(view), missing, {id});
    FillersFit(view, tasks, Missing(view), missing, {id});
    FillerClosesACycle(view, tasks, walk);
    RanksExcludeCyclesOnce(Nodes(view + tasks), walk + [id]);
    HasTasks(tasks, missing);
    ExpansionIsAccepted(plan, view, tasks, digests);
    ResultWithACycle(plan, view, ExpansionWith(plan, tasks, digests), digests);
  }

  /** A task waits when it depends on a missing id, or on a task that waits. */
  lemma WaitsForIt(view: seq<Task>, i: nat, d: string)
    requires i < |view| && d in view[i].deps && (d !in TaskIds(view) || Waits(view, d))
    ensures Waits(view, view[i].id)
  {
    var id := view[i].id;
    assert Nodes(view)[i].id == id && DependsOn(Nodes(view), id, d);
    if d !in TaskIds(view) {
      assert LeadsOut(view, [id, d]);
    } else {
      var walk :| LeadsOut(view, walk) && walk[0] == d;
      assert LeadsOut(view, [id] + walk);
    }
  }

  /** The rank of a task in the union: first what does not wait, then the new tasks, then what waits. */
  ghost function UnionRank(view: seq<Task>, rv: map<string, nat>, rt: map<string, nat>, bv: nat, bt: nat,
                           id: string): nat
  {
    if id !in TaskIds(view) then bv + (if id in rt then rt[id] else 0)
    else (if Waits(view, id) then bv + bt else 0) + (if id in rv then rv[id] else 0)
  }

  /** New tasks on top of an acyclic view in which no id waits close no cycle. */
  lemma NothingWaitsNoCycle(view: seq<Task>, tasks: seq<Task>)
    requires UniqueIds(Nodes(view + tasks)) && Acyclic(Nodes(view)) && Acyclic(Nodes(tasks))
    requires TasksOk(tasks) && !SomeIdWaits(view)
    ensures Acyclic(Nodes(view + tasks))
  {
    hide Waits, SomeIdWaits, TasksOk, UnionRank;
    var rv: map<string, nat> :| Ranks(Nodes(view), rv);
    var rt: map<string, nat> :| Ranks(Nodes(tasks), rt);
    var bv := RankBound(Nodes(view), rv);
    var bt := RankBound(Nodes(tasks), rt);
    var all := Nodes(view + tasks);
    var rank := map id | id in Ids(all) :: UnionRank(view, rv, rt, bv, bt, id);
    forall k | 0 <= k < |all|
      ensures all[k].id in rank
      ensures forall d | d in all[k].deps && d in Ids(all) :: d in rank && rank[d] < rank[all[k].id]
    {
      forall d | d in all[k].deps && d in Ids(all) ensures rank[d] < rank[all[k].id] {
        if k < |view| {
          ViewRank(view, tasks, rv, rt, bv, bt, k, d);
        } else {
          TaskRank(view, tasks, rv, rt, bv, bt, k - |view|, d);
        }
      }
    }
    assert Ranks(all, rank);
  }

  lemma InView(view: seq<Task>, rv: map<string, nat>, bv: nat, id: string)
    requires id in TaskIds(view) && Ranks(Nodes(view), rv)
    requires forall i | 0 <= i < |view| :: rv[Nodes(view)[i].id] < bv
    ensures id in rv && rv[id] < bv
  {
    var i :| 0 <= i < |view| && Nodes(view)[i].id == id;
  }

  lemma ViewRank(view: seq<Task>, tasks: seq<Task>, rv: map<string, nat>, rt: map<string, nat>, bv: nat, bt: nat,
                 k: nat, d: string)
    requires UniqueIds(Nodes(view + tasks)) && Ranks(Nodes(view), rv) && Ranks(Nodes(tasks), rt) && k < |view|
    requires forall i | 0 <= i < |view| :: rv[Nodes(view)[i].id] < bv
    requires forall i | 0 <= i < |tasks| :: rt[Nodes(tasks)[i].id] < bt
    requires d in view[k].deps && d in TaskIds(view + tasks)
    ensures UnionRank(view, rv, rt, bv, bt, d) < UnionRank(view, rv, rt, bv, bt, view[k].id)
  {
    var id := view[k].id;
    assert Nodes(view)[k].id == id && id in TaskIds(view);
    InView(view, rv, bv, id);
    if d in TaskIds(view) {
      InView(view, rv, bv, d);
      assert d in Nodes(view)[k].deps && rv[d] < rv[id];
    } else {
      NodesConcat(view, tasks);
      InView(tasks, rt, bt, d);
    }
    if d !in TaskIds(view) || Waits(view, d) {
      WaitsForIt(view, k, d);
    }
  }

  lemma TaskRank(view: seq<Task>, tasks: seq<Task>, rv: map<string, nat>, rt: map<string, nat>, bv: nat, bt: nat,
                 k: nat, d: string)
    requires UniqueIds(Nodes(view + tasks)) && Ranks(Nodes(view), rv) && Ranks(Nodes(tasks), rt) && k < |tasks|
    requires TasksOk(tasks) && !SomeIdWaits(view)
    requires forall i | 0 <= i < |view| :: rv[Nodes(view)[i].id] < bv
    requires d in tasks[k].deps && d in TaskIds(view + tasks)
    ensures UnionRank(view, rv, rt, bv, bt, d) < UnionRank(view, rv, rt, bv, bt, tasks[k].id)
  {
    var id := tasks[k].id;
    assert TaskOk(tasks[k]) && IsId(d);
    NewIsNotThere(view, tasks, k);
    assert Nodes(tasks)[k].id == id && id in rt;
    if d in TaskIds(view) {
      InView(view, rv, bv, d);
    } else {
      NodesConcat(view, tasks);
      assert d in Nodes(tasks)[k].deps && d in TaskIds(tasks);
    }
  }

  lemma RanksExcludeCyclesOnce(nodes: seq<Node>, walk: seq<string>)
    requires IsCycle(nodes, walk)
    ensures !Acyclic(nodes)
  {
    if Acyclic(nodes) {
      RanksExcludeCycles(nodes, walk);
    }
  }

  lemma ResultWithACycle(plan: Plan, view: seq<Task>, e: Expansion, digests: Digests)
    requires Applied(plan, e, Some(view), digests).Ok? && !Acyclic(Nodes(Applied(plan, e, Some(view), digests).value))
    ensures !EveryResultIsAcyclic(plan, view, digests)
  {
  }

  /** Every accepted expansion leaves the graph without a cycle if and only if nothing can be accepted, or the
      view has no cycle itself and none of its ids waits for one it does not have. */
  lemma ViewIsSafeExactlyWhen(plan: Plan, view: seq<Task>, digests: Digests)
    ensures EveryResultIsAcyclic(plan, view, digests)
        <==> !CanGrow(plan, view, digests) || (Acyclic(Nodes(view)) && !SomeIdWaits(view))
  {
    SomethingIsAcceptedExactlyWhen(plan, view, digests);
    if CanGrow(plan, view, digests) {
      if SomeIdWaits(view) {
        WaitingViewIsUnsafe(plan, view, digests);
      } else {
        var some :| Applied(plan, some, Some(view), digests).Ok?;
        forall e | Applied(plan, e, Some(view), digests).Ok?
          ensures Acyclic(Nodes(Applied(plan, e, Some(view), digests).value)) <==> Acyclic(Nodes(view))
        {
          ResultIsAcyclicExactlyWhenViewIs(plan, view, e, digests);
        }
      }
    }
  }

  lemma ResultIsAcyclicExactlyWhenViewIs(plan: Plan, view: seq<Task>, e: Expansion, digests: Digests)
    requires Applied(plan, e, Some(view), digests).Ok? && !SomeIdWaits(view)
    ensures Acyclic(Nodes(Applied(plan, e, Some(view), digests).value)) <==> Acyclic(Nodes(view))
  {
    var tasks := e.body.tasks;
    if Acyclic(Nodes(view)) {
      NothingWaitsNoCycle(view, tasks);
    }
    NodesConcat(view, tasks);
    if Acyclic(Nodes(view + tasks)) {
      AcyclicPart(Nodes(view), Nodes(tasks));
    }
  }

  /** Where every task of the view has an id that a task may have, an id waits exactly when one is missing. */
  lemma OpenExactlyWhenSomeIdWaits(view: seq<Task>)
    requires AllIds(TaskIds(view))
    ensures SomeIdWaits(view) <==> !Closed(Nodes(view))
  {
    ClosedExactlyWithoutMissing(view);
    if Missing(view) != {} {
      var d :| d in Missing(view);
      var i :| 0 <= i < |view| && d in view[i].deps;
      assert Nodes(view)[i].id == view[i].id && view[i].id in TaskIds(view);
      assert DependsOn(Nodes(view), view[i].id, d);
      assert LeadsOut(view, [view[i].id, d]);
    }
  }

  // ---------- one open view ----------

  /** A valid plan, a view that still lacks `y`, and an accepted expansion that brings `y`, depending on the task
      that waits for it. */
  lemma AcceptedExpansionClosesACycle() returns (plan: Plan, view: seq<Task>, e: Expansion, digests: Digests)
    ensures ValidPlan(plan, digests) && Acyclic(Nodes(view)) && !Closed(Nodes(view))
    ensures Applied(plan, e, Some(view), digests) == Ok(view + e.body.tasks)
    ensures IsCycle(Nodes(view + e.body.tasks), ["x", "y", "x"])
  {
    hide Acyclic, IsCycle;
    digests := Digests(_ => HASH, _ => HASH);
    plan := Plan(PlanBody([FROZEN], [Template("scan.l3", "scan.l3", {"frame"}, {})]), HASH);
    var x, y := Task("x", {"y"}, Deterministic, "", None), Task("y", {"x"}, Deterministic, "", None);
    view := [FROZEN, x];
    e := ExpansionWith(plan, [y], digests);
    FrozenAlone();
    OpenPair(view, y);
    FillersFit(view, [y], {"y"}, "y", {"x"});
    assert DependsOn(Nodes(view), "x", "y") && ["x", "y"] + ["x"] == ["x", "y", "x"];
    FillerClosesACycle(view, [y], ["x", "y"]);
    ExpansionIsAccepted(plan, view, [y], digests);
  }

  lemma OpenPair(view: seq<Task>, y: Task)
    requires view == [FROZEN, Task("x", {"y"}, Deterministic, "", None)]
             && y == Task("y", {"x"}, Deterministic, "", None)
    ensures UniqueIds(Nodes(view)) && Acyclic(Nodes(view)) && !Closed(Nodes(view))
    ensures TaskIds(view) == {"frame", "x"} && Missing(view) == {"y"} && Fills([y], {"y"}, "y", {"x"})
  {
    assert Nodes(view)[0].id == "frame" && Nodes(view)[1].id == "x" && Nodes([y])[0].id == "y";
    assert Ranks(Nodes(view), map["frame" := 0, "x" := 0]);
    assert view[1].deps == {"y"};
    ClosedExactlyWithoutMissing(view);
  }

  const HASH := "0123456789abcdef0123456789abcdef0123456789abcdef0123456789abcdef"
  const FROZEN := Task("frame", {}, Deterministic, "", None)

  lemma FrozenAlone()
    ensures Ids(Nodes([FROZEN])) == {"frame"} && UniqueIds(Nodes([FROZEN])) && Closed(Nodes([FROZEN]))
            && Acyclic(Nodes([FROZEN]))
  {
    assert Nodes([FROZEN])[0].id == "frame";
    assert Ranks(Nodes([FROZEN]), map["frame" := 0]);
  }
}
