/** Growing a frozen session plan by dynamic expansions (autoresearch/contracts/session_expansion.py
    and the plan and expansion checks of autoresearch/contracts/session_plan.py). */
module SessionExpansion {
  import opened Wrappers
  import opened TaskGraph

  datatype TaskKind = Inference | Deterministic

  datatype Task = Task(id: string, deps: set<string>, kind: TaskKind, role: string, subject: Option<string>)

  datatype Template = Template(id: string, expander: string, dependsOn: set<string>, allowedRoles: set<string>)

  datatype PlanBody = PlanBody(tasks: seq<Task>, templates: seq<Template>)

  datatype Plan = Plan(body: PlanBody, hash: string)

  datatype ExpansionBody = ExpansionBody(planHash: string, templateId: string, inputs: seq<string>, tasks: seq<Task>)

  datatype Expansion = Expansion(body: ExpansionBody, id: string, hash: string)

  /** The digests of a plan and of an expansion without their own hash and id fields. */
  datatype Digests = Digests(plan: PlanBody -> string, expansion: ExpansionBody -> string)

  datatype ExpansionError =
    | InvalidPlan
    | InvalidExpansion
    | PlanHashMismatch
    | ScopeMismatch
    | RoleNotAllowed
    | OmitsFrozenTasks
    | IdentityCollision
    | UnresolvedDependency

  const REGISTERED_EXPANDERS := {
    "scan.sectors", "scan.l3", "scan.l3.repair", "scan.l4", "scan.reviews", "scan.review3",
    "stock.optional_lenses", "scan.l4.two-stage-v1", "macro.sections", "sector.sections",
    "scan.reviews.per-stock-v1", "scan.review3.per-stock-v1", "scan.review.join"
  }

  const PER_STOCK_EXPANDERS := {"scan.reviews.per-stock-v1", "scan.review3.per-stock-v1"}

  function Nodes(tasks: seq<Task>): (nodes: seq<Node>)
    ensures |nodes| == |tasks|
    ensures forall i | 0 <= i < |tasks| :: nodes[i] == Node(tasks[i].id, tasks[i].deps)
  {
    seq(|tasks|, i requires 0 <= i < |tasks| => Node(tasks[i].id, tasks[i].deps))
  }

  function TaskIds(tasks: seq<Task>): set<string> { Ids(Nodes(tasks)) }

  function TemplateIds(templates: seq<Template>): set<string> { set i | 0 <= i < |templates| :: templates[i].id }

  // ---------- ids ----------

  predicate IsLowerOrDigit(c: char) { 'a' <= c <= 'z' || '0' <= c <= '9' }

  /** `[a-z0-9][a-z0-9_.-]{0,127}` */
  predicate IsId(s: string) {
    && 1 <= |s| <= 128 && IsLowerOrDigit(s[0])
    && forall i | 0 <= i < |s| :: IsLowerOrDigit(s[i]) || s[i] in ['_', '.', '-']
  }

  /** The checks of `validate_task` on the ids of a task. */
  predicate TaskOk(task: Task) {
    && IsId(task.id) && (forall d | d in task.deps :: IsId(d))
    && (task.kind.Inference? ==> IsId(task.role))
  }

  predicate TasksOk(tasks: seq<Task>) { forall i | 0 <= i < |tasks| :: TaskOk(tasks[i]) }

  predicate UniqueStrings(s: seq<string>) { forall i, j | 0 <= i < j < |s| :: s[i] != s[j] }

  // ---------- plan and expansion ----------

  /** The checks of `validate_plan` on templates and hash. */
  predicate TemplatesOk(plan: Plan, digests: Digests) {
    var ts, ids := plan.body.templates, TaskIds(plan.body.tasks);
    && (forall i | 0 <= i < |ts| :: IsId(ts[i].id) && ts[i].expander in REGISTERED_EXPANDERS)
    && (forall i, role | 0 <= i < |ts| && role in ts[i].allowedRoles :: IsId(role))
    && (forall i, j | 0 <= i < j < |ts| :: ts[i].id != ts[j].id)
    && TemplateIds(ts) !! ids
    && (forall i | 0 <= i < |ts| :: ts[i].dependsOn <= ids)
    && plan.hash == digests.plan(plan.body)
  }

  ghost predicate ValidPlan(plan: Plan, digests: Digests) {
    var nodes := Nodes(plan.body.tasks);
    TasksOk(plan.body.tasks) && UniqueIds(nodes) && Closed(nodes) && Acyclic(nodes) && TemplatesOk(plan, digests)
  }

  /** The checks of `validate_expansion` around the graph of its tasks. */
  predicate EnvelopeOk(e: Expansion, allowed: set<string>, digests: Digests) {
    && e.body.templateId in allowed
    && e.body.inputs != [] && UniqueStrings(e.body.inputs)
    && (forall i | 0 <= i < |e.body.inputs| :: IsId(e.body.inputs[i]))
    && e.body.tasks != [] && TasksOk(e.body.tasks)
    && e.hash == digests.expansion(e.body)
    && e.id == e.body.templateId + "-" + (if |e.hash| >= 16 then e.hash[..16] else e.hash)
  }

  ghost predicate ValidExpansion(e: Expansion, allowed: set<string>, digests: Digests) {
    var nodes := Nodes(e.body.tasks);
    EnvelopeOk(e, allowed, digests) && UniqueIds(nodes) && Acyclic(nodes)
  }

  function TemplateOf(templates: seq<Template>, id: string): Template
    requires id in TemplateIds(templates)
  {
    if templates[0].id == id then templates[0]
    else
      assert forall i | 1 <= i < |templates| :: templates[i] == templates[1..][i - 1];
      TemplateOf(templates[1..], id)
  }

  function WithoutFrame(inputs: seq<string>): seq<string> {
    if inputs == [] then []
    else (if inputs[0] == "research.frame" then [] else [inputs[0]]) + WithoutFrame(inputs[1..])
  }

  predicate IsStockCode(s: string) { |s| == 6 && forall i | 0 <= i < 6 :: '0' <= s[i] <= '9' }

  /** A review expansion for one stock has one input, and its tasks are about that stock. */
  predicate ScopeOk(template: Template, e: ExpansionBody) {
    template.expander in PER_STOCK_EXPANDERS ==>
      var prefix := "scan.review." + (if template.id == "scan.reviews" then "plan" else "decision");
      var inputs := WithoutFrame(e.inputs);
      && |inputs| == 1
      && (inputs[0] == prefix
          || (|inputs[0]| == |prefix| + 7 && inputs[0][..|prefix| + 1] == prefix + "."
              && IsStockCode(inputs[0][|prefix| + 1..])
              && forall i | 0 <= i < |e.tasks| :: e.tasks[i].subject == Some(inputs[0][|prefix| + 1..])))
  }

  predicate RolesOk(template: Template, tasks: seq<Task>) {
    forall i | 0 <= i < |tasks| :: tasks[i].kind.Inference? ==> tasks[i].role in template.allowedRoles
  }

  /** The combined view after one expansion, or the first check that fails. */
  ghost function Applied(plan: Plan, e: Expansion, existing: Option<seq<Task>>, digests: Digests)
    : Result<seq<Task>, ExpansionError>
  {
    var templates := plan.body.templates;
    var current := if existing.None? then plan.body.tasks else existing.value;
    var combined := current + e.body.tasks;
    if !ValidPlan(plan, digests) then Err(InvalidPlan)
    else if !ValidExpansion(e, TemplateIds(templates), digests) then Err(InvalidExpansion)
    else if e.body.planHash != plan.hash then Err(PlanHashMismatch)
    else if !ScopeOk(TemplateOf(templates, e.body.templateId), e.body) then Err(ScopeMismatch)
    else if !RolesOk(TemplateOf(templates, e.body.templateId), e.body.tasks) then Err(RoleNotAllowed)
    else if !(TaskIds(plan.body.tasks) <= TaskIds(current)) then Err(OmitsFrozenTasks)
    else if !UniqueIds(Nodes(combined)) then Err(IdentityCollision)
    else if !Closed(Nodes(combined)) then Err(UnresolvedDependency)
    else Ok(combined)
  }

  method ValidatePlan(plan: Plan, digests: Digests) returns (ok: bool)
    ensures ok <==> ValidPlan(plan, digests)
  {
    var error, _ := ValidateDag(Nodes(plan.body.tasks), false);
    ok := TasksOk(plan.body.tasks) && error.None? && TemplatesOk(plan, digests);
  }

  method ValidateExpansion(e: Expansion, allowed: set<string>, digests: Digests) returns (ok: bool)
    ensures ok <==> ValidExpansion(e, allowed, digests)
  {
    if !EnvelopeOk(e, allowed, digests) {
      return false;
    }
    var error, _ := ValidateDag(Nodes(e.body.tasks), true);
    ok := error.None?;
  }

  method ApplyExpansion(plan: Plan, e: Expansion, existing: Option<seq<Task>>, digests: Digests)
    returns (answer: Result<seq<Task>, ExpansionError>)
    ensures answer == Applied(plan, e, existing, digests)
    ensures answer.Ok? ==> (existing.None? ==> plan.body.tasks <= answer.value)
                           && (existing.Some? ==> existing.value <= answer.value)
  {
    var planOk := ValidatePlan(plan, digests);
    if !planOk {
      return Err(InvalidPlan);
    }
    var expansionOk := ValidateExpansion(e, TemplateIds(plan.body.templates), digests);
    if !expansionOk {
      return Err(InvalidExpansion);
    }
    if e.body.planHash != plan.hash {
      return Err(PlanHashMismatch);
    }
    var template := TemplateOf(plan.body.templates, e.body.templateId);
    if !ScopeOk(template, e.body) {
      return Err(ScopeMismatch);
    }
    if !RolesOk(template, e.body.tasks) {
      return Err(RoleNotAllowed);
    }
    var current := if existing.None? then plan.body.tasks else existing.value;
    if !(TaskIds(plan.body.tasks) <= TaskIds(current)) {
      return Err(OmitsFrozenTasks);
    }
    var combined := current + e.body.tasks;
    if !UniqueIds(Nodes(combined)) {
      return Err(IdentityCollision);
    }
    if !Closed(Nodes(combined)) {
      return Err(UnresolvedDependency);
    }
    return Ok(combined);
  }

  // ---------- two graphs side by side ----------

  lemma IdsConcat(a: seq<Node>, b: seq<Node>)
    ensures Ids(a + b) == Ids(a) + Ids(b)
  {
    forall x | x in Ids(a) + Ids(b) ensures x in Ids(a + b) {
      if x in Ids(a) {
        var i :| 0 <= i < |a| && a[i].id == x;
        assert (a + b)[i].id == x;
      } else {
        var i :| 0 <= i < |b| && b[i].id == x;
        assert (a + b)[|a| + i].id == x;
      }
    }
  }

  lemma {:induction false} RankBound(nodes: seq<Node>, rank: map<string, nat>) returns (bound: nat)
    requires forall i | 0 <= i < |nodes| :: nodes[i].id in rank
    ensures forall i | 0 <= i < |nodes| :: rank[nodes[i].id] < bound
    decreases |nodes|
  {
    if nodes == [] {
      bound := 0;
    } else {
      var rest := RankBound(nodes[1..], rank);
      bound := if rank[nodes[0].id] < rest then rest else rank[nodes[0].id] + 1;
      forall i | 0 <= i < |nodes| ensures rank[nodes[i].id] < bound {
        if i > 0 {
          assert nodes[i] == nodes[1..][i - 1];
        }
      }
    }
  }

  lemma AcyclicPart(a: seq<Node>, b: seq<Node>)
    requires Acyclic(a + b)
    ensures Acyclic(a)
  {
    var rank :| Ranks(a + b, rank);
    IdsConcat(a, b);
    assert Ranks(a, rank) by {
      forall i | 0 <= i < |a|
        ensures a[i].id in rank
        ensures forall d | d in a[i].deps && d in Ids(a) :: d in rank && rank[d] < rank[a[i].id]
      {
        assert (a + b)[i] == a[i];
      }
    }
  }

  /** Old nodes keep their rank; new ones are ranked above all of them. */
  lemma AcyclicUnion(a: seq<Node>, b: seq<Node>)
    requires UniqueIds(a + b) && Closed(a) && Acyclic(a) && Acyclic(b)
    ensures Acyclic(a + b)
  {
    var ra: map<string, nat> :| Ranks(a, ra);
    var rb: map<string, nat> :| Ranks(b, rb);
    var bound := RankBound(a, ra);
    IdsConcat(a, b);
    assert forall i | 0 <= i < |a| :: (a + b)[i] == a[i];
    assert forall j | 0 <= j < |b| :: (a + b)[|a| + j] == b[j];
    var rank := map x | x in Ids(a + b) :: if x in Ids(a) then ra[x] else bound + rb[x];
    forall k | 0 <= k < |a + b|
      ensures (a + b)[k].id in rank
      ensures forall d | d in (a + b)[k].deps && d in Ids(a + b) :: d in rank && rank[d] < rank[(a + b)[k].id]
    {
      if k < |a| {
        assert a[k].id in Ids(a);
      } else {
        var n := b[k - |a|];
        assert n.id in Ids(b) && n.id !in Ids(a) by {
          assert forall i | 0 <= i < |a| :: (a + b)[i].id != (a + b)[k].id;
        }
      }
    }
    assert Ranks(a + b, rank);
  }

  /** Appending a new acyclic batch to a closed view: the union has no cycle exactly when the view
      had none, although only the batch is checked for cycles. */
  lemma UnionIsAcyclicExactlyWhenViewIs(current: seq<Task>, batch: seq<Task>)
    requires UniqueIds(Nodes(current + batch)) && Closed(Nodes(current)) && Acyclic(Nodes(batch))
    ensures Acyclic(Nodes(current + batch)) <==> Acyclic(Nodes(current))
  {
    assert Nodes(current + batch) == Nodes(current) + Nodes(batch);
    if Acyclic(Nodes(current)) {
      AcyclicUnion(Nodes(current), Nodes(batch));
    }
    if Acyclic(Nodes(current + batch)) {
      AcyclicPart(Nodes(current), Nodes(batch));
    }
  }

  // ---------- any number of expansions ----------

  /** A view grown from the plan: the frozen tasks first and untouched, ids unique, every
      dependency resolved, no cycle. */
  ghost predicate Grown(plan: Plan, view: seq<Task>) {
    && plan.body.tasks <= view
    && UniqueIds(Nodes(view)) && Closed(Nodes(view)) && Acyclic(Nodes(view))
  }

  lemma ExpansionKeepsGrown(plan: Plan, e: Expansion, view: seq<Task>, digests: Digests)
    requires Grown(plan, view) && Applied(plan, e, Some(view), digests).Ok?
    ensures Grown(plan, Applied(plan, e, Some(view), digests).value)
    ensures view <= Applied(plan, e, Some(view), digests).value
  {
    UnionIsAcyclicExactlyWhenViewIs(view, e.body.tasks);
  }

  /** Feed each combined view back as the existing tasks of the next expansion. */
  ghost function Grow(plan: Plan, view: seq<Task>, es: seq<Expansion>, digests: Digests)
    : Result<seq<Task>, ExpansionError>
    decreases |es|
  {
    if es == [] then Ok(view)
    else
      var next := Applied(plan, es[0], Some(view), digests);
      if next.Err? then next else Grow(plan, next.value, es[1..], digests)
  }

  /** After any number of accepted expansions of a valid plan the view is a closed graph without
      cycles that starts with the frozen tasks, unchanged. */
  lemma {:induction false} AnyNumberOfExpansions(plan: Plan, view: seq<Task>, es: seq<Expansion>, digests: Digests)
    requires Grown(plan, view) && Grow(plan, view, es, digests).Ok?
    ensures Grown(plan, Grow(plan, view, es, digests).value)
    ensures view <= Grow(plan, view, es, digests).value
    decreases |es|
  {
    if es != [] {
      ExpansionKeepsGrown(plan, es[0], view, digests);
      AnyNumberOfExpansions(plan, Applied(plan, es[0], Some(view), digests).value, es[1..], digests);
    }
  }

  /** ... in particular starting from the plan itself, by the view and by its walks. */
  lemma ExpandedPlanIsAClosedDag(plan: Plan, es: seq<Expansion>, digests: Digests)
    requires ValidPlan(plan, digests) && Grow(plan, plan.body.tasks, es, digests).Ok?
    ensures var view := Grow(plan, plan.body.tasks, es, digests).value;
            && plan.body.tasks <= view
            && UniqueIds(Nodes(view)) && Closed(Nodes(view))
            && !exists walk :: IsCycle(Nodes(view), walk)
  {
    AnyNumberOfExpansions(plan, plan.body.tasks, es, digests);
    AcyclicExactlyWithoutCycles(Nodes(Grow(plan, plan.body.tasks, es, digests).value));
  }
}
