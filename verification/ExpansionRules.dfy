/** Which expansions `apply_expansion` (autoresearch/contracts/session_expansion.py) lets in: the roles a template
    lists, and the one stock that a review for one stock is about. */
module ExpansionRules {
  import opened Wrappers
  import opened TaskGraph
  import opened SessionExpansion

  // ---------- roles ----------

  /** Every inference task has a role the template lists. */
  predicate RolesListed(template: Template, tasks: seq<Task>) {
    forall i, role | 0 <= i < |tasks| && tasks[i].kind == Inference && tasks[i].role == role ::
      role in template.allowedRoles
  }

  // ---------- one stock ----------

  /** Of the inputs one is named so, and the others are the frame. */
  predicate OneInput(inputs: seq<string>, name: string) {
    exists i :: 0 <= i < |inputs| && inputs[i] == name != "research.frame"
      && forall j | 0 <= j < |inputs| && j != i :: inputs[j] == "research.frame"
  }

  /** The input of a review of nothing in particular. */
  function Sentinel(template: Template): string {
    if template.id == "scan.reviews" then "scan.review.plan" else "scan.review.decision"
  }

  predicate SixDecimals(code: string) { |code| == 6 && forall i | 0 <= i < 6 :: code[i] in "0123456789" }

  /** A review of nothing in particular, or of one stock that all its tasks are about. */
  ghost predicate AboutOneStock(template: Template, inputs: seq<string>, tasks: seq<Task>) {
    || OneInput(inputs, Sentinel(template))
    || exists code :: SixDecimals(code) && OneInput(inputs, Sentinel(template) + "." + code)
         && forall i | 0 <= i < |tasks| :: tasks[i].subject == Some(code)
  }

  lemma {:induction false} FrameOnly(inputs: seq<string>)
    ensures WithoutFrame(inputs) == [] <==> forall j | 0 <= j < |inputs| :: inputs[j] == "research.frame"
    decreases |inputs|
  {
    if inputs != [] {
      FrameOnly(inputs[1..]);
      assert forall j | 1 <= j < |inputs| :: inputs[j] == inputs[1..][j - 1];
      assert forall j | 0 <= j < |inputs[1..]| :: inputs[1..][j] == inputs[j + 1];
    }
  }

  lemma {:induction false} OneInputIsLeft(inputs: seq<string>, name: string)
    ensures WithoutFrame(inputs) == [name] <==> OneInput(inputs, name)
    decreases |inputs|
  {
    if inputs != [] {
      var rest := inputs[1..];
      FrameOnly(rest);
      OneInputIsLeft(rest, name);
      if inputs[0] == "research.frame" {
        assert WithoutFrame(inputs) == [] + WithoutFrame(rest) == WithoutFrame(rest);
        FrameFirst(inputs, name);
      } else {
        var left := WithoutFrame(inputs);
        assert left == [inputs[0]] + WithoutFrame(rest) && left[1..] == WithoutFrame(rest);
        assert left == [name] <==> left[0] == name && left[1..] == [];
        OtherFirst(inputs, name);
      }
    }
  }

  lemma FrameFirst(inputs: seq<string>, name: string)
    requires inputs != [] && inputs[0] == "research.frame"
    ensures OneInput(inputs, name) <==> OneInput(inputs[1..], name)
  {
    var rest := inputs[1..];
    if OneInput(rest, name) {
      var i :| 0 <= i < |rest| && rest[i] == name != "research.frame"
        && forall j | 0 <= j < |rest| && j != i :: rest[j] == "research.frame";
      assert inputs[i + 1] == name;
      assert forall j | 1 <= j < |inputs| && j != i + 1 :: inputs[j] == rest[j - 1];
    }
    if OneInput(inputs, name) {
      var i :| 0 <= i < |inputs| && inputs[i] == name != "research.frame"
        && forall j | 0 <= j < |inputs| && j != i :: inputs[j] == "research.frame";
      assert rest[i - 1] == name;
    }
  }

  lemma OtherFirst(inputs: seq<string>, name: string)
    requires inputs != [] && inputs[0] != "research.frame"
    ensures OneInput(inputs, name)
            <==> inputs[0] == name && forall j | 0 <= j < |inputs[1..]| :: inputs[1..][j] == "research.frame"
  {
    var rest := inputs[1..];
    if OneInput(inputs, name) {
      var i :| 0 <= i < |inputs| && inputs[i] == name != "research.frame"
        && forall j | 0 <= j < |inputs| && j != i :: inputs[j] == "research.frame";
      assert i == 0;
    }
    if inputs[0] == name && forall j | 0 <= j < |rest| :: rest[j] == "research.frame" {
      assert forall j | 1 <= j < |inputs| :: inputs[j] == rest[j - 1];
      assert OneInput(inputs, name);
    }
  }

  lemma ScopeMeansOneStock(template: Template, e: ExpansionBody)
    ensures ScopeOk(template, e)
            <==> template.expander in {"scan.reviews.per-stock-v1", "scan.review3.per-stock-v1"}
                 ==> AboutOneStock(template, e.inputs, e.tasks)
  {
    var prefix := "scan.review." + (if template.id == "scan.reviews" then "plan" else "decision");
    assert prefix == Sentinel(template);
    OneInputIsLeft(e.inputs, prefix);
    var left := WithoutFrame(e.inputs);
    if template.expander in PER_STOCK_EXPANDERS {
      if ScopeOk(template, e) && left[0] != prefix {
        var code := left[0][|prefix| + 1..];
        OneInputIsLeft(e.inputs, left[0]);
        assert left[0] == prefix + "." + code && left == [left[0]];
        assert SixDecimals(code);
      }
      if !OneInput(e.inputs, prefix) && AboutOneStock(template, e.inputs, e.tasks) {
        var code :| SixDecimals(code) && OneInput(e.inputs, Sentinel(template) + "." + code)
          && forall i | 0 <= i < |e.tasks| :: e.tasks[i].subject == Some(code);
        OneInputIsLeft(e.inputs, prefix + "." + code);
        assert left[0][|prefix| + 1..] == code;
      }
    }
  }

  // ---------- what is accepted ----------

  lemma {:induction false} TemplateIsOf(templates: seq<Template>, k: nat)
    requires k < |templates| && forall i, j | 0 <= i < j < |templates| :: templates[i].id != templates[j].id
    ensures templates[k].id in TemplateIds(templates) && TemplateOf(templates, templates[k].id) == templates[k]
    decreases k
  {
    assert templates[k].id in TemplateIds(templates);
    if k > 0 {
      assert templates[1..][k - 1] == templates[k];
      TemplateIsOf(templates[1..], k - 1);
    }
  }

  /** An expansion that is in order but for its scope and its roles is let in if and only if the template it names lists
      the role of every inference task and, for a review of one stock, its input and its tasks are about one. */
  lemma LetInExactlyWhen(plan: Plan, e: Expansion, view: seq<Task>, digests: Digests, k: nat)
    requires ValidPlan(plan, digests) && ValidExpansion(e, TemplateIds(plan.body.templates), digests)
    requires e.body.planHash == plan.hash && k < |plan.body.templates|
    requires plan.body.templates[k].id == e.body.templateId
    requires TaskIds(plan.body.tasks) <= TaskIds(view)
    requires UniqueIds(Nodes(view + e.body.tasks)) && Closed(Nodes(view + e.body.tasks))
    ensures var template, answer := plan.body.templates[k], Applied(plan, e, Some(view), digests);
            var scoped := template.expander in {"scan.reviews.per-stock-v1", "scan.review3.per-stock-v1"}
                          ==> AboutOneStock(template, e.body.inputs, e.body.tasks);
            && (answer.Ok? <==> scoped && RolesListed(template, e.body.tasks))
            && (answer.Ok? ==> answer.value == view + e.body.tasks)
            && (answer.Err? ==> answer.error == if scoped then RoleNotAllowed else ScopeMismatch)
  {
    hide UniqueIds, Closed, Acyclic, AboutOneStock;
    TemplateIsOf(plan.body.templates, k);
    ScopeMeansOneStock(plan.body.templates[k], e.body);
  }

  /** Whatever is let in names a template of the plan that lists all its roles, for this very plan. */
  lemma LetInRolesAreListed(plan: Plan, e: Expansion, existing: Option<seq<Task>>, digests: Digests) returns (k: nat)
    requires Applied(plan, e, existing, digests).Ok?
    ensures k < |plan.body.templates| && plan.body.templates[k].id == e.body.templateId
    ensures RolesListed(plan.body.templates[k], e.body.tasks) && e.body.planHash == plan.hash
    ensures plan.body.templates[k].expander in {"scan.reviews.per-stock-v1", "scan.review3.per-stock-v1"}
            ==> AboutOneStock(plan.body.templates[k], e.body.inputs, e.body.tasks)
  {
    assert e.body.templateId in TemplateIds(plan.body.templates);
    k :| 0 <= k < |plan.body.templates| && plan.body.templates[k].id == e.body.templateId;
    TemplateIsOf(plan.body.templates, k);
    ScopeMeansOneStock(plan.body.templates[k], e.body);
  }

  /** What comes before: an invalid plan, an invalid expansion, and an expansion of another plan, in this order. */
  lemma RefusedBeforeScope(plan: Plan, e: Expansion, existing: Option<seq<Task>>, digests: Digests)
    ensures var answer := Applied(plan, e, existing, digests);
            && (answer == Err(InvalidPlan) <==> !ValidPlan(plan, digests))
            && (answer == Err(InvalidExpansion)
                <==> ValidPlan(plan, digests) && !ValidExpansion(e, TemplateIds(plan.body.templates), digests))
            && (answer == Err(PlanHashMismatch)
                <==> ValidPlan(plan, digests) && ValidExpansion(e, TemplateIds(plan.body.templates), digests)
                     && e.body.planHash != plan.hash)
  {
    hide UniqueIds, Closed, Acyclic;
  }

  /** What goes wrong in the graph, after scope and roles: a frozen task left out, an id that is there already, a
      dependency that is nowhere. */
  lemma GraphErrors(plan: Plan, e: Expansion, view: seq<Task>, digests: Digests, k: nat)
    requires ValidPlan(plan, digests) && ValidExpansion(e, TemplateIds(plan.body.templates), digests)
    requires e.body.planHash == plan.hash && k < |plan.body.templates|
    requires plan.body.templates[k].id == e.body.templateId && RolesListed(plan.body.templates[k], e.body.tasks)
    requires plan.body.templates[k].expander !in {"scan.reviews.per-stock-v1", "scan.review3.per-stock-v1"}
    ensures var answer := Applied(plan, e, Some(view), digests);
            if exists i :: 0 <= i < |plan.body.tasks| && Absent(plan.body.tasks[i].id, view)
            then answer == Err(OmitsFrozenTasks)
            else if Twice(view + e.body.tasks) then answer == Err(IdentityCollision)
            else if Dangling(view + e.body.tasks) then answer == Err(UnresolvedDependency)
            else answer == Ok(view + e.body.tasks)
  {
    TemplateIsOf(plan.body.templates, k);
    ScopeMeansOneStock(plan.body.templates[k], e.body);
    FrozenAreThere(plan.body.tasks, view);
    TwiceIsNotUnique(view + e.body.tasks);
    DanglingIsNotClosed(view + e.body.tasks);
  }

  predicate Absent(id: string, tasks: seq<Task>) { forall j | 0 <= j < |tasks| :: tasks[j].id != id }

  /** Two tasks have one id. */
  predicate Twice(tasks: seq<Task>) { exists i, j :: 0 <= i < j < |tasks| && tasks[i].id == tasks[j].id }

  /** A task depends on an id no task has. */
  predicate Dangling(tasks: seq<Task>) { exists i, d :: 0 <= i < |tasks| && d in tasks[i].deps && Absent(d, tasks) }

  lemma FrozenAreThere(frozen: seq<Task>, view: seq<Task>)
    ensures TaskIds(frozen) <= TaskIds(view) <==> !exists i :: 0 <= i < |frozen| && Absent(frozen[i].id, view)
  {
    AbsentIsNoId(view);
    if TaskIds(frozen) <= TaskIds(view) {
      forall i | 0 <= i < |frozen| ensures !Absent(frozen[i].id, view) {
        assert Nodes(frozen)[i].id in TaskIds(frozen);
      }
    }
  }

  lemma AbsentIsNoId(tasks: seq<Task>)
    ensures forall id :: Absent(id, tasks) <==> id !in TaskIds(tasks)
  {
    forall id ensures Absent(id, tasks) <==> id !in TaskIds(tasks) {
      if !Absent(id, tasks) {
        var j :| 0 <= j < |tasks| && tasks[j].id == id;
        assert Nodes(tasks)[j].id == id;
      }
      if id in TaskIds(tasks) {
        var j :| 0 <= j < |Nodes(tasks)| && Nodes(tasks)[j].id == id;
        assert tasks[j].id == id;
      }
    }
  }

  lemma TwiceIsNotUnique(tasks: seq<Task>)
    ensures Twice(tasks) <==> !UniqueIds(Nodes(tasks))
  {
    if Twice(tasks) {
      var i, j :| 0 <= i < j < |tasks| && tasks[i].id == tasks[j].id;
      assert Nodes(tasks)[i].id == Nodes(tasks)[j].id;
    }
    if !UniqueIds(Nodes(tasks)) {
      var i, j :| 0 <= i < j < |tasks| && Nodes(tasks)[i].id == Nodes(tasks)[j].id;
      assert tasks[i].id == tasks[j].id;
    }
  }

  lemma DanglingIsNotClosed(tasks: seq<Task>)
    ensures Dangling(tasks) <==> !Closed(Nodes(tasks))
  {
    AbsentIsNoId(tasks);
    if Dangling(tasks) {
      var i, d :| 0 <= i < |tasks| && d in tasks[i].deps && Absent(d, tasks);
      assert d in Nodes(tasks)[i].deps && d !in Ids(Nodes(tasks));
    }
    if !Closed(Nodes(tasks)) {
      var i :| 0 <= i < |tasks| && !(Nodes(tasks)[i].deps <= Ids(Nodes(tasks)));
      var d :| d in Nodes(tasks)[i].deps && d !in Ids(Nodes(tasks));
      assert d in tasks[i].deps && Absent(d, tasks);
    }
  }
}
