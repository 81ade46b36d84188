/** Which plans and which expansions are valid (autoresearch/contracts/session_plan.py), on their own fields: the
    characters of an id, the registered expanders, ids that are there twice, missing dependencies and cycles. */
module PlanRules {
  import opened TaskGraph
  import opened SessionExpansion
  import opened ExpansionRules

  /** At most 128 lower-case letters, digits, underscores, dots and dashes, the first of them a letter or a digit. */
  predicate Name(s: string) {
    && s != "" && |s| < 129
    && s[0] in "abcdefghijklmnopqrstuvwxyz0123456789"
    && forall c | c in s :: c in "abcdefghijklmnopqrstuvwxyz0123456789_.-"
  }

  predicate Expander(s: string) {
    s in ["macro.sections", "scan.l3", "scan.l3.repair", "scan.l4", "scan.l4.two-stage-v1", "scan.review.join",
          "scan.review3", "scan.review3.per-stock-v1", "scan.reviews", "scan.reviews.per-stock-v1", "scan.sectors",
          "sector.sections", "stock.optional_lenses"]
  }

  predicate TaskNamed(task: Task) {
    && Name(task.id) && (forall d | d in task.deps :: Name(d))
    && (task.kind == Inference ==> Name(task.role))
  }

  predicate TemplateInOrder(template: Template, tasks: seq<Task>) {
    && Name(template.id) && Expander(template.expander) && Absent(template.id, tasks)
    && (forall role | role in template.allowedRoles :: Name(role))
    && (forall d | d in template.dependsOn :: !Absent(d, tasks))
  }

  predicate TemplateTwice(templates: seq<Template>) {
    exists i, j :: 0 <= i < j < |templates| && templates[i].id == templates[j].id
  }

  predicate InputTwice(inputs: seq<string>) { exists i, j :: 0 <= i < j < |inputs| && inputs[i] == inputs[j] }

  ghost predicate Cycle(tasks: seq<Task>) { exists walk :: IsCycle(Nodes(tasks), walk) }

  lemma LetterIs(c: char)
    ensures 'a' <= c <= 'z' <==> c in "abcdefghijklmnopqrstuvwxyz"
  {
    InEither(c, "abcdefghijklm", "nopqrstuvwxyz");
    assert "abcdefghijklmnopqrstuvwxyz" == "abcdefghijklm" + "nopqrstuvwxyz";
    if 'a' <= c <= 'm' {
      assert "abcdefghijklm"[c as int - 'a' as int] == c;
    } else if 'n' <= c <= 'z' {
      assert "nopqrstuvwxyz"[c as int - 'n' as int] == c;
    }
  }

  lemma LetterOrDigit(c: char)
    ensures IsLowerOrDigit(c) <==> c in "abcdefghijklmnopqrstuvwxyz0123456789"
  {
    LetterIs(c);
    InEither(c, "abcdefghijklmnopqrstuvwxyz", "0123456789");
    assert "abcdefghijklmnopqrstuvwxyz0123456789" == "abcdefghijklmnopqrstuvwxyz" + "0123456789";
  }

  lemma InEither(c: char, s: string, t: string)
    ensures c in s + t <==> c in s || c in t
  {
  }

  lemma NamesAreIds(s: string)
    ensures IsId(s) <==> Name(s)
  {
    forall c ensures IsLowerOrDigit(c) || c in ['_', '.', '-'] <==> c in "abcdefghijklmnopqrstuvwxyz0123456789_.-" {
      LetterOrDigit(c);
      InEither(c, "abcdefghijklmnopqrstuvwxyz0123456789", "_.-");
      assert "abcdefghijklmnopqrstuvwxyz0123456789_.-" == "abcdefghijklmnopqrstuvwxyz0123456789" + "_.-";
    }
    if s != "" {
      LetterOrDigit(s[0]);
    }
  }

  lemma NamedTasksAreOk(tasks: seq<Task>)
    ensures TasksOk(tasks) <==> forall task | task in tasks :: TaskNamed(task)
  {
    hide IsId, Name;
    forall s ensures IsId(s) <==> Name(s) { NamesAreIds(s); }
    assert forall task :: TaskOk(task) <==> TaskNamed(task);
    assert forall i | 0 <= i < |tasks| :: tasks[i] in tasks;
  }

  lemma TemplatesInOrder(plan: Plan, digests: Digests)
    ensures TemplatesOk(plan, digests)
            <==> && (forall template | template in plan.body.templates :: TemplateInOrder(template, plan.body.tasks))
                 && !TemplateTwice(plan.body.templates) && plan.hash == digests.plan(plan.body)
  {
    hide IsId, Name;
    var ts, tasks := plan.body.templates, plan.body.tasks;
    forall s ensures IsId(s) <==> Name(s) { NamesAreIds(s); }
    AbsentIsNoId(tasks);
    assert forall t: Template :: t.dependsOn <= TaskIds(tasks) <==> forall d | d in t.dependsOn :: !Absent(d, tasks);
    assert forall i | 0 <= i < |ts| :: ts[i] in ts && ts[i].id in TemplateIds(ts);
  }

  /** A plan is valid if and only if its ids are in order and there once, its dependencies are there, no walk along them
      closes, its templates are in order, and it has its own digest. */
  lemma PlanIsValidExactlyWhen(plan: Plan, digests: Digests)
    ensures ValidPlan(plan, digests)
            <==> && (forall task | task in plan.body.tasks :: TaskNamed(task))
                 && !Twice(plan.body.tasks) && !Dangling(plan.body.tasks) && !Cycle(plan.body.tasks)
                 && (forall template | template in plan.body.templates :: TemplateInOrder(template, plan.body.tasks))
                 && !TemplateTwice(plan.body.templates) && plan.hash == digests.plan(plan.body)
  {
    hide TasksOk, TemplatesOk, TaskNamed, TemplateInOrder, TemplateTwice, Twice, Dangling, UniqueIds, Closed, Acyclic;
    NamedTasksAreOk(plan.body.tasks);
    TwiceIsNotUnique(plan.body.tasks);
    DanglingIsNotClosed(plan.body.tasks);
    if UniqueIds(Nodes(plan.body.tasks)) {
      AcyclicExactlyWithoutCycles(Nodes(plan.body.tasks));
    }
    TemplatesInOrder(plan, digests);
  }

  /** An expansion is valid if and only if it names an allowed template, has inputs, each a name that is there once, and
      tasks in order whose dependencies among each other do not close, and carries its own digest, in its id as well. */
  lemma ExpansionIsValidExactlyWhen(e: Expansion, allowed: set<string>, digests: Digests)
    requires |digests.expansion(e.body)| == 64
    ensures ValidExpansion(e, allowed, digests)
            <==> && e.body.templateId in allowed
                 && e.body.inputs != [] && (forall input | input in e.body.inputs :: Name(input))
                 && !InputTwice(e.body.inputs)
                 && e.body.tasks != [] && (forall task | task in e.body.tasks :: TaskNamed(task))
                 && !Twice(e.body.tasks) && !Cycle(e.body.tasks)
                 && e.hash == digests.expansion(e.body)
                 && e.id == e.body.templateId + "-" + digests.expansion(e.body)[..16]
  {
    hide IsId, Name, TasksOk, TaskNamed, Twice, UniqueIds, Acyclic;
    NamedTasksAreOk(e.body.tasks);
    TwiceIsNotUnique(e.body.tasks);
    if UniqueIds(Nodes(e.body.tasks)) {
      AcyclicExactlyWithoutCycles(Nodes(e.body.tasks));
    }
    forall s ensures IsId(s) <==> Name(s) { NamesAreIds(s); }
  }
}
