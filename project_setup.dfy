/** Creating a project from a prompt: the checks on the prompt, the project
    row, and one pending ProjectStep row per step of the improved plan. */
module ProjectSetup {
  import opened Wrappers
  import opened Text
  import opened Json
  import opened Models

  /** `_normalize_deliverables(value)`, `value` being the step's "deliverables"
      entry (None when the key is absent) and `dumps` standing for
      `json.dumps`: no text for a missing or null value, the JSON text of a
      list or an object, `str(value)` for another non-string, and a string
      as it is. */
  function NormalizeDeliverables(value: Option<Json>, dumps: Json -> string): (r: Option<string>)
    ensures r.None? <==> value.None? || value.value.JNull?
    ensures value.Some? && value.value.JStr? ==> r == Some(value.value.s)
    ensures value.Some? && (value.value.JArr? || value.value.JObj?) ==> r == Some(dumps(value.value))
    ensures value.Some? && value.value.JBool? ==> r == Some(if value.value.b then "True" else "False")
    ensures value.Some? && value.value.JNum? ==> r == Some(IntToDecimal(value.value.n))
  {
    match value
    case None => None
    case Some(v) =>
      match v
      case JNull => None
      case JArr(_) => Some(dumps(v))
      case JObj(_) => Some(dumps(v))
      case JBool(b) => Some(if b then "True" else "False")
      case JNum(n) => Some(IntToDecimal(n))
      case JStr(s) => Some(s)
  }

  /** One element of the plan's "steps" list; a field is None when its key is
      absent. */
  datatype PlannedStep = PlannedStep(
    number: Option<int>,
    title: Option<string>,
    details: Option<string>,
    deliverables: Option<Json>)

  /** The ProjectStep row created for a planned step of project `pid`. */
  function StepFromPlan(pid: nat, p: PlannedStep, dumps: Json -> string): (s: Step)
    ensures s.projectId == pid && s.status == Pending
    ensures s.number == (if p.number.Some? then p.number.value else 1)
    ensures s.title == (if p.title.Some? then p.title.value else "Untitled Step")
    ensures s.details == (if p.details.Some? then p.details.value else "")
    ensures s.deliverables == NormalizeDeliverables(p.deliverables, dumps)
  {
    Step(pid, p.number.GetOr(1), p.title.GetOr("Untitled Step"), p.details.GetOr(""),
         NormalizeDeliverables(p.deliverables, dumps), Pending)
  }

  /** The step table after adding one row per planned step, in plan order,
      with the ids `first`, `first + 1`, ... */
  function AddSteps(steps: map<nat, Step>, pid: nat, plan: seq<PlannedStep>, first: nat,
                    dumps: Json -> string): map<nat, Step>
    decreases |plan|
  {
    if plan == [] then steps
    else
      AddSteps(steps, pid, plan[..|plan| - 1], first, dumps)[first + |plan| - 1 := StepFromPlan(pid, plan[|plan| - 1], dumps)]
  }

  /** Adding the first `i + 1` planned steps is adding the first `i` and then
      the row for `plan[i]`. */
  lemma AddStepsStep(steps: map<nat, Step>, pid: nat, plan: seq<PlannedStep>, i: nat, first: nat,
                     dumps: Json -> string)
    requires i < |plan|
    ensures AddSteps(steps, pid, plan[..i + 1], first, dumps) ==
      AddSteps(steps, pid, plan[..i], first, dumps)[first + i := StepFromPlan(pid, plan[i], dumps)]
  {
    assert plan[..i + 1][..i] == plan[..i];
  }

  /** The rows added for a plan: one per planned step at consecutive ids
      after the existing ones, each built from its planned step (and so
      pending), with the existing rows left as they were. */
  lemma {:induction false} AddStepsRows(steps: map<nat, Step>, pid: nat, plan: seq<PlannedStep>, first: nat,
                                        dumps: Json -> string)
    requires forall id :: id in steps ==> id < first
    ensures var t := AddSteps(steps, pid, plan, first, dumps);
      (forall id :: id in t <==> id in steps || first <= id < first + |plan|) &&
      (forall id :: id in steps ==> t[id] == steps[id]) &&
      (forall k :: 0 <= k < |plan| ==> t[first + k] == StepFromPlan(pid, plan[k], dumps))
    decreases |plan|
  {
    if plan != [] {
      var init := plan[..|plan| - 1];
      AddStepsRows(steps, pid, init, first, dumps);
      forall k | 0 <= k < |init| ensures init[k] == plan[k] { }
    }
  }

  /** What `improve_prompt` hands back: the improved prompt and the plan. */
  datatype Improved = Improved(improvedPrompt: string, plan: seq<PlannedStep>)

  datatype CreateError = PromptRequired | NotCodeRelated

  /** The answer to a generation request: the new project's id, or the
      reason for a 400. */
  datatype Created = Created(projectId: nat) | Rejected(error: CreateError)

  /** The project row created for an accepted prompt. */
  function NewProject(userId: nat, stamp: string, prompt: string, improvedPrompt: string): Project {
    Project(userId, "Project " + stamp, prompt, improvedPrompt, ProjectInProgress)
  }

  /** `generate_code` up to the start of the background run: the prompt is
      stripped and must not be empty, the intent check (`codeRelated`) must
      accept it, and then the project and one pending step per planned step
      are created. `stamp` is the `%Y-%m-%d %H:%M` rendering of the time. */
  method GenerateCode(db: Store, userId: nat, prompt: string, codeRelated: string -> bool,
                      improve: string -> Improved, stamp: string, dumps: Json -> string) returns (r: Created)
    requires db.Valid()
    modifies db
    ensures db.Valid()
    ensures Blank(prompt) ==> r == Rejected(PromptRequired)
    ensures !Blank(prompt) && !codeRelated(Strip(prompt)) ==> r == Rejected(NotCodeRelated)
    ensures r.Rejected? ==>
      db.projects == old(db.projects) && db.steps == old(db.steps) &&
      db.nextProjectId == old(db.nextProjectId) && db.nextStepId == old(db.nextStepId)
    ensures !Blank(prompt) && codeRelated(Strip(prompt)) ==>
      var pid := old(db.nextProjectId);
      var improved := improve(Strip(prompt));
      r == Created(pid) &&
      db.projects == old(db.projects)[pid := NewProject(userId, stamp, Strip(prompt), improved.improvedPrompt)] &&
      db.steps == AddSteps(old(db.steps), pid, improved.plan, old(db.nextStepId), dumps) &&
      db.nextProjectId == pid + 1 && db.nextStepId == old(db.nextStepId) + |improved.plan|
    ensures db.codeFiles == old(db.codeFiles) && db.staging == old(db.staging)
    ensures db.zips == old(db.zips) && db.log == old(db.log)
  {
    var text := Strip(prompt);
    if text == [] {
      return Rejected(PromptRequired);
    }
    if !codeRelated(text) {
      return Rejected(NotCodeRelated);
    }
    var improved := improve(text);
    var pid := db.nextProjectId;
    db.projects := db.projects[pid := NewProject(userId, stamp, text, improved.improvedPrompt)];
    db.nextProjectId := pid + 1;
    CreateSteps(db, pid, improved.plan, dumps);
    r := Created(pid);
  }

  /** The loop that adds one pending step per planned step. */
  method CreateSteps(db: Store, pid: nat, plan: seq<PlannedStep>, dumps: Json -> string)
    requires forall id :: id in db.steps ==> id < db.nextStepId
    modifies db
    ensures db.steps == AddSteps(old(db.steps), pid, plan, old(db.nextStepId), dumps)
    ensures db.nextStepId == old(db.nextStepId) + |plan|
    ensures forall id :: id in db.steps ==> id < db.nextStepId
    ensures db.projects == old(db.projects) && db.nextProjectId == old(db.nextProjectId)
    ensures db.codeFiles == old(db.codeFiles) && db.staging == old(db.staging)
    ensures db.zips == old(db.zips) && db.log == old(db.log)
  {
    var first, existing := db.nextStepId, db.steps;
    var steps := existing;
    var i := 0;
    while i < |plan|
      invariant 0 <= i <= |plan|
      invariant steps == AddSteps(existing, pid, plan[..i], first, dumps)
      modifies {}
    {
      steps := steps[first + i := StepFromPlan(pid, plan[i], dumps)];
      AddStepsStep(existing, pid, plan, i, first, dumps);
      i := i + 1;
    }
    assert plan[..i] == plan;
    AddStepsRows(existing, pid, plan, first, dumps);
    forall id | id in steps ensures id < first + |plan| {
      assert id in existing || first <= id < first + |plan|;
    }
    db.steps, db.nextStepId := steps, first + |plan|;
  }
}
