/** The background run: every step of the project generated in order, the
    project's status settled from the outcomes, and the project packaged when
    every step completed. */
module GenerationRun {
  import opened Wrappers
  import opened Text
  import opened Json
  import opened Models
  import opened StepExecutor
  import opened ZipService
  import opened StepOrdering

  /** The step's title and deliverables lines, each only when the field is
      not empty (the fields are not stripped). */
  function FallbackBits(step: Step): seq<string> {
    (if step.title != [] then ["Title: " + step.title] else []) +
    (if step.deliverables.Some? && step.deliverables.value != [] then ["Deliverables: " + step.deliverables.value] else [])
  }

  /** The instruction the run hands to `generate_step`: the stripped details,
      or else the title and deliverables lines, or else "Implement step #n". */
  function InstructionText(step: Step): string {
    var details := Strip(step.details);
    if details != [] then details
    else
      var joined := Strip(Join(FallbackBits(step), "\n"));
      if joined != [] then joined else FallbackInstruction(step.number)
  }

  function FallbackInstruction(number: int): string {
    "Implement step #" + IntToDecimal(number)
  }

  /** The instruction starts and ends with a character that is not
      whitespace: it is never blank, and `generate_step`'s own fallback
      leaves it as it is, so the model receives exactly this text. */
  lemma InstructionUsedAsIs(step: Step)
    ensures !Blank(InstructionText(step))
    ensures StepText(InstructionText(step), step) == InstructionText(step)
  {
    var t := InstructionText(step);
    InstructionTrimmed(step);
    StripStripped(t);
    NotBlank(t, 0);
  }

  /** The instruction is not empty and neither starts nor ends with
      whitespace. */
  lemma InstructionTrimmed(step: Step)
    ensures var t := InstructionText(step);
      t != [] && !IsSpace(t[0]) && !IsSpace(t[|t| - 1])
  {
    if Strip(step.details) == [] && Strip(Join(FallbackBits(step), "\n")) == [] {
      FallbackTrimmed(step.number);
    }
  }

  lemma FallbackTrimmed(number: int)
    ensures var f := FallbackInstruction(number);
      f != [] && !IsSpace(f[0]) && !IsSpace(f[|f| - 1])
  {
    var f := FallbackInstruction(number);
    var d := IntToDecimal(number);
    assert f[|f| - 1] == d[|d| - 1];
    assert IsDigit(d[|d| - 1]);
  }

  /** For a step with blank details, "Implement step #n" is sent exactly when
      the title is empty and there are no deliverables. */
  lemma FallbackIff(step: Step)
    requires Blank(step.details)
    ensures InstructionText(step) == FallbackInstruction(step.number) <==>
      step.title == [] && (step.deliverables.None? || step.deliverables.value == [])
  {
    var bits := FallbackBits(step);
    if bits != [] {
      var joined := Join(bits, "\n");
      assert joined[0] == bits[0][0];
      assert !IsSpace(joined[0]);
      assert LeadingCount(joined, IsSpace) == 0;
      assert Strip(joined) != [] && Strip(joined)[0] == bits[0][0];
      assert FallbackInstruction(step.number)[0] == 'I';
    }
  }

  /** What `generate_step` does with an existing step: its result, the
      CodeFile table and staging trees after it, the instruction it sent and
      the number of model calls. */
  datatype Outcome = Outcome(result: StepResult, after: StepState, text: string, calls: nat)

  /** The type of `generate_step` seen from the run, for project `pid`. */
  type Executor = (nat, Step, StepState) -> Outcome

  /** `generate_step` called by the run for project `pid`, with the model and
      `json.loads` as oracles. */
  function Execution(pid: nat, model: (string, nat) -> string, parse: string -> Option<Json>): Executor {
    (id: nat, step: Step, st: StepState) =>
      var text := StepText(InstructionText(step), step);
      var retried := RetryFrom(model, text, Acceptance(parse), 1);
      var processed := ProcessResponse(pid, id, step.number, retried.0, parse, st);
      Outcome(processed.0, processed.1, text, retried.1)
  }

  /** The part of the store the run changes, with the run's `any_failed`. */
  datatype Run = Run(steps: map<nat, Step>, files: seq<CodeFile>, staging: map<nat, Tree>,
                     log: seq<Event>, anyFailed: bool)

  /** Whether visiting step `id` counts as a failure: its re-read finds
      nothing (`vanished` holds the ids deleted by other requests meanwhile),
      `_make_model()` raises at the start of `generate_step` (`unmade` holds
      the ids of the visits where it does), or `generate_step` does not
      succeed. */
  predicate VisitFails(id: nat, vanished: set<nat>, unmade: set<nat>, exec: Executor, r: Run) {
    id in vanished || id !in r.steps || id in unmade ||
    exec(id, r.steps[id], StepState(r.files, r.staging)).result.StepFailed?
  }

  /** One iteration of the run's loop: a vanished step, or one whose
      `generate_step` cannot build the model, only marks the run as failed
      (the step keeps its status); any other step goes through
      `generate_step`, which leaves it completed or failed. */
  function Visit(id: nat, vanished: set<nat>, unmade: set<nat>, exec: Executor, r: Run): Run {
    if id in vanished || id !in r.steps || id in unmade then r.(anyFailed := true)
    else
      var step := r.steps[id];
      var o := exec(id, step, StepState(r.files, r.staging));
      var status := FinalStatus(o.result);
      Run(r.steps[id := step.(status := status)], o.after.files, o.after.staging,
          r.log + [StepStatusSet(id, InProgress)] + Calls(id, o.text, o.calls) + [StepStatusSet(id, status)],
          r.anyFailed || o.result.StepFailed?)
  }

  /** A visit settles the visited step when the model could be built and
      leaves it as it was otherwise, leaves the other rows alone, and raises
      the flag exactly when it fails. */
  lemma VisitEffect(id: nat, vanished: set<nat>, unmade: set<nat>, exec: Executor, r: Run)
    ensures var r' := Visit(id, vanished, unmade, exec, r);
      r'.steps.Keys == r.steps.Keys &&
      (forall other :: other in r.steps && other != id ==> r'.steps[other] == r.steps[other]) &&
      (id in r.steps && id !in vanished && id !in unmade ==> r'.steps[id].status == Completed || r'.steps[id].status == Failed) &&
      (id in r.steps && (id in vanished || id in unmade) ==> r'.steps[id] == r.steps[id]) &&
      (r'.anyFailed <==> r.anyFailed || VisitFails(id, vanished, unmade, exec, r))
  {
  }

  /** The run's loop over `order`. */
  function VisitAll(order: seq<nat>, vanished: set<nat>, unmade: set<nat>, exec: Executor, r: Run): Run
    decreases |order|
  {
    if order == [] then r
    else Visit(order[|order| - 1], vanished, unmade, exec, VisitAll(order[..|order| - 1], vanished, unmade, exec, r))
  }

  /** The loop over the first `i + 1` ids is the loop over the first `i`
      followed by the visit of `order[i]`. */
  lemma VisitAllStep(order: seq<nat>, i: nat, vanished: set<nat>, unmade: set<nat>, exec: Executor, r: Run)
    requires i < |order|
    ensures VisitAll(order[..i + 1], vanished, unmade, exec, r) == Visit(order[i], vanished, unmade, exec, VisitAll(order[..i], vanished, unmade, exec, r))
  {
    assert order[..i + 1][..i] == order[..i];
  }

  /** Some visit of the loop over `order` fails. */
  predicate SomeVisitFails(order: seq<nat>, vanished: set<nat>, unmade: set<nat>, exec: Executor, r: Run) {
    exists k :: 0 <= k < |order| && VisitFails(order[k], vanished, unmade, exec, VisitAll(order[..k], vanished, unmade, exec, r))
  }

  /** A longer loop has a failing visit exactly when the shorter one has,
      or the added visit fails. */
  lemma SomeVisitFailsSnoc(order: seq<nat>, vanished: set<nat>, unmade: set<nat>, exec: Executor, r: Run)
    requires order != []
    ensures var n := |order| - 1;
      SomeVisitFails(order, vanished, unmade, exec, r) <==>
      SomeVisitFails(order[..n], vanished, unmade, exec, r) || VisitFails(order[n], vanished, unmade, exec, VisitAll(order[..n], vanished, unmade, exec, r))
  {
    var n := |order| - 1;
    if SomeVisitFails(order[..n], vanished, unmade, exec, r) {
      EarlierFailureKept(order, vanished, unmade, exec, r);
    }
    if SomeVisitFails(order, vanished, unmade, exec, r) {
      FailureLocated(order, vanished, unmade, exec, r);
    }
  }

  lemma EarlierFailureKept(order: seq<nat>, vanished: set<nat>, unmade: set<nat>, exec: Executor, r: Run)
    requires order != [] && SomeVisitFails(order[..|order| - 1], vanished, unmade, exec, r)
    ensures SomeVisitFails(order, vanished, unmade, exec, r)
  {
    var init := order[..|order| - 1];
    var k :| 0 <= k < |init| && VisitFails(init[k], vanished, unmade, exec, VisitAll(init[..k], vanished, unmade, exec, r));
    assert init[..k] == order[..k];
    assert VisitFails(order[k], vanished, unmade, exec, VisitAll(order[..k], vanished, unmade, exec, r));
  }

  lemma FailureLocated(order: seq<nat>, vanished: set<nat>, unmade: set<nat>, exec: Executor, r: Run)
    requires order != [] && SomeVisitFails(order, vanished, unmade, exec, r)
    ensures var n := |order| - 1;
      SomeVisitFails(order[..n], vanished, unmade, exec, r) || VisitFails(order[n], vanished, unmade, exec, VisitAll(order[..n], vanished, unmade, exec, r))
  {
    var n := |order| - 1;
    var init := order[..n];
    var k :| 0 <= k < |order| && VisitFails(order[k], vanished, unmade, exec, VisitAll(order[..k], vanished, unmade, exec, r));
    if k < n {
      assert init[..k] == order[..k];
      assert VisitFails(init[k], vanished, unmade, exec, VisitAll(init[..k], vanished, unmade, exec, r));
      assert SomeVisitFails(init, vanished, unmade, exec, r);
    } else {
      assert k == n;
    }
  }

  /** `any_failed` ends up set exactly when some visit failed: a vanished
      step, or a step `generate_step` did not complete. */
  lemma {:induction false} AnyFailedIff(order: seq<nat>, vanished: set<nat>, unmade: set<nat>, exec: Executor, r: Run)
    ensures VisitAll(order, vanished, unmade, exec, r).anyFailed <==> r.anyFailed || SomeVisitFails(order, vanished, unmade, exec, r)
    decreases |order|
  {
    if order != [] {
      var n := |order| - 1;
      AnyFailedIff(order[..n], vanished, unmade, exec, r);
      SomeVisitFailsSnoc(order, vanished, unmade, exec, r);
      VisitEffect(order[n], vanished, unmade, exec, VisitAll(order[..n], vanished, unmade, exec, r));
    }
  }

  /** After the loop every listed step that did not vanish and whose model
      could be built is completed or failed; every other step, listed or
      not, keeps its row. */
  lemma {:induction false} VisitedStepsSettled(order: seq<nat>, vanished: set<nat>, unmade: set<nat>, exec: Executor, r: Run)
    ensures var r' := VisitAll(order, vanished, unmade, exec, r);
      r'.steps.Keys == r.steps.Keys &&
      (forall id :: id in order && id in r.steps && id !in vanished && id !in unmade ==>
         r'.steps[id].status == Completed || r'.steps[id].status == Failed) &&
      (forall id :: id in r.steps && (id !in order || id in vanished || id in unmade) ==> r'.steps[id] == r.steps[id])
    decreases |order|
  {
    if order != [] {
      var n := |order| - 1;
      var init := order[..n];
      VisitedStepsSettled(init, vanished, unmade, exec, r);
      VisitEffect(order[n], vanished, unmade, exec, VisitAll(init, vanished, unmade, exec, r));
      assert order == init + [order[n]];
    }
  }

  /** The project's status once the loop is over. */
  function FinalProjectStatus(anyFailed: bool): ProjectStatus {
    if anyFailed then ProjectFailed else ProjectCompleted
  }

  /** After the loop over distinct existing ids, a listed step that did not
      vanish has status Failed exactly when its own visit failed, unless its
      model could not be built, in which case it keeps its row: later visits
      touch other rows only. */
  lemma {:induction false} FailedStatusIff(order: seq<nat>, vanished: set<nat>, unmade: set<nat>, exec: Executor, r: Run, k: nat)
    requires forall i, j :: 0 <= i < j < |order| ==> order[i] != order[j]
    requires forall i :: 0 <= i < |order| ==> order[i] in r.steps
    requires k < |order| && order[k] !in vanished
    ensures var r' := VisitAll(order, vanished, unmade, exec, r);
      order[k] in r'.steps &&
      (order[k] in unmade ==> r'.steps[order[k]] == r.steps[order[k]]) &&
      (order[k] !in unmade ==>
         (r'.steps[order[k]].status == Failed <==> VisitFails(order[k], vanished, unmade, exec, VisitAll(order[..k], vanished, unmade, exec, r))))
    decreases |order|
  {
    var n := |order| - 1;
    var init := order[..n];
    var before := VisitAll(init, vanished, unmade, exec, r);
    VisitedStepsSettled(init, vanished, unmade, exec, r);
    VisitEffect(order[n], vanished, unmade, exec, before);
    if k < n {
      FailedStatusIff(init, vanished, unmade, exec, r, k);
      assert init[..k] == order[..k];
    } else {
      assert init == order[..k];
    }
  }

  /** The run marks the project failed exactly when one of its steps
      vanished, could not get a model, or ended failed (each step being
      visited once). */
  lemma ProjectFailedIff(order: seq<nat>, vanished: set<nat>, unmade: set<nat>, exec: Executor, r: Run)
    requires forall i, j :: 0 <= i < j < |order| ==> order[i] != order[j]
    requires forall i :: 0 <= i < |order| ==> order[i] in r.steps
    requires !r.anyFailed
    ensures var r' := VisitAll(order, vanished, unmade, exec, r);
      FinalProjectStatus(r'.anyFailed) == ProjectFailed <==>
      exists k :: 0 <= k < |order| && (order[k] in vanished || order[k] in unmade || (order[k] in r'.steps && r'.steps[order[k]].status == Failed))
  {
    var r' := VisitAll(order, vanished, unmade, exec, r);
    AnyFailedIff(order, vanished, unmade, exec, r);
    if SomeVisitFails(order, vanished, unmade, exec, r) {
      var k :| 0 <= k < |order| && VisitFails(order[k], vanished, unmade, exec, VisitAll(order[..k], vanished, unmade, exec, r));
      if order[k] !in vanished && order[k] !in unmade {
        FailedStatusIff(order, vanished, unmade, exec, r, k);
      }
    }
    if exists k :: 0 <= k < |order| && (order[k] in vanished || order[k] in unmade || (order[k] in r'.steps && r'.steps[order[k]].status == Failed)) {
      var k :| 0 <= k < |order| && (order[k] in vanished || order[k] in unmade || (order[k] in r'.steps && r'.steps[order[k]].status == Failed));
      if order[k] !in vanished && order[k] !in unmade {
        FailedStatusIff(order, vanished, unmade, exec, r, k);
      }
      assert VisitFails(order[k], vanished, unmade, exec, VisitAll(order[..k], vanished, unmade, exec, r));
    }
  }

  /** A project without steps ends completed. */
  lemma NoStepsCompletes(pid: nat, steps: map<nat, Step>, vanished: set<nat>, unmade: set<nat>, exec: Executor, r: Run)
    requires ProjectSteps(steps, pid) == {} && !r.anyFailed
    ensures FinalProjectStatus(VisitAll(StepOrder(steps, pid), vanished, unmade, exec, r).anyFailed) == ProjectCompleted
  {
    var order := StepOrder(steps, pid);
    if order != [] {
      assert false;
    }
  }

  /** The archive directory after the run: a new archive of the staging tree
      when the project completed and its staging directory exists. */
  function ZipsAfterRun(zips: map<string, Archive>, pid: nat, run: Run, stamp: string, now: int): map<string, Archive> {
    if !run.anyFailed && pid in run.staging then zips[ArchiveName(pid, stamp) := Archive(run.staging[pid], now)] else zips
  }

  /** `background_generation(app, project_id)`. `vanished` holds the steps
      another request deletes before the run re-reads them, `unmade` the
      steps whose `generate_step` finds that `_make_model()` raises; `stamp`
      and `now` are the packaging time. */
  method BackgroundGeneration(db: Store, pid: nat, vanished: set<nat>, unmade: set<nat>, model: (string, nat) -> string,
                              parse: string -> Option<Json>, stamp: string, now: int)
    requires db.Valid()
    modifies db
    ensures db.Valid()
    ensures pid !in old(db.projects) ==>
      db.projects == old(db.projects) && db.steps == old(db.steps) && db.codeFiles == old(db.codeFiles) &&
      db.staging == old(db.staging) && db.zips == old(db.zips) && db.log == old(db.log)
    ensures pid in old(db.projects) ==>
      var run := VisitAll(StepOrder(old(db.steps), pid), vanished, unmade, Execution(pid, model, parse),
                          Run(old(db.steps), old(db.codeFiles), old(db.staging), old(db.log), false));
      var status := FinalProjectStatus(run.anyFailed);
      db.steps == run.steps && db.codeFiles == run.files && db.staging == run.staging &&
      db.projects == old(db.projects)[pid := old(db.projects[pid]).(status := status)] &&
      db.log == run.log + [ProjectStatusSet(pid, status)] &&
      db.zips == ZipsAfterRun(old(db.zips), pid, run, stamp, now)
    ensures pid in old(db.projects) ==>
      var order := StepOrder(old(db.steps), pid);
      (db.projects[pid].status == ProjectFailed <==>
       exists k :: 0 <= k < |order| && (order[k] in vanished || order[k] in unmade ||
                                   (order[k] in db.steps && db.steps[order[k]].status == Failed)))
    ensures db.nextProjectId == old(db.nextProjectId) && db.nextStepId == old(db.nextStepId)
  {
    if pid !in db.projects {
      return;
    }
    var order := StepOrder(db.steps, pid);
    ghost var start := Run(db.steps, db.codeFiles, db.staging, db.log, false);
    var anyFailed := RunSteps(db, pid, order, vanished, unmade, model, parse);
    ProjectFailedIff(order, vanished, unmade, Execution(pid, model, parse), start);
    SettleProject(db, pid, anyFailed, stamp, now);
  }

  /** After the loop: the project's status is committed, and a completed
      project is packaged. */
  method SettleProject(db: Store, pid: nat, anyFailed: bool, stamp: string, now: int)
    requires db.Valid() && pid in db.projects
    modifies db
    ensures db.Valid()
    ensures var status := FinalProjectStatus(anyFailed);
      db.projects == old(db.projects)[pid := old(db.projects[pid]).(status := status)] &&
      db.log == old(db.log) + [ProjectStatusSet(pid, status)]
    ensures db.zips == (if !anyFailed && pid in old(db.staging)
                        then old(db.zips)[ArchiveName(pid, stamp) := Archive(old(db.staging[pid]), now)]
                        else old(db.zips))
    ensures db.steps == old(db.steps) && db.codeFiles == old(db.codeFiles) && db.staging == old(db.staging)
    ensures db.nextProjectId == old(db.nextProjectId) && db.nextStepId == old(db.nextStepId)
  {
    var status := FinalProjectStatus(anyFailed);
    db.projects := db.projects[pid := db.projects[pid].(status := status)];
    db.log := db.log + [ProjectStatusSet(pid, status)];
    if status == ProjectCompleted {
      var zipped := CreateProjectZip(db, pid, stamp, now);
    }
  }

  /** The run's loop, on the store. */
  method RunSteps(db: Store, pid: nat, order: seq<nat>, vanished: set<nat>, unmade: set<nat>, model: (string, nat) -> string,
                  parse: string -> Option<Json>) returns (anyFailed: bool)
    requires db.Valid()
    modifies db
    ensures db.Valid()
    ensures Run(db.steps, db.codeFiles, db.staging, db.log, anyFailed) ==
      VisitAll(order, vanished, unmade, Execution(pid, model, parse), Run(old(db.steps), old(db.codeFiles), old(db.staging), old(db.log), false))
    ensures db.projects == old(db.projects) && db.zips == old(db.zips)
    ensures db.nextProjectId == old(db.nextProjectId) && db.nextStepId == old(db.nextStepId)
  {
    ghost var start := Run(db.steps, db.codeFiles, db.staging, db.log, false);
    var exec := Execution(pid, model, parse);
    anyFailed := false;
    var i := 0;
    while i < |order|
      invariant 0 <= i <= |order| && db.Valid()
      invariant Run(db.steps, db.codeFiles, db.staging, db.log, anyFailed) == VisitAll(order[..i], vanished, unmade, exec, start)
      invariant db.projects == old(db.projects) && db.zips == old(db.zips)
      invariant db.nextProjectId == old(db.nextProjectId) && db.nextStepId == old(db.nextStepId)
    {
      anyFailed := VisitStep(db, pid, order[i], vanished, unmade, model, parse, anyFailed);
      VisitAllStep(order, i, vanished, unmade, exec, start);
      i := i + 1;
    }
    assert order[..i] == order;
  }

  /** One iteration of the run's loop, on the store. */
  method VisitStep(db: Store, pid: nat, id: nat, vanished: set<nat>, unmade: set<nat>, model: (string, nat) -> string,
                   parse: string -> Option<Json>, anyFailed: bool) returns (failed: bool)
    requires db.Valid()
    modifies db
    ensures db.Valid()
    ensures Run(db.steps, db.codeFiles, db.staging, db.log, failed) ==
      Visit(id, vanished, unmade, Execution(pid, model, parse), Run(old(db.steps), old(db.codeFiles), old(db.staging), old(db.log), anyFailed))
    ensures db.projects == old(db.projects) && db.zips == old(db.zips)
    ensures db.nextProjectId == old(db.nextProjectId) && db.nextStepId == old(db.nextStepId)
  {
    if id in vanished || id !in db.steps {
      return true;
    }
    var step := db.steps[id];
    var result := GenerateStep(db, pid, id, InstructionText(step), id !in unmade, model, parse);
    failed := anyFailed || result.StepFailed?;
  }
}
