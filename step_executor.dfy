/** `generate_step`: one step of a project run against the model. The step
    goes to in-progress, the model is asked up to three times, the reply is
    normalised and parsed (whole text, then the brace-bounded slice, then kept
    raw), and the files it names are folded into the CodeFile table and the
    staging tree. The step ends completed or failed. */
module StepExecutor {
  import opened Wrappers
  import opened Text
  import opened Json
  import opened Models
  import opened Normalizer
  import opened Accumulator

  const MaxAttempts: nat := 3

  /** A reply the retry loop accepts: not empty, and passes the quick check. */
  predicate Viable(response: string, parse: string -> Option<Json>) {
    response != [] && QuickJsonOk(response, parse)
  }

  /** The test the retry loop applies to each reply. */
  function Acceptance(parse: string -> Option<Json>): string -> bool {
    response => Viable(response, parse)
  }

  /** The retry loop from attempt `i` on, with `model(text, attempt)` the
      reply to each call (a failed call replies ""). It gives the reply that
      is processed and the number of calls made: the calls stop at the first
      viable reply, and after the third call the last reply is used anyway. */
  function RetryFrom(model: (string, nat) -> string, text: string, accept: string -> bool, i: nat): (r: (string, nat))
    requires 1 <= i <= MaxAttempts
    ensures i <= r.1 <= MaxAttempts && r.0 == model(text, r.1)
    ensures forall j :: i <= j < r.1 ==> !accept(model(text, j))
    ensures accept(r.0) || r.1 == MaxAttempts
    decreases MaxAttempts - i
  {
    var reply := model(text, i);
    if accept(reply) || i == MaxAttempts then (reply, i) else RetryFrom(model, text, accept, i + 1)
  }

  /** The events of the first `n` model calls for a step. */
  function Calls(stepId: nat, text: string, n: nat): (r: seq<Event>)
    ensures |r| == n && forall j :: 0 <= j < n ==> r[j] == ModelCalled(stepId, j + 1, text)
  {
    if n == 0 then [] else Calls(stepId, text, n - 1) + [ModelCalled(stepId, n, text)]
  }

  /** The instruction sent for a step: the given details, or else the step's
      own details, title and deliverables, or else "Implement step #n". */
  function StepText(given: string, step: Step): string {
    var t := Strip(given);
    if t != [] then t
    else
      var joined := Strip(Join(StepBits(step), "\n"));
      if joined != [] then joined else "Implement step #" + IntToDecimal(step.number)
  }

  /** The step's own stripped details, title and deliverables, each only when
      it is not empty. */
  function StepBits(step: Step): seq<string> {
    var details := Strip(step.details);
    var title := Strip(step.title);
    var deliverables := Strip(step.deliverables.GetOr(""));
    (if details != [] then [details] else []) +
    (if title != [] then ["Title: " + title] else []) +
    (if deliverables != [] then ["Deliverables: " + deliverables] else [])
  }

  /** The instruction is never blank, so the model is always asked something. */
  lemma StepTextNotBlank(given: string, step: Step)
    ensures !Blank(StepText(given, step))
  {
    NotBlank(StepText(given, step), 0);
  }

  /** What the two-stage parse makes of a reply. */
  datatype Parsed =
    | Doc(doc: Json)    // the whole text or the brace-bounded slice parsed
    | SliceInvalid      // there was a slice and it did not parse
    | NoBraces          // nothing parsed and there is no `{` before a `}`

  function ParseResponse(response: string, parse: string -> Option<Json>): Parsed {
    var sanitized := SanitizeJsonString(StripCodeFences(response));
    match parse(sanitized)
    case Some(v) => Doc(v)
    case None =>
      var first := Find(sanitized, '{');
      var last := RFind(sanitized, '}');
      if first != -1 && last != -1 && last > first then
        match parse(SanitizeJsonString(sanitized[first..last + 1]))
        case Some(v) => Doc(v)
        case None => SliceInvalid
      else NoBraces
  }

  /** `files = code_data.get("files", [])`, wrapped in a list when it is a
      truthy non-list; empty exactly when `not files` holds. */
  function FileList(files: Json): (r: seq<Json>)
    ensures r == [] <==> !Truthy(files)
    ensures Truthy(files) ==> (if files.JArr? then r == files.items else r == [files])
  {
    if !Truthy(files) then [] else if files.JArr? then files.items else [files]
  }

  /** `any((fi.get("file") or "").strip() for fi in files)`, evaluated left to
      right: Some(true) at the first entry with a non-blank file name, None
      when an entry before it makes the test raise. */
  function NamedFileCheck(items: seq<Json>): Option<bool>
    decreases |items|
  {
    if items == [] then Some(false)
    else if !items[0].JObj? then None
    else match StringOrEmpty(Get(items[0].fields, "file", JNull))
      case None => None
      case Some(f) => if Strip(f) != [] then Some(true) else NamedFileCheck(items[1..])
  }

  /** The check answers true only when some entry names a file, and false
      only when none does. */
  lemma {:induction false} NamedFileCheckSound(items: seq<Json>)
    ensures NamedFileCheck(items) == Some(true) ==> exists k :: 0 <= k < |items| && HasName(items[k])
    ensures NamedFileCheck(items) == Some(false) ==> forall k :: 0 <= k < |items| ==> !HasName(items[k])
    decreases |items|
  {
    if items != [] && items[0].JObj? && StringOrEmpty(Get(items[0].fields, "file", JNull)).Some? {
      if Strip(StringOrEmpty(Get(items[0].fields, "file", JNull)).value) != [] {
        assert HasName(items[0]);
      } else {
        NamedFileCheckSound(items[1..]);
        if NamedFileCheck(items) == Some(true) {
          var k :| 0 <= k < |items[1..]| && HasName(items[1..][k]);
          assert HasName(items[k + 1]);
        }
        if NamedFileCheck(items) == Some(false) {
          forall k | 0 <= k < |items| ensures !HasName(items[k]) {
            if k > 0 {
              assert items[k] == items[1..][k - 1];
            }
          }
        }
      }
    }
  }

  /** An entry that names a file: an object whose `file` is a non-blank string. */
  predicate HasName(item: Json) {
    item.JObj? && "file" in item.fields && item.fields["file"].JStr? && Strip(item.fields["file"].s) != []
  }

  /** The name of the file the raw fallback writes. */
  function RawName(number: int): string {
    "step_" + IntToDecimal(number) + "_raw.txt"
  }

  /** The outcome reported to the caller: the data of a successful step (its
      file list), the raw text kept instead, or why the step failed. */
  datatype StepResult = Generated(files: seq<Json>) | RawSaved(raw: string) | StepFailed(error: StepError)

  /** The status a step ends with. */
  function FinalStatus(r: StepResult): StepStatus {
    if r.StepFailed? then Failed else Completed
  }

  /** The CodeFile table and the staging trees, which a step changes. */
  datatype StepState = StepState(files: seq<CodeFile>, staging: map<nat, Tree>)

  /** Everything after the retry loop, for project `pid`, step `stepId` with
      number `number`, and the processed reply. */
  function ProcessResponse(pid: nat, stepId: nat, number: int, response: string,
                           parse: string -> Option<Json>, st: StepState): (StepResult, StepState)
  {
    if Blank(response) then (StepFailed(EmptyOutput), st)
    else ProcessParsed(pid, stepId, number, ParseResponse(response, parse), Strip(response), st)
  }

  /** A reply that is not blank, by what the parse made of it; `raw` is the
      stripped reply. */
  function ProcessParsed(pid: nat, stepId: nat, number: int, parsed: Parsed, raw: string, st: StepState): (StepResult, StepState) {
    match parsed
    case SliceInvalid => (StepFailed(InvalidJson), st)
    case NoBraces => SaveRaw(pid, stepId, number, raw, st)
    case Doc(v) => ProcessDoc(pid, stepId, v, st)
  }

  /** The raw fallback: the text is written to `step_{n}_raw.txt` at the
      staging root and recorded with folder "". */
  function SaveRaw(pid: nat, stepId: nat, number: int, raw: string, st: StepState): (StepResult, StepState) {
    var name := RawName(number);
    (RawSaved(raw),
     StepState(st.files + [CodeFile(pid, stepId, Some(""), name, Some(raw))],
               st.staging[pid := TreeOf(st.staging, pid)[name := raw]]))
  }

  /** A parsed document: it must be an object with a file list that names at
      least one file; its entries are then accumulated. */
  function ProcessDoc(pid: nat, stepId: nat, v: Json, st: StepState): (StepResult, StepState) {
    if !v.JObj? then (StepFailed(NotAnObject), st)
    else
      var items := FileList(Get(v.fields, "files", JArr([])));
      if items == [] then (StepFailed(NoFiles), st)
      else match NamedFileCheck(items)
        case None => (StepFailed(NameCheckRaises), st)
        case Some(false) => (StepFailed(NoFiles), st)
        case Some(true) => ProcessFiles(pid, stepId, items, st)
  }

  /** The accumulation of a file list into the table and the project's
      staging tree (whose directory is created first). */
  function ProcessFiles(pid: nat, stepId: nat, items: seq<Json>, st: StepState): (StepResult, StepState) {
    var a := ApplyAll(pid, stepId, items, Acc(st.files, TreeOf(st.staging, pid)));
    var after := StepState(a.acc.files, st.staging[pid := a.acc.tree]);
    if a.error.Some? then (StepFailed(a.error.value), after) else (Generated(items), after)
  }

  /** The accumulation only ever fails on an entry that raises. */
  lemma {:induction false} AccumulationErrorIsBadEntry(pid: nat, stepId: nat, entries: seq<Json>, acc: Acc)
    ensures var e := ApplyAll(pid, stepId, entries, acc).error; e.Some? ==> e.value == BadEntry
    decreases |entries|
  {
    if entries != [] {
      AccumulationErrorIsBadEntry(pid, stepId, entries[..|entries| - 1], acc);
    }
  }

  /** "Empty output" is reported exactly for a blank final reply. */
  lemma EmptyOutputIffBlank(pid: nat, stepId: nat, number: int, response: string,
                            parse: string -> Option<Json>, st: StepState)
    ensures ProcessResponse(pid, stepId, number, response, parse, st).0 == StepFailed(EmptyOutput) <==> Blank(response)
  {
    if !Blank(response) {
      match ParseResponse(response, parse)
      case Doc(v) =>
        if v.JObj? {
          var items := FileList(Get(v.fields, "files", JArr([])));
          AccumulationErrorIsBadEntry(pid, stepId, items, Acc(st.files, TreeOf(st.staging, pid)));
        }
      case _ =>
    }
  }

  /** A reply that cannot be parsed and has no `{ … }` slice is kept by the
      raw fallback, and the step completes. */
  lemma RawFallback(pid: nat, stepId: nat, number: int, response: string,
                    parse: string -> Option<Json>, st: StepState)
    requires !Blank(response) && ParseResponse(response, parse) == NoBraces
    ensures ProcessResponse(pid, stepId, number, response, parse, st) == SaveRaw(pid, stepId, number, Strip(response), st)
    ensures FinalStatus(ProcessResponse(pid, stepId, number, response, parse, st).0) == Completed
  {
  }

  /** A list whose entries all read without raising passes the name check
      without raising. */
  lemma {:induction false} ReadableChecked(items: seq<Json>)
    requires forall k :: 0 <= k < |items| ==> Applies(items[k])
    ensures NamedFileCheck(items).Some?
    decreases |items|
  {
    if items != [] {
      assert Applies(items[0]);
      if Strip(StringOrEmpty(Get(items[0].fields, "file", JNull)).value) == [] {
        assert forall k :: 0 <= k < |items| - 1 ==> items[1..][k] == items[k + 1];
        ReadableChecked(items[1..]);
      }
    }
  }

  /** The step ends completed exactly when the reply is not blank and either
      nothing in it parses and it has no `{ … }` slice (the raw fallback), or
      it parses as an object whose file list names at least one file and
      whose every entry is read and written without raising. */
  lemma StepCompletedIff(pid: nat, stepId: nat, number: int, response: string,
                         parse: string -> Option<Json>, st: StepState)
    ensures FinalStatus(ProcessResponse(pid, stepId, number, response, parse, st).0) == Completed <==>
      !Blank(response) &&
      var p := ParseResponse(response, parse);
      (p == NoBraces ||
       (p.Doc? && p.doc.JObj? &&
        var items := FileList(Get(p.doc.fields, "files", JArr([])));
        (exists k :: 0 <= k < |items| && HasName(items[k])) &&
        forall k :: 0 <= k < |items| ==> Applies(items[k])))
  {
    if !Blank(response) {
      match ParseResponse(response, parse)
      case Doc(v) => DocCompletedIff(pid, stepId, v, st);
      case _ =>
    }
  }

  /** A parsed document completes the step exactly when it is an object
      whose file list names a file and has no entry that raises. */
  lemma DocCompletedIff(pid: nat, stepId: nat, v: Json, st: StepState)
    ensures FinalStatus(ProcessDoc(pid, stepId, v, st).0) == Completed <==>
      v.JObj? &&
      var items := FileList(Get(v.fields, "files", JArr([])));
      (exists k :: 0 <= k < |items| && HasName(items[k])) &&
      forall k :: 0 <= k < |items| ==> Applies(items[k])
  {
    if v.JObj? {
      var items := FileList(Get(v.fields, "files", JArr([])));
      ApplyAllSucceedsIff(pid, stepId, items, Acc(st.files, TreeOf(st.staging, pid)));
      NamedFileCheckSound(items);
      if forall k :: 0 <= k < |items| ==> Applies(items[k]) {
        ReadableChecked(items);
      }
    }
  }

  /** The raw fallback writes the stripped reply to `step_{n}_raw.txt` at the
      staging root and records it with folder ""; the other files of the
      project and the other projects are untouched. */
  lemma SaveRawWrites(pid: nat, stepId: nat, number: int, raw: string, st: StepState)
    ensures var (r, after) := SaveRaw(pid, stepId, number, raw, st);
      r == RawSaved(raw) &&
      after.files == st.files + [CodeFile(pid, stepId, Some(""), RawName(number), Some(raw))] &&
      pid in after.staging && after.staging[pid][RawName(number)] == raw &&
      (forall p :: p in TreeOf(st.staging, pid) && p != RawName(number) ==>
         p in after.staging[pid] && after.staging[pid][p] == TreeOf(st.staging, pid)[p]) &&
      (forall q :: q != pid ==> (q in after.staging <==> q in st.staging) && (q in st.staging ==> after.staging[q] == st.staging[q]))
  {
  }

  /** A failure other than a raising entry in the file loop (an empty reply,
      an invalid slice, no object, no named file, or the name check itself
      raising) changes neither the table nor the staging trees, and no
      staging directory is created either. */
  lemma EarlyFailureChangesNothing(pid: nat, stepId: nat, number: int, response: string,
                                   parse: string -> Option<Json>, st: StepState)
    requires ProcessResponse(pid, stepId, number, response, parse, st).0.StepFailed?
    requires ProcessResponse(pid, stepId, number, response, parse, st).0.error != BadEntry
    ensures ProcessResponse(pid, stepId, number, response, parse, st).1 == st
  {
    if !Blank(response) {
      match ParseResponse(response, parse)
      case Doc(v) =>
        if v.JObj? {
          var items := FileList(Get(v.fields, "files", JArr([])));
          AccumulationErrorIsBadEntry(pid, stepId, items, Acc(st.files, TreeOf(st.staging, pid)));
        }
      case _ =>
    }
  }

  /** A reply the quick check accepts is parsed as an object with a non-empty
      file list: it never takes the raw path and never fails as "not an
      object" or for an empty list. */
  lemma ViableReplyIsParsed(response: string, parse: string -> Option<Json>)
    requires Viable(response, parse)
    ensures var p := ParseResponse(response, parse);
      p.Doc? && p.doc.JObj? && FileList(Get(p.doc.fields, "files", JArr([]))) != []
  {
    var fields := QuickObject(response, parse).value;
    assert parse(SanitizeJsonString(StripCodeFences(response))) == Some(JObj(fields));
  }

  /** Once an entry raises, later entries are not looked at. */
  lemma {:induction false} ApplyAllStops(pid: nat, stepId: nat, entries: seq<Json>, k: nat, acc: Acc)
    requires k <= |entries| && ApplyAll(pid, stepId, entries[..k], acc).error.Some?
    ensures ApplyAll(pid, stepId, entries, acc) == ApplyAll(pid, stepId, entries[..k], acc)
    decreases |entries| - k
  {
    if k < |entries| {
      assert entries[..k + 1][..k] == entries[..k];
      ApplyAllStops(pid, stepId, entries, k + 1, acc);
    } else {
      assert entries[..k] == entries;
    }
  }

  // ---------------------------------------------------------------------------
  // The imperative step
  // ---------------------------------------------------------------------------

  /** The retry loop: calls the model for attempts 1, 2, 3 until a reply is
      viable, logging each call. */
  method RetryLoop(db: Store, stepId: nat, text: string, model: (string, nat) -> string,
                   accept: string -> bool) returns (response: string, calls: nat)
    modifies db
    ensures (response, calls) == RetryFrom(model, text, accept, 1)
    ensures db.log == old(db.log) + Calls(stepId, text, calls)
    ensures db.projects == old(db.projects) && db.steps == old(db.steps) && db.codeFiles == old(db.codeFiles)
    ensures db.staging == old(db.staging) && db.zips == old(db.zips)
    ensures db.nextProjectId == old(db.nextProjectId) && db.nextStepId == old(db.nextStepId)
  {
    response, calls := "", 0;
    var i := 1;
    while i <= MaxAttempts
      invariant 1 <= i <= MaxAttempts + 1 && calls == i - 1
      invariant i > 1 ==> response == model(text, i - 1)
      invariant forall j :: 1 <= j < i ==> !accept(model(text, j))
      invariant db.log == old(db.log) + Calls(stepId, text, calls)
      invariant db.projects == old(db.projects) && db.steps == old(db.steps) && db.codeFiles == old(db.codeFiles)
      invariant db.staging == old(db.staging) && db.zips == old(db.zips)
      invariant db.nextProjectId == old(db.nextProjectId) && db.nextStepId == old(db.nextStepId)
      decreases MaxAttempts + 1 - i
    {
      response := model(text, i);
      db.log := db.log + [ModelCalled(stepId, i, text)];
      calls := i;
      if accept(response) {
        break;
      }
      i := i + 1;
    }
    RetryUnique(model, text, accept, calls);
  }

  /** The loop's stopping point is the one RetryFrom describes. */
  lemma RetryUnique(model: (string, nat) -> string, text: string, accept: string -> bool, n: nat)
    requires 1 <= n <= MaxAttempts
    requires forall j :: 1 <= j < n ==> !accept(model(text, j))
    requires accept(model(text, n)) || n == MaxAttempts
    ensures RetryFrom(model, text, accept, 1) == (model(text, n), n)
  {
  }

  /** One pass of the accumulation loop, on the store. */
  method ApplyEntryTo(db: Store, pid: nat, stepId: nat, entry: Json) returns (err: Option<StepError>)
    requires pid in db.staging
    modifies db
    ensures var a := ApplyEntry(pid, stepId, entry, Acc(old(db.codeFiles), old(db.staging[pid])));
      db.codeFiles == a.acc.files && db.staging == old(db.staging)[pid := a.acc.tree] && err == a.error
    ensures db.projects == old(db.projects) && db.steps == old(db.steps) && db.zips == old(db.zips)
    ensures db.log == old(db.log)
    ensures db.nextProjectId == old(db.nextProjectId) && db.nextStepId == old(db.nextStepId)
  {
    var read := ReadEntry(entry);
    if read.None? {
      return Some(BadEntry);
    }
    var (folder, name, code) := read.value;
    if name == [] {
      return None;
    }
    err := ApplyFileTo(db, pid, stepId, folder, name, code);
  }

  /** The loop body for a named file, on the store: merge into the existing
      record of the same key, or write the file and add a record. */
  method ApplyFileTo(db: Store, pid: nat, stepId: nat, folder: string, name: string, code: Option<string>)
    returns (err: Option<StepError>)
    requires pid in db.staging
    modifies db
    ensures var a := ApplyFile(pid, stepId, folder, name, code, Acc(old(db.codeFiles), old(db.staging[pid])));
      db.codeFiles == a.acc.files && db.staging == old(db.staging)[pid := a.acc.tree] && err == a.error
    ensures db.projects == old(db.projects) && db.steps == old(db.steps) && db.zips == old(db.zips)
    ensures db.log == old(db.log)
    ensures db.nextProjectId == old(db.nextProjectId) && db.nextStepId == old(db.nextStepId)
  {
    var path := JoinPath(folder, name);
    var existing := FindRecord(db.codeFiles, pid, folder, name);
    if existing.Some? {
      if code.None? {
        return Some(BadEntry);
      }
      var i := existing.value;
      var merged := db.codeFiles[i].content.GetOr("") + "\n" + code.value;
      db.codeFiles := db.codeFiles[i := db.codeFiles[i].(content := Some(merged), stepId := stepId)];
      db.staging := db.staging[pid := db.staging[pid][path := merged]];
      return None;
    }
    ghost var tree := db.staging[pid];
    db.staging := db.staging[pid := db.staging[pid][path := ""]];
    if code.None? {
      return Some(BadEntry);
    }
    db.staging := db.staging[pid := db.staging[pid][path := code.value]];
    assert db.staging[pid] == tree[path := code.value];
    db.codeFiles := db.codeFiles + [CodeFile(pid, stepId, Some(folder), name, Some(code.value))];
    err := None;
  }

  /** The accumulation loop: applies the entries in order and stops at the
      first one that raises. */
  method AccumulateFiles(db: Store, pid: nat, stepId: nat, items: seq<Json>) returns (err: Option<StepError>)
    requires pid in db.staging
    modifies db
    ensures var a := ApplyAll(pid, stepId, items, Acc(old(db.codeFiles), old(db.staging[pid])));
      db.codeFiles == a.acc.files && db.staging == old(db.staging)[pid := a.acc.tree] && err == a.error
    ensures db.projects == old(db.projects) && db.steps == old(db.steps) && db.zips == old(db.zips)
    ensures db.log == old(db.log)
    ensures db.nextProjectId == old(db.nextProjectId) && db.nextStepId == old(db.nextStepId)
  {
    var acc0 := Acc(db.codeFiles, db.staging[pid]);
    err := None;
    var k := 0;
    while k < |items| && err.None?
      invariant 0 <= k <= |items| && pid in db.staging
      invariant ApplyAll(pid, stepId, items[..k], acc0) == Applied(Acc(db.codeFiles, db.staging[pid]), err)
      invariant db.staging == old(db.staging)[pid := db.staging[pid]]
      invariant db.projects == old(db.projects) && db.steps == old(db.steps) && db.zips == old(db.zips)
      invariant db.log == old(db.log)
      invariant db.nextProjectId == old(db.nextProjectId) && db.nextStepId == old(db.nextStepId)
      decreases |items| - k
    {
      err := ApplyEntryTo(db, pid, stepId, items[k]);
      ApplyAllPrefixStep(pid, stepId, items, k, acc0);
      k := k + 1;
    }
    if err.Some? {
      ApplyAllStops(pid, stepId, items, k, acc0);
    } else {
      assert items[..k] == items;
    }
  }

  /** The loop over the first `k + 1` entries is the loop over the first `k`
      followed by entry `k`, unless an earlier entry raised. */
  lemma ApplyAllPrefixStep(pid: nat, stepId: nat, items: seq<Json>, k: nat, acc: Acc)
    requires k < |items|
    ensures var prev := ApplyAll(pid, stepId, items[..k], acc);
      ApplyAll(pid, stepId, items[..k + 1], acc) ==
        (if prev.error.Some? then prev else ApplyEntry(pid, stepId, items[k], prev.acc))
  {
    assert items[..k + 1][..k] == items[..k];
  }

  /** `generate_step(project_id, step_id, step_details)`, with the model as
      the oracle `model`, `json.loads` as `parse`, and `modelMade` telling
      whether `_make_model()` returns (when it raises, the step has not been
      read yet, so nothing is changed). */
  method GenerateStep(db: Store, pid: nat, stepId: nat, stepDetails: string, modelMade: bool,
                      model: (string, nat) -> string, parse: string -> Option<Json>) returns (result: StepResult)
    requires db.Valid()
    modifies db
    ensures db.Valid()
    ensures !modelMade ==>
      result == StepFailed(ModelUnavailable) && db.steps == old(db.steps) && db.codeFiles == old(db.codeFiles) &&
      db.staging == old(db.staging) && db.log == old(db.log)
    ensures modelMade && stepId !in old(db.steps) ==>
      result == StepFailed(StepNotFound) && db.steps == old(db.steps) && db.codeFiles == old(db.codeFiles) &&
      db.staging == old(db.staging) && db.log == old(db.log)
    ensures modelMade && stepId in old(db.steps) ==>
      var step := old(db.steps[stepId]);
      var text := StepText(stepDetails, step);
      var (response, calls) := RetryFrom(model, text, Acceptance(parse), 1);
      (result, StepState(db.codeFiles, db.staging)) ==
        ProcessResponse(pid, stepId, step.number, response, parse, StepState(old(db.codeFiles), old(db.staging))) &&
      db.steps == old(db.steps)[stepId := step.(status := FinalStatus(result))] &&
      db.log == old(db.log) + [StepStatusSet(stepId, InProgress)] + Calls(stepId, text, calls) + [StepStatusSet(stepId, FinalStatus(result))]
    ensures db.projects == old(db.projects) && db.zips == old(db.zips)
    ensures db.nextProjectId == old(db.nextProjectId) && db.nextStepId == old(db.nextStepId)
  {
    if !modelMade {
      return StepFailed(ModelUnavailable);
    }
    if stepId !in db.steps {
      return StepFailed(StepNotFound);
    }
    var step := db.steps[stepId];
    ghost var steps0 := db.steps;
    db.steps := db.steps[stepId := step.(status := InProgress)];
    db.log := db.log + [StepStatusSet(stepId, InProgress)];
    var text := StepText(stepDetails, step);
    result := RunStep(db, pid, stepId, step, text, model, parse);
    Overwrite(steps0, stepId, step.(status := InProgress), step.(status := FinalStatus(result)));
  }

  /** The calls to the model, the processing of the reply and the step's
      final status, for a step already marked in progress. */
  method RunStep(db: Store, pid: nat, stepId: nat, step: Step, text: string,
                 model: (string, nat) -> string, parse: string -> Option<Json>) returns (result: StepResult)
    modifies db
    ensures var (response, calls) := RetryFrom(model, text, Acceptance(parse), 1);
      (result, StepState(db.codeFiles, db.staging)) ==
        ProcessResponse(pid, stepId, step.number, response, parse, StepState(old(db.codeFiles), old(db.staging))) &&
      db.steps == old(db.steps)[stepId := step.(status := FinalStatus(result))] &&
      db.log == old(db.log) + Calls(stepId, text, calls) + [StepStatusSet(stepId, FinalStatus(result))]
    ensures db.projects == old(db.projects) && db.zips == old(db.zips)
    ensures db.nextProjectId == old(db.nextProjectId) && db.nextStepId == old(db.nextStepId)
  {
    var response, calls := RetryLoop(db, stepId, text, model, Acceptance(parse));
    result := Finish(db, pid, stepId, step, response, parse);
  }

  /** Processing the reply and recording the step's final status. */
  method Finish(db: Store, pid: nat, stepId: nat, step: Step, response: string,
                parse: string -> Option<Json>) returns (result: StepResult)
    modifies db
    ensures (result, StepState(db.codeFiles, db.staging)) ==
      ProcessResponse(pid, stepId, step.number, response, parse, StepState(old(db.codeFiles), old(db.staging)))
    ensures db.steps == old(db.steps)[stepId := step.(status := FinalStatus(result))]
    ensures db.log == old(db.log) + [StepStatusSet(stepId, FinalStatus(result))]
    ensures db.projects == old(db.projects) && db.zips == old(db.zips)
    ensures db.nextProjectId == old(db.nextProjectId) && db.nextStepId == old(db.nextStepId)
  {
    result := Process(db, pid, stepId, step.number, response, parse);
    db.steps := db.steps[stepId := step.(status := FinalStatus(result))];
    db.log := db.log + [StepStatusSet(stepId, FinalStatus(result))];
  }

  /** The part of `generate_step` after the retry loop, on the store. */
  method Process(db: Store, pid: nat, stepId: nat, number: int, response: string,
                 parse: string -> Option<Json>) returns (result: StepResult)
    modifies db
    ensures (result, StepState(db.codeFiles, db.staging)) ==
      ProcessResponse(pid, stepId, number, response, parse, StepState(old(db.codeFiles), old(db.staging)))
    ensures db.projects == old(db.projects) && db.steps == old(db.steps) && db.zips == old(db.zips)
    ensures db.log == old(db.log)
    ensures db.nextProjectId == old(db.nextProjectId) && db.nextStepId == old(db.nextStepId)
  {
    if Blank(response) {
      return StepFailed(EmptyOutput);
    }
    result := ProcessParsedIn(db, pid, stepId, number, ParseResponse(response, parse), Strip(response));
  }

  /** A reply that is not blank, on the store. */
  method ProcessParsedIn(db: Store, pid: nat, stepId: nat, number: int, parsed: Parsed, raw: string)
    returns (result: StepResult)
    modifies db
    ensures (result, StepState(db.codeFiles, db.staging)) ==
      ProcessParsed(pid, stepId, number, parsed, raw, StepState(old(db.codeFiles), old(db.staging)))
    ensures db.projects == old(db.projects) && db.steps == old(db.steps) && db.zips == old(db.zips)
    ensures db.log == old(db.log)
    ensures db.nextProjectId == old(db.nextProjectId) && db.nextStepId == old(db.nextStepId)
  {
    if parsed.SliceInvalid? {
      return StepFailed(InvalidJson);
    }
    if parsed.NoBraces? {
      var name := RawName(number);
      db.staging := db.staging[pid := TreeOf(db.staging, pid)[name := raw]];
      db.codeFiles := db.codeFiles + [CodeFile(pid, stepId, Some(""), name, Some(raw))];
      return RawSaved(raw);
    }
    result := ProcessDocIn(db, pid, stepId, parsed.doc);
  }

  /** A parsed document, on the store. */
  method ProcessDocIn(db: Store, pid: nat, stepId: nat, v: Json) returns (result: StepResult)
    modifies db
    ensures (result, StepState(db.codeFiles, db.staging)) ==
      ProcessDoc(pid, stepId, v, StepState(old(db.codeFiles), old(db.staging)))
    ensures db.projects == old(db.projects) && db.steps == old(db.steps) && db.zips == old(db.zips)
    ensures db.log == old(db.log)
    ensures db.nextProjectId == old(db.nextProjectId) && db.nextStepId == old(db.nextStepId)
  {
    if !v.JObj? {
      return StepFailed(NotAnObject);
    }
    var items := FileList(Get(v.fields, "files", JArr([])));
    if items == [] {
      return StepFailed(NoFiles);
    }
    var named := NamedFileCheck(items);
    if named.None? {
      return StepFailed(NameCheckRaises);
    }
    if named == Some(false) {
      return StepFailed(NoFiles);
    }
    ghost var staging0 := db.staging;
    db.staging := db.staging[pid := TreeOf(db.staging, pid)];
    var err := AccumulateFiles(db, pid, stepId, items);
    assert db.staging == staging0[pid := db.staging[pid]];
    if err.Some? {
      return StepFailed(err.value);
    }
    result := Generated(items);
  }
}
