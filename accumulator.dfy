/** How one step's generated files are folded into the CodeFile table and the
    project's staging tree: a new (folder, file) key gets a record holding
    the code, an existing key gets the code appended after a newline, and the
    staging file is written with the record's new content. */
module Accumulator {
  import opened Wrappers
  import opened Text
  import opened Json
  import opened Models

  /** The CodeFile table and the project's staging tree while a step's files
      are applied. */
  datatype Acc = Acc(files: seq<CodeFile>, tree: Tree)

  /** The state after some entries, and the error that stopped the loop. */
  datatype Applied = Applied(acc: Acc, error: Option<StepError>)

  /** `(entry.get('folder') or "").strip().strip("/\\")`; None when a truthy
      non-string makes `.strip()` raise. */
  function FolderOf(entry: map<string, Json>): (r: Option<string>)
    ensures r.Some? && r.value != [] ==> !IsSlash(r.value[0]) && !IsSlash(r.value[|r.value| - 1])
  {
    match StringOrEmpty(Get(entry, "folder", JNull))
    case None => None
    case Some(f) => Some(StripBy(Strip(f), IsSlash))
  }

  /** `(entry.get('file') or "").strip()`; None when it raises. */
  function NameOf(entry: map<string, Json>): Option<string> {
    match StringOrEmpty(Get(entry, "file", JNull))
    case None => None
    case Some(f) => Some(Strip(f))
  }

  /** A CodeFile row that `filter_by(project_id, folder_path, file_name)` selects. */
  predicate KeyMatches(f: CodeFile, pid: nat, folder: string, name: string) {
    f.projectId == pid && f.folder == Some(folder) && f.name == name
  }

  /** `.first()` of that query: the earliest matching row. */
  function FindRecord(files: seq<CodeFile>, pid: nat, folder: string, name: string): (r: Option<nat>)
    ensures r.Some? ==> r.value < |files| && KeyMatches(files[r.value], pid, folder, name)
    ensures r.Some? ==> forall k :: 0 <= k < r.value ==> !KeyMatches(files[k], pid, folder, name)
    ensures r.None? ==> forall k :: 0 <= k < |files| ==> !KeyMatches(files[k], pid, folder, name)
  {
    FindFrom(files, pid, folder, name, 0)
  }

  function FindFrom(files: seq<CodeFile>, pid: nat, folder: string, name: string, i: nat): (r: Option<nat>)
    requires i <= |files|
    ensures r.Some? ==> i <= r.value < |files| && KeyMatches(files[r.value], pid, folder, name)
    ensures r.Some? ==> forall k :: i <= k < r.value ==> !KeyMatches(files[k], pid, folder, name)
    ensures r.None? ==> forall k :: i <= k < |files| ==> !KeyMatches(files[k], pid, folder, name)
    decreases |files| - i
  {
    if i == |files| then None
    else if KeyMatches(files[i], pid, folder, name) then Some(i)
    else FindFrom(files, pid, folder, name, i + 1)
  }

  /** What the loop reads from one entry of the file list: the normalised
      folder, the stripped file name and the code, or None when reading them
      raises (the entry is not an object, or its folder or file is a truthy
      non-string). The code is None for a truthy non-string, which only
      raises once it is used. */
  function ReadEntry(entry: Json): Option<(string, string, Option<string>)> {
    if !entry.JObj? then None
    else
      var fields := entry.fields;
      var folder := FolderOf(fields);
      var name := NameOf(fields);
      if folder.None? || name.None? then None
      else Some((folder.value, name.value, StringOrEmpty(Get(fields, "code", JNull))))
  }

  /** One pass of the accumulation loop over `entry`, for project `pid` and
      step `stepId`. */
  function ApplyEntry(pid: nat, stepId: nat, entry: Json, acc: Acc): Applied {
    match ReadEntry(entry)
    case None => Applied(acc, Some(BadEntry))
    case Some((folder, name, code)) => if name == [] then Applied(acc, None) else ApplyFile(pid, stepId, folder, name, code, acc)
  }

  /** The body of the loop for a named file. */
  function ApplyFile(pid: nat, stepId: nat, folder: string, name: string, code: Option<string>, acc: Acc): Applied {
    var path := JoinPath(folder, name);
    match FindRecord(acc.files, pid, folder, name)
    case Some(i) =>
      // `old + "\n" + code` raises before any change for a non-string code
      if code.None? then Applied(acc, Some(BadEntry))
      else
        var merged := acc.files[i].content.GetOr("") + "\n" + code.value;
        var files := acc.files[i := acc.files[i].(content := Some(merged), stepId := stepId)];
        Applied(Acc(files, acc.tree[path := merged]), None)
    case None =>
      // the file is opened for writing (and so emptied) before `write` raises
      if code.None? then Applied(Acc(acc.files, acc.tree[path := ""]), Some(BadEntry))
      else
        Applied(Acc(acc.files + [CodeFile(pid, stepId, Some(folder), name, Some(code.value))],
                    acc.tree[path := code.value]), None)
  }

  /** The loop over the file list, stopping at the first entry that raises;
      what earlier entries did stays (the error handler commits it). */
  function ApplyAll(pid: nat, stepId: nat, entries: seq<Json>, acc: Acc): Applied
    decreases |entries|
  {
    if entries == [] then Applied(acc, None)
    else
      var prev := ApplyAll(pid, stepId, entries[..|entries| - 1], acc);
      if prev.error.Some? then prev else ApplyEntry(pid, stepId, entries[|entries| - 1], prev.acc)
  }

  /** An existing key keeps its single record, which gets the old content, a
      newline and the code, and now belongs to the current step; every other
      record is unchanged and the staging file holds the merged text. */
  lemma ExistingKeyMerges(pid: nat, stepId: nat, folder: string, name: string, code: string, acc: Acc)
    requires FindRecord(acc.files, pid, folder, name).Some?
    ensures var i := FindRecord(acc.files, pid, folder, name).value;
      var r := ApplyFile(pid, stepId, folder, name, Some(code), acc);
      var merged := acc.files[i].content.GetOr("") + "\n" + code;
      r.error.None? && |r.acc.files| == |acc.files| &&
      r.acc.files[i] == CodeFile(pid, stepId, Some(folder), name, Some(merged)) &&
      (forall k :: 0 <= k < |acc.files| && k != i ==> r.acc.files[k] == acc.files[k]) &&
      r.acc.tree == acc.tree[JoinPath(folder, name) := merged]
  {
  }

  /** After a named file is applied, the staging file at its path holds
      exactly the content of the record for its key. */
  lemma StagingMatchesRecord(pid: nat, stepId: nat, folder: string, name: string, code: Option<string>, acc: Acc)
    ensures var r := ApplyFile(pid, stepId, folder, name, code, acc);
      var i := FindRecord(r.acc.files, pid, folder, name);
      r.error.None? ==> i.Some? && r.acc.files[i.value].content == Some(r.acc.tree[JoinPath(folder, name)])
  {
    var r := ApplyFile(pid, stepId, folder, name, code, acc);
    if r.error.None? {
      match FindRecord(acc.files, pid, folder, name)
      case Some(i) =>
        forall k | 0 <= k < i ensures !KeyMatches(r.acc.files[k], pid, folder, name) {
          assert r.acc.files[k] == acc.files[k];
        }
        FindFirstIs(r.acc.files, pid, folder, name, i);
      case None =>
        var n := |acc.files|;
        FindFirstIs(r.acc.files, pid, folder, name, n);
    }
  }

  /** The first matching index is what FindRecord returns. */
  lemma FindFirstIs(files: seq<CodeFile>, pid: nat, folder: string, name: string, i: nat)
    requires i < |files| && KeyMatches(files[i], pid, folder, name)
    requires forall k :: 0 <= k < i ==> !KeyMatches(files[k], pid, folder, name)
    ensures FindRecord(files, pid, folder, name) == Some(i)
  {
  }

  /** The same key emitted by two steps in turn (starting from no record)
      ends with the first code, a newline, and the second code. */
  lemma TwoStepsConcatenate(pid: nat, step1: nat, step2: nat, folder: string, name: string,
                            code1: string, code2: string, acc: Acc)
    requires FindRecord(acc.files, pid, folder, name).None?
    ensures var r1 := ApplyFile(pid, step1, folder, name, Some(code1), acc);
      var r2 := ApplyFile(pid, step2, folder, name, Some(code2), r1.acc);
      var n := |acc.files|;
      r2.error.None? && |r2.acc.files| == n + 1 &&
      r2.acc.files[n] == CodeFile(pid, step2, Some(folder), name, Some(code1 + "\n" + code2)) &&
      r2.acc.tree[JoinPath(folder, name)] == code1 + "\n" + code2
  {
    var acc1 := ApplyFile(pid, step1, folder, name, Some(code1), acc).acc;
    var n := |acc.files|;
    FindFirstIs(acc1.files, pid, folder, name, n);
    ExistingKeyMerges(pid, step2, folder, name, code2, acc1);
  }

  /** `after` is `before` with records of project `pid` possibly changed and
      records of `pid` and step `stepId` possibly added at the end: records of
      other projects keep their place and content. */
  predicate Extends(before: seq<CodeFile>, after: seq<CodeFile>, pid: nat, stepId: nat) {
    |after| >= |before| &&
    (forall k :: 0 <= k < |before| && before[k].projectId != pid ==> after[k] == before[k]) &&
    (forall k :: 0 <= k < |before| ==>
       after[k].projectId == before[k].projectId && after[k].stepId in {before[k].stepId, stepId}) &&
    (forall k :: |before| <= k < |after| ==> after[k].projectId == pid && after[k].stepId == stepId)
  }

  lemma ExtendsTransitive(a: seq<CodeFile>, b: seq<CodeFile>, c: seq<CodeFile>, pid: nat, stepId: nat)
    requires Extends(a, b, pid, stepId) && Extends(b, c, pid, stepId)
    ensures Extends(a, c, pid, stepId)
  {
  }

  /** The accumulation leaves the records of every other project alone. */
  lemma {:induction false} OtherProjectsUntouched(pid: nat, stepId: nat, entries: seq<Json>, acc: Acc)
    ensures Extends(acc.files, ApplyAll(pid, stepId, entries, acc).acc.files, pid, stepId)
    decreases |entries|
  {
    if entries != [] {
      var prev := ApplyAll(pid, stepId, entries[..|entries| - 1], acc);
      OtherProjectsUntouched(pid, stepId, entries[..|entries| - 1], acc);
      if prev.error.None? {
        var last := ApplyEntry(pid, stepId, entries[|entries| - 1], prev.acc);
        EntryKeepsOthers(pid, stepId, entries[|entries| - 1], prev.acc);
        ExtendsTransitive(acc.files, prev.acc.files, last.acc.files, pid, stepId);
      }
    }
  }

  lemma EntryKeepsOthers(pid: nat, stepId: nat, entry: Json, acc: Acc)
    ensures Extends(acc.files, ApplyEntry(pid, stepId, entry, acc).acc.files, pid, stepId)
  {
    match ReadEntry(entry)
    case None =>
    case Some((folder, name, code)) =>
      if name != [] {
        FileKeepsOthers(pid, stepId, folder, name, code, acc);
      }
  }

  lemma FileKeepsOthers(pid: nat, stepId: nat, folder: string, name: string, code: Option<string>, acc: Acc)
    ensures Extends(acc.files, ApplyFile(pid, stepId, folder, name, code, acc).acc.files, pid, stepId)
  {
  }

  /** No two records of project `pid` share a (folder, file) key. */
  predicate UniqueKeys(files: seq<CodeFile>, pid: nat) {
    forall j, k :: 0 <= j < k < |files| && files[j].projectId == pid && files[k].projectId == pid ==>
      (files[j].folder, files[j].name) != (files[k].folder, files[k].name)
  }

  /** Accumulation never creates a second record for a key. */
  lemma {:induction false} AccumulationKeepsKeysUnique(pid: nat, stepId: nat, entries: seq<Json>, acc: Acc)
    requires UniqueKeys(acc.files, pid)
    ensures UniqueKeys(ApplyAll(pid, stepId, entries, acc).acc.files, pid)
    decreases |entries|
  {
    if entries != [] {
      var prev := ApplyAll(pid, stepId, entries[..|entries| - 1], acc);
      AccumulationKeepsKeysUnique(pid, stepId, entries[..|entries| - 1], acc);
      if prev.error.None? {
        EntryKeepsKeysUnique(pid, stepId, entries[|entries| - 1], prev.acc);
      }
    }
  }

  lemma EntryKeepsKeysUnique(pid: nat, stepId: nat, entry: Json, acc: Acc)
    requires UniqueKeys(acc.files, pid)
    ensures UniqueKeys(ApplyEntry(pid, stepId, entry, acc).acc.files, pid)
  {
    match ReadEntry(entry)
    case None =>
    case Some((folder, name, code)) =>
      if name != [] {
        FileKeepsKeysUnique(pid, stepId, folder, name, code, acc);
      }
  }

  lemma FileKeepsKeysUnique(pid: nat, stepId: nat, folder: string, name: string, code: Option<string>, acc: Acc)
    requires UniqueKeys(acc.files, pid)
    ensures UniqueKeys(ApplyFile(pid, stepId, folder, name, code, acc).acc.files, pid)
  {
    var r := ApplyFile(pid, stepId, folder, name, code, acc);
    {
      if FindRecord(acc.files, pid, folder, name).None? && |r.acc.files| > |acc.files| {
        var n := |acc.files|;
        assert r.acc.files == acc.files + [r.acc.files[n]];
        forall j | 0 <= j < n && acc.files[j].projectId == pid
          ensures (r.acc.files[j].folder, r.acc.files[j].name) != (r.acc.files[n].folder, r.acc.files[n].name)
        {
          assert !KeyMatches(acc.files[j], pid, folder, name);
        }
      }
    }
  }

  /** An entry the loop gets through: reading it does not raise, and when it
      names a file its code is a string (or falsy). */
  predicate Applies(entry: Json) {
    var r := ReadEntry(entry);
    r.Some? && (r.value.1 != [] ==> r.value.2.Some?)
  }

  lemma EntryErrorIff(pid: nat, stepId: nat, entry: Json, acc: Acc)
    ensures ApplyEntry(pid, stepId, entry, acc).error.None? <==> Applies(entry)
  {
  }

  /** `p` holds of every element of `s` (stated from the end, as the loop
      is folded). */
  predicate Every<T>(s: seq<T>, p: T -> bool)
    decreases |s|
  {
    s == [] || (Every(s[..|s| - 1], p) && p(s[|s| - 1]))
  }

  lemma {:induction false} EveryEach<T>(s: seq<T>, p: T -> bool)
    ensures Every(s, p) <==> forall k :: 0 <= k < |s| ==> p(s[k])
    decreases |s|
  {
    if s != [] {
      var n := |s| - 1;
      var init := s[..n];
      EveryEach(init, p);
      assert forall k :: 0 <= k < n ==> init[k] == s[k];
    }
  }

  lemma {:induction false} ApplyAllSucceedsEvery(pid: nat, stepId: nat, entries: seq<Json>, acc: Acc)
    ensures ApplyAll(pid, stepId, entries, acc).error.None? <==> Every(entries, Applies)
    decreases |entries|
  {
    if entries != [] {
      var n := |entries| - 1;
      ApplyAllSucceedsEvery(pid, stepId, entries[..n], acc);
      var prev := ApplyAll(pid, stepId, entries[..n], acc);
      if prev.error.None? {
        EntryErrorIff(pid, stepId, entries[n], prev.acc);
      }
    }
  }

  /** The loop over a file list finishes without an error exactly when every
      entry in it is one the loop gets through, whatever the table holds. */
  lemma ApplyAllSucceedsIff(pid: nat, stepId: nat, entries: seq<Json>, acc: Acc)
    ensures ApplyAll(pid, stepId, entries, acc).error.None? <==> forall k :: 0 <= k < |entries| ==> Applies(entries[k])
  {
    ApplyAllSucceedsEvery(pid, stepId, entries, acc);
    EveryEach(entries, Applies);
  }

  /** A named file whose entry reads as (`folder`, `name`, `code`) goes to
      the file step with that key and code. */
  lemma NamedEntryApplies(pid: nat, stepId: nat, entry: Json, folder: string, name: string, code: string, acc: Acc)
    requires ReadEntry(entry) == Some((folder, name, Some(code))) && name != []
    ensures ApplyEntry(pid, stepId, entry, acc) == ApplyFile(pid, stepId, folder, name, Some(code), acc)
  {
  }

  /** Entry k names a file and reads as `read[k]`: (folder, file, code). */
  predicate ReadsAs(entries: seq<Json>, read: seq<(string, string, string)>)
    decreases |entries|
  {
    |read| == |entries| &&
    (entries == [] ||
     (var n := |entries| - 1;
      ReadsAs(entries[..n], read[..n]) &&
      ReadEntry(entries[n]) == Some((read[n].0, read[n].1, Some(read[n].2))) && read[n].1 != []))
  }

  /** The records the loop creates for new keys read as `read`, in order. */
  function NewRecords(pid: nat, stepId: nat, read: seq<(string, string, string)>): (recs: seq<CodeFile>)
    ensures |recs| == |read|
    ensures forall k :: 0 <= k < |read| ==>
      recs[k] == CodeFile(pid, stepId, Some(read[k].0), read[k].1, Some(read[k].2))
    decreases |read|
  {
    if read == [] then []
    else
      var n := |read| - 1;
      NewRecords(pid, stepId, read[..n]) + [CodeFile(pid, stepId, Some(read[n].0), read[n].1, Some(read[n].2))]
  }

  /** The loop over entries already read as `read`: each names a file. */
  function ApplyReads(pid: nat, stepId: nat, read: seq<(string, string, string)>, acc: Acc): Applied
    decreases |read|
  {
    if read == [] then Applied(acc, None)
    else
      var n := |read| - 1;
      var prev := ApplyReads(pid, stepId, read[..n], acc);
      if prev.error.Some? then prev else ApplyFile(pid, stepId, read[n].0, read[n].1, Some(read[n].2), prev.acc)
  }

  /** Entries that read as `read` run the loop as `read` does. */
  lemma {:induction false} ApplyAllReads(pid: nat, stepId: nat, entries: seq<Json>,
                                         read: seq<(string, string, string)>, acc: Acc)
    requires ReadsAs(entries, read)
    ensures ApplyAll(pid, stepId, entries, acc) == ApplyReads(pid, stepId, read, acc)
    decreases |entries|
  {
    if entries != [] {
      var n := |entries| - 1;
      ApplyAllReads(pid, stepId, entries[..n], read[..n], acc);
      var prev := ApplyAll(pid, stepId, entries[..n], acc);
      NamedEntryApplies(pid, stepId, entries[n], read[n].0, read[n].1, read[n].2, prev.acc);
    }
  }

  /** N entries naming files with N distinct (folder, file) keys that the
      project has no record for, `read[k]` being what entry k reads as, give
      exactly N new records, in entry order, each holding its code verbatim;
      the existing records are untouched and nothing fails. */
  lemma NewFilesAppend(pid: nat, stepId: nat, entries: seq<Json>,
                       read: seq<(string, string, string)>, acc: Acc)
    requires ReadsAs(entries, read)
    requires forall k :: 0 <= k < |read| ==> FindRecord(acc.files, pid, read[k].0, read[k].1).None?
    requires forall j, k :: 0 <= j < k < |read| ==> (read[j].0, read[j].1) != (read[k].0, read[k].1)
    ensures var r := ApplyAll(pid, stepId, entries, acc);
      r.error.None? && r.acc.files == acc.files + NewRecords(pid, stepId, read)
  {
    ApplyAllReads(pid, stepId, entries, read, acc);
    NewReadsAppend(pid, stepId, read, acc);
  }

  lemma {:induction false} NewReadsAppend(pid: nat, stepId: nat, read: seq<(string, string, string)>, acc: Acc)
    requires forall k :: 0 <= k < |read| ==> FindRecord(acc.files, pid, read[k].0, read[k].1).None?
    requires forall j, k :: 0 <= j < k < |read| ==> (read[j].0, read[j].1) != (read[k].0, read[k].1)
    ensures var r := ApplyReads(pid, stepId, read, acc);
      r.error.None? && r.acc.files == acc.files + NewRecords(pid, stepId, read)
    decreases |read|
  {
    if read != [] {
      var n := |read| - 1;
      var readInit := read[..n];
      NewReadsAppend(pid, stepId, readInit, acc);
      var f := read[n];
      FreshKeyAfterNew(acc.files, pid, stepId, readInit, f);
      assert acc.files + NewRecords(pid, stepId, read)
          == acc.files + NewRecords(pid, stepId, readInit) + [CodeFile(pid, stepId, Some(f.0), f.1, Some(f.2))];
    }
  }

  /** A key absent from `base` and distinct from every `read` key has no
      record once the records for `read` are appended. */
  lemma FreshKeyAfterNew(base: seq<CodeFile>, pid: nat, stepId: nat,
                         read: seq<(string, string, string)>, f: (string, string, string))
    requires FindRecord(base, pid, f.0, f.1).None?
    requires forall k :: 0 <= k < |read| ==> (read[k].0, read[k].1) != (f.0, f.1)
    ensures FindRecord(base + NewRecords(pid, stepId, read), pid, f.0, f.1).None?
  {
    var files := base + NewRecords(pid, stepId, read);
    var m := |base|;
    forall i | 0 <= i < |files| ensures !KeyMatches(files[i], pid, f.0, f.1) {
      if i >= m {
        assert files[i] == NewRecords(pid, stepId, read)[i - m];
      }
    }
    NoMatchNoRecord(files, pid, f.0, f.1);
  }

  lemma NoMatchNoRecord(files: seq<CodeFile>, pid: nat, folder: string, name: string)
    requires forall i :: 0 <= i < |files| ==> !KeyMatches(files[i], pid, folder, name)
    ensures FindRecord(files, pid, folder, name).None?
  {
  }
}
