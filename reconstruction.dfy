/** The staging tree a run builds against the tree `recreate_project_from_db`
    rebuilds from the CodeFile table. The two agree as long as no two
    records of the project are written to the same path; two keys that join
    to the same path (folder "" with file "a/b.py", and folder "a" with file
    "b.py") make them differ. */
module Reconstruction {
  import opened Wrappers
  import opened Text
  import opened Json
  import opened Models
  import opened Accumulator
  import opened ZipService
  import opened StepExecutor

  /** No two records of project `pid` are written to the same path. */
  predicate PathsUnique(files: seq<CodeFile>, pid: nat) {
    forall j, k :: 0 <= j < k < |files| && files[j].projectId == pid && files[k].projectId == pid ==>
      RecordPath(files[j]) != RecordPath(files[k])
  }

  /** With file names free of `/`, distinct (folder, file) pairs join to
      distinct paths: the file name is what follows the last `/`. */
  lemma JoinPathInjective(f1: string, n1: string, f2: string, n2: string)
    requires '/' !in n1 && '/' !in n2
    requires JoinPath(f1, n1) == JoinPath(f2, n2)
    ensures f1 == f2 && n1 == n2
  {
    var p := JoinPath(f1, n1);
    if f1 == "" && f2 != "" {
      assert false;
    } else if f1 != "" && f2 == "" {
      assert false;
    } else if f1 != "" {
      if |n1| < |n2| {
        SlashInLongerName(f1, n1, f2, n2);
      } else if |n2| < |n1| {
        SlashInLongerName(f2, n2, f1, n1);
      } else {
        assert n1 == p[|p| - |n1|..] == n2;
        assert f1 == p[..|f1|] == f2;
      }
    }
  }

  /** Of two joins of a folder and a name that are equal, the longer name
      holds the other's separator. */
  lemma SlashInLongerName(f1: string, n1: string, f2: string, n2: string)
    requires f1 != "" && f2 != "" && |n1| < |n2| && f1 + "/" + n1 == f2 + "/" + n2
    ensures '/' in n2
  {
    var p := f1 + "/" + n1;
    assert p[|p| - |n1| - 1] == '/';
    assert p[|p| - |n1| - 1] == n2[|n2| - |n1| - 1];
  }

  /** Records with a folder, file names free of `/` and unique keys (which
      the accumulation keeps) are at distinct paths. */
  lemma UniqueKeysGiveUniquePaths(files: seq<CodeFile>, pid: nat)
    requires UniqueKeys(files, pid)
    requires forall k :: 0 <= k < |files| && files[k].projectId == pid ==> files[k].folder.Some? && '/' !in files[k].name
    ensures PathsUnique(files, pid)
  {
    forall j, k | 0 <= j < k < |files| && files[j].projectId == pid && files[k].projectId == pid
      ensures RecordPath(files[j]) != RecordPath(files[k])
    {
      if RecordPath(files[j]) == RecordPath(files[k]) {
        JoinPathInjective(files[j].folder.value, files[j].name, files[k].folder.value, files[k].name);
      }
    }
  }

  /** `after` keeps the records of `before` at their indices, each with its
      project and path (content and step may change), and may add more. */
  predicate KeepsPlaces(before: seq<CodeFile>, after: seq<CodeFile>) {
    |after| >= |before| &&
    forall k :: 0 <= k < |before| ==>
      after[k].projectId == before[k].projectId && RecordPath(after[k]) == RecordPath(before[k])
  }

  /** Distinct paths in the longer table mean distinct paths in the shorter. */
  lemma UniqueBefore(before: seq<CodeFile>, after: seq<CodeFile>, pid: nat)
    requires KeepsPlaces(before, after) && PathsUnique(after, pid)
    ensures PathsUnique(before, pid)
  {
    forall j, k | 0 <= j < k < |before| && before[j].projectId == pid && before[k].projectId == pid
      ensures RecordPath(before[j]) != RecordPath(before[k])
    {
      assert after[j].projectId == pid && after[k].projectId == pid;
    }
  }

  /** With distinct paths, a record of the project is the last one written
      to its own path. */
  lemma UniqueIsLast(files: seq<CodeFile>, pid: nat, i: nat)
    requires PathsUnique(files, pid) && i < |files| && files[i].projectId == pid
    ensures LastRecord(files, pid, RecordPath(files[i])) == Some(i)
  {
    var w := LastRecord(files, pid, RecordPath(files[i]));
    assert w.Some?;
  }

  /** Writing one more record writes its content at its path. */
  lemma RestageAppend(files: seq<CodeFile>, rec: CodeFile, pid: nat, tree: Tree)
    requires rec.projectId == pid
    ensures Restage(files + [rec], pid, tree) == Restage(files, pid, tree)[RecordPath(rec) := rec.content.GetOr("")]
  {
    assert (files + [rec])[..|files|] == files;
  }

  /** Rewriting the last record written to a path, keeping its project and
      path, changes that path and nothing else in the rebuilt tree. */
  lemma {:induction false} RestageUpdate(files: seq<CodeFile>, pid: nat, tree: Tree, i: nat, rec: CodeFile)
    requires i < |files| && files[i].projectId == pid
    requires rec.projectId == pid && RecordPath(rec) == RecordPath(files[i])
    requires LastRecord(files, pid, RecordPath(files[i])) == Some(i)
    ensures Restage(files[i := rec], pid, tree) == Restage(files, pid, tree)[RecordPath(rec) := rec.content.GetOr("")]
    decreases |files|
  {
    var n := |files| - 1;
    var init, last := files[..n], files[n];
    assert files == init + [last];
    if i == n {
      assert files[i := rec] == init + [rec];
      RestageAppend(init, rec, pid, tree);
      RestageAppend(init, last, pid, tree);
    } else {
      assert files[i := rec] == init[i := rec] + [last];
      assert LastRecord(init, pid, RecordPath(files[i])) == Some(i);
      RestageUpdate(init, pid, tree, i, rec);
      if last.projectId == pid {
        RestageAppend(init, last, pid, tree);
        RestageAppend(init[i := rec], last, pid, tree);
        UpdatesCommute(Restage(init, pid, tree), RecordPath(rec), rec.content.GetOr(""), RecordPath(last), last.content.GetOr(""));
      } else {
        RestageOwnRecords(init, last, pid, tree);
        RestageOwnRecords(init[i := rec], last, pid, tree);
      }
    }
  }

  lemma UpdatesCommute(m: Tree, p: string, a: string, q: string, b: string)
    requires p != q
    ensures m[p := a][q := b] == m[q := b][p := a]
  {
  }

  /** Rebuilding over a tree that is already the rebuild of the same table
      gives that tree back. */
  lemma RestageIdempotent(files: seq<CodeFile>, pid: nat)
    ensures Restage(files, pid, Restage(files, pid, map[])) == Restage(files, pid, map[])
  {
    var t := Restage(files, pid, map[]);
    var u := Restage(files, pid, t);
    forall path | path in u || path in t ensures path in u && path in t && u[path] == t[path] {
      RestageAt(files, pid, map[], path);
      RestageAt(files, pid, t, path);
    }
  }

  /** The loop body for a named file keeps the places of the records. */
  lemma ApplyFilePlaces(pid: nat, stepId: nat, folder: string, name: string, code: Option<string>, acc: Acc)
    ensures KeepsPlaces(acc.files, ApplyFile(pid, stepId, folder, name, code, acc).acc.files)
  {
  }

  /** One pass of the loop keeps the places of the records. */
  lemma ApplyEntryPlaces(pid: nat, stepId: nat, entry: Json, acc: Acc)
    ensures KeepsPlaces(acc.files, ApplyEntry(pid, stepId, entry, acc).acc.files)
  {
    match ReadEntry(entry)
    case None =>
    case Some((folder, name, code)) =>
      if name != [] {
        ApplyFilePlaces(pid, stepId, folder, name, code, acc);
      }
  }

  /** The loop keeps the places of the records. */
  lemma {:induction false} ApplyAllPlaces(pid: nat, stepId: nat, entries: seq<Json>, acc: Acc)
    ensures KeepsPlaces(acc.files, ApplyAll(pid, stepId, entries, acc).acc.files)
    decreases |entries|
  {
    if entries != [] {
      var n := |entries| - 1;
      ApplyAllPlaces(pid, stepId, entries[..n], acc);
      var prev := ApplyAll(pid, stepId, entries[..n], acc);
      if prev.error.None? {
        ApplyEntryPlaces(pid, stepId, entries[n], prev.acc);
      }
    }
  }

  /** A file step that does not raise keeps the tree equal to the rebuild
      of the table, provided the project's paths stay distinct. */
  lemma ApplyFileRebuilds(pid: nat, stepId: nat, folder: string, name: string, code: Option<string>, acc: Acc)
    requires Restage(acc.files, pid, map[]) == acc.tree
    requires var r := ApplyFile(pid, stepId, folder, name, code, acc);
      r.error.None? && PathsUnique(r.acc.files, pid)
    ensures var r := ApplyFile(pid, stepId, folder, name, code, acc);
      Restage(r.acc.files, pid, map[]) == r.acc.tree
  {
    var r := ApplyFile(pid, stepId, folder, name, code, acc);
    match FindRecord(acc.files, pid, folder, name)
    case Some(i) =>
      ApplyFilePlaces(pid, stepId, folder, name, code, acc);
      UniqueBefore(acc.files, r.acc.files, pid);
      UniqueIsLast(acc.files, pid, i);
      RestageUpdate(acc.files, pid, map[], i, r.acc.files[i]);
    case None =>
      RestageAppend(acc.files, CodeFile(pid, stepId, Some(folder), name, Some(code.value)), pid, map[]);
  }

  /** The same for one pass of the loop. */
  lemma ApplyEntryRebuilds(pid: nat, stepId: nat, entry: Json, acc: Acc)
    requires Restage(acc.files, pid, map[]) == acc.tree
    requires var r := ApplyEntry(pid, stepId, entry, acc);
      r.error.None? && PathsUnique(r.acc.files, pid)
    ensures var r := ApplyEntry(pid, stepId, entry, acc);
      Restage(r.acc.files, pid, map[]) == r.acc.tree
  {
    match ReadEntry(entry)
    case None =>
    case Some((folder, name, code)) =>
      if name != [] {
        ApplyFileRebuilds(pid, stepId, folder, name, code, acc);
      }
  }

  /** A file list whose entries all go through keeps the staging tree equal
      to the rebuild of the table, as long as the project's records end up
      at distinct paths. */
  lemma {:induction false} ApplyAllRebuilds(pid: nat, stepId: nat, entries: seq<Json>, acc: Acc)
    requires Restage(acc.files, pid, map[]) == acc.tree
    requires var r := ApplyAll(pid, stepId, entries, acc);
      r.error.None? && PathsUnique(r.acc.files, pid)
    ensures var r := ApplyAll(pid, stepId, entries, acc);
      Restage(r.acc.files, pid, map[]) == r.acc.tree
    decreases |entries|
  {
    if entries != [] {
      var n := |entries| - 1;
      var prev := ApplyAll(pid, stepId, entries[..n], acc);
      var r := ApplyAll(pid, stepId, entries, acc);
      assert prev.error.None?;
      ApplyEntryPlaces(pid, stepId, entries[n], prev.acc);
      UniqueBefore(prev.acc.files, r.acc.files, pid);
      ApplyAllRebuilds(pid, stepId, entries[..n], acc);
      ApplyEntryRebuilds(pid, stepId, entries[n], prev.acc);
    }
  }

  /** A parsed document that does not fail on a raising entry keeps the
      project's staging tree equal to the rebuild of the table, as long as
      the project's records stay at distinct paths. */
  lemma DocKeepsRebuildable(pid: nat, stepId: nat, v: Json, st: StepState)
    requires Restage(st.files, pid, map[]) == TreeOf(st.staging, pid)
    requires var (res, after) := ProcessDoc(pid, stepId, v, st);
      res != StepFailed(BadEntry) && PathsUnique(after.files, pid)
    ensures var after := ProcessDoc(pid, stepId, v, st).1;
      Restage(after.files, pid, map[]) == TreeOf(after.staging, pid)
  {
    if v.JObj? {
      var items := FileList(Get(v.fields, "files", JArr([])));
      if items != [] && NamedFileCheck(items) == Some(true) {
        var acc := Acc(st.files, TreeOf(st.staging, pid));
        AccumulationErrorIsBadEntry(pid, stepId, items, acc);
        ApplyAllRebuilds(pid, stepId, items, acc);
      }
    }
  }

  /** A step that does not fail on a raising entry keeps the project's
      staging tree equal to the rebuild of the table, as long as the
      project's records stay at distinct paths; so rebuilding the staging
      directory from the table then reproduces it exactly. */
  lemma StepKeepsRebuildable(pid: nat, stepId: nat, number: int, response: string,
                             parse: string -> Option<Json>, st: StepState)
    requires Restage(st.files, pid, map[]) == TreeOf(st.staging, pid)
    requires var (res, after) := ProcessResponse(pid, stepId, number, response, parse, st);
      res != StepFailed(BadEntry) && PathsUnique(after.files, pid)
    ensures var after := ProcessResponse(pid, stepId, number, response, parse, st).1;
      Restage(after.files, pid, map[]) == TreeOf(after.staging, pid) &&
      Restage(after.files, pid, TreeOf(after.staging, pid)) == TreeOf(after.staging, pid)
  {
    var after := ProcessResponse(pid, stepId, number, response, parse, st).1;
    if !Blank(response) {
      match ParseResponse(response, parse)
      case Doc(v) => DocKeepsRebuildable(pid, stepId, v, st);
      case NoBraces =>
        RestageAppend(st.files, CodeFile(pid, stepId, Some(""), RawName(number), Some(Strip(response))), pid, map[]);
      case SliceInvalid =>
    }
    RestageIdempotent(after.files, pid);
  }

  /** Keys ("", "a/b.py") and ("a", "b.py") are distinct but share the path
      "a/b.py". Writing X, then Y, then Z under the first key again leaves
      "X\nZ" in the staging tree (the merge goes to the first key's record),
      while the rebuild from the table writes the records in order and ends
      with the second record's "Y". */
  lemma CollidingPathsDiverge()
    ensures var a1 := ApplyFile(1, 1, "", "a/b.py", Some("X"), Acc([], map[]));
      var a2 := ApplyFile(1, 1, "a", "b.py", Some("Y"), a1.acc);
      var a3 := ApplyFile(1, 1, "", "a/b.py", Some("Z"), a2.acc);
      a1.error.None? && a2.error.None? && a3.error.None? &&
      UniqueKeys(a3.acc.files, 1) &&
      a3.acc.tree["a/b.py"] == "X\nZ" &&
      Restage(a3.acc.files, 1, map[])["a/b.py"] == "Y"
  {
    var x := CodeFile(1, 1, Some(""), "a/b.py", Some("X"));
    var y := CodeFile(1, 1, Some("a"), "b.py", Some("Y"));
    var a1 := ApplyFile(1, 1, "", "a/b.py", Some("X"), Acc([], map[]));
    assert a1.acc.files == [x];
    var a2 := ApplyFile(1, 1, "a", "b.py", Some("Y"), a1.acc);
    assert !KeyMatches(x, 1, "a", "b.py");
    assert a2.acc.files == [x, y];
    var a3 := ApplyFile(1, 1, "", "a/b.py", Some("Z"), a2.acc);
    assert KeyMatches(x, 1, "", "a/b.py");
    assert FindRecord(a2.acc.files, 1, "", "a/b.py") == Some(0);
    assert "X" + "\n" + "Z" == "X\nZ";
    var x' := x.(content := Some("X\nZ"));
    assert a3.acc.files == [x', y];
    assert RecordPath(x') == "a/b.py" && RecordPath(y) == "a/b.py";
    assert [x', y][..1] == [x'];
  }
}
