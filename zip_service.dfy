/** Packaging a project: rebuilding its staging tree from the CodeFile table
    and writing the staging tree into a ZIP archive named after the project
    and the time of packaging. */
module ZipService {
  import opened Wrappers
  import opened Text
  import opened Models

  /** Why packaging or rebuilding did not happen. */
  datatype ZipError = ProjectNotFound | SourceMissing

  /** `create_project_zip`'s answer: the archive's file name, or the reason. */
  datatype ZipResult = Zipped(fileName: string) | ZipFailed(reason: ZipError)

  /** `project_{id}`: the staging directory's name, and the head of every
      archive name of the project. */
  function ProjectDir(pid: nat): string {
    "project_" + NatToDecimal(pid)
  }

  /** `project_{id}_`: the prefix that marks an archive as the project's. */
  function ArchivePrefix(pid: nat): string {
    ProjectDir(pid) + "_"
  }

  /** `project_{id}_{stamp}.zip`, with `stamp` the `%Y%m%d%H%M%S` rendering
      of the packaging time. */
  function ArchiveName(pid: nat, stamp: string): string {
    ArchivePrefix(pid) + stamp + ".zip"
  }

  /** An archive name carries the prefix of exactly one project: the archives
      of project 12 never match the prefix of project 1, nor the other way
      round. */
  lemma ArchivePrefixMatch(p: nat, q: nat, stamp: string)
    ensures StartsWith(ArchiveName(q, stamp), ArchivePrefix(p)) <==> p == q
  {
    var dp, dq := NatToDecimal(p), NatToDecimal(q);
    var name, prefix := ArchiveName(q, stamp), ArchivePrefix(p);
    if StartsWith(name, prefix) {
      assert name == "project_" + dq + "_" + stamp + ".zip";
      assert prefix == "project_" + dp + "_";
      if |dp| < |dq| {
        SeparatorAfterDigits(p, stamp, q, |dp|);
        assert false;
      } else if |dq| < |dp| {
        SeparatorAfterDigits(q, stamp, p, |dq|);
        assert false;
      } else {
        forall i | 0 <= i < |dp| ensures dp[i] == dq[i] {
          assert prefix[8 + i] == dp[i] && name[8 + i] == dq[i];
        }
        assert dp == dq;
        DecimalInjective(p, q);
      }
    }
  }

  /** In an archive name of `q`, position `8 + i` is the `_` after the id,
      while in the prefix of a project with a longer id it is a digit. */
  lemma SeparatorAfterDigits(q: nat, stamp: string, p: nat, i: nat)
    ensures i == |NatToDecimal(q)| ==> ArchiveName(q, stamp)[8 + i] == '_' && ArchivePrefix(q)[8 + i] == '_'
    ensures i < |NatToDecimal(p)| ==> IsDigit(ArchivePrefix(p)[8 + i]) && IsDigit(ArchiveName(p, stamp)[8 + i])
  {
  }

  /** The path a CodeFile record is written to under the staging directory
      (a missing folder is the directory itself). */
  function RecordPath(f: CodeFile): string {
    JoinPath(f.folder.GetOr(""), f.name)
  }

  /** The index of the last record of project `pid` written to `path`. */
  function LastRecord(files: seq<CodeFile>, pid: nat, path: string): (r: Option<nat>)
    ensures r.Some? ==> r.value < |files| && files[r.value].projectId == pid && RecordPath(files[r.value]) == path
    ensures r.Some? ==> forall k :: r.value < k < |files| ==> !(files[k].projectId == pid && RecordPath(files[k]) == path)
    ensures r.None? ==> forall k :: 0 <= k < |files| ==> !(files[k].projectId == pid && RecordPath(files[k]) == path)
    decreases |files|
  {
    if files == [] then None
    else
      var last := files[|files| - 1];
      if last.projectId == pid && RecordPath(last) == path then Some(|files| - 1)
      else LastRecord(files[..|files| - 1], pid, path)
  }

  /** The staging tree after writing the records of project `pid`, in table
      order, over `tree`: each record's content (or "" when it is missing)
      at its path. */
  function Restage(files: seq<CodeFile>, pid: nat, tree: Tree): Tree
    decreases |files|
  {
    if files == [] then tree
    else
      var last := files[|files| - 1];
      var before := Restage(files[..|files| - 1], pid, tree);
      if last.projectId == pid then before[RecordPath(last) := last.content.GetOr("")] else before
  }

  /** What the rebuilt tree holds at `path`: the content of the last record of
      the project written there, or else what the tree held before (files
      without a record are kept). */
  lemma {:induction false} RestageAt(files: seq<CodeFile>, pid: nat, tree: Tree, path: string)
    ensures var w := LastRecord(files, pid, path);
      var t := Restage(files, pid, tree);
      (w.Some? ==> path in t && t[path] == files[w.value].content.GetOr("")) &&
      (w.None? ==> (path in t <==> path in tree) && (path in tree ==> t[path] == tree[path]))
    decreases |files|
  {
    if files != [] {
      RestageAt(files[..|files| - 1], pid, tree, path);
    }
  }

  /** Records of other projects play no part in the rebuilt tree. */
  lemma {:induction false} RestageOwnRecords(files: seq<CodeFile>, other: CodeFile, pid: nat, tree: Tree)
    requires other.projectId != pid
    ensures Restage(files + [other], pid, tree) == Restage(files, pid, tree)
  {
    assert (files + [other])[..|files|] == files;
  }

  /** `recreate_project_from_db(project_id)`: nothing for a missing project;
      otherwise the staging directory is created if needed and every record
      of the project is written into it, in table order. */
  method RecreateProjectFromDb(db: Store, pid: nat) returns (ok: bool)
    requires db.Valid()
    modifies db
    ensures db.Valid()
    ensures ok <==> pid in old(db.projects)
    ensures ok ==> db.staging == old(db.staging)[pid := Restage(old(db.codeFiles), pid, TreeOf(old(db.staging), pid))]
    ensures !ok ==> db.staging == old(db.staging)
    ensures db.projects == old(db.projects) && db.steps == old(db.steps) && db.codeFiles == old(db.codeFiles)
    ensures db.zips == old(db.zips) && db.log == old(db.log)
    ensures db.nextProjectId == old(db.nextProjectId) && db.nextStepId == old(db.nextStepId)
  {
    if pid !in db.projects {
      return false;
    }
    ghost var staging0 := db.staging;
    var tree0 := TreeOf(db.staging, pid);
    db.staging := db.staging[pid := tree0];
    var files := db.codeFiles;
    var i := 0;
    while i < |files|
      invariant 0 <= i <= |files|
      invariant db.staging == staging0[pid := Restage(files[..i], pid, tree0)]
      invariant db.projects == old(db.projects) && db.steps == old(db.steps) && db.codeFiles == files
      invariant db.zips == old(db.zips) && db.log == old(db.log)
      invariant db.nextProjectId == old(db.nextProjectId) && db.nextStepId == old(db.nextStepId)
    {
      var f := files[i];
      assert files[..i + 1][..i] == files[..i];
      if f.projectId == pid {
        var tree := db.staging[pid];
        Overwrite(staging0, pid, tree, tree[RecordPath(f) := f.content.GetOr("")]);
        db.staging := db.staging[pid := tree[RecordPath(f) := f.content.GetOr("")]];
      }
      i := i + 1;
    }
    assert files[..i] == files;
    ok := true;
  }

  /** The entries of an archive written from `tree`: every file, under its
      path relative to the staging directory. */
  method CollectEntries(tree: Tree) returns (entries: Tree)
    ensures entries == tree
  {
    entries := map[];
    var todo := tree.Keys;
    while todo != {}
      invariant todo <= tree.Keys
      invariant entries.Keys == tree.Keys - todo
      invariant forall p :: p in entries ==> entries[p] == tree[p]
      decreases |todo|
    {
      var p :| p in todo;
      entries := entries[p := tree[p]];
      todo := todo - {p};
    }
  }

  /** `create_project_zip(project_id)` at time `now`, `stamp` being its
      rendering: failure, with nothing written, for a missing project or a
      missing staging directory; otherwise the archive named after the project
      and the stamp holds exactly the staged files, replacing an archive of
      the same name. */
  method CreateProjectZip(db: Store, pid: nat, stamp: string, now: int) returns (r: ZipResult)
    requires db.Valid()
    modifies db
    ensures db.Valid()
    ensures pid !in old(db.projects) ==> r == ZipFailed(ProjectNotFound) && db.zips == old(db.zips)
    ensures pid in old(db.projects) && pid !in old(db.staging) ==> r == ZipFailed(SourceMissing) && db.zips == old(db.zips)
    ensures pid in old(db.projects) && pid in old(db.staging) ==>
      r == Zipped(ArchiveName(pid, stamp)) &&
      db.zips == old(db.zips)[ArchiveName(pid, stamp) := Archive(old(db.staging[pid]), now)]
    ensures db.projects == old(db.projects) && db.steps == old(db.steps) && db.codeFiles == old(db.codeFiles)
    ensures db.staging == old(db.staging) && db.log == old(db.log)
    ensures db.nextProjectId == old(db.nextProjectId) && db.nextStepId == old(db.nextStepId)
  {
    if pid !in db.projects {
      return ZipFailed(ProjectNotFound);
    }
    if pid !in db.staging {
      return ZipFailed(SourceMissing);
    }
    var name := ArchiveName(pid, stamp);
    var entries := CollectEntries(db.staging[pid]);
    db.zips := db.zips[name := Archive(entries, now)];
    r := Zipped(name);
  }
}
