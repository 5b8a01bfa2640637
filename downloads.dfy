/** Finding a project's newest archive and downloading it, packaging the
    project again from the CodeFile table when it has none. */
module Downloads {
  import opened Text
  import opened Models
  import opened ZipService

  /** The archive names that start with `project_{id}_`. */
  function MatchingArchives(zips: map<string, Archive>, pid: nat): (names: set<string>)
    ensures forall name :: name in names <==> name in zips && StartsWith(name, ArchivePrefix(pid))
  {
    set name | name in zips && StartsWith(name, ArchivePrefix(pid))
  }

  /** The status route's test for offering a download. */
  predicate ArchiveAvailable(zips: map<string, Archive>, pid: nat) {
    MatchingArchives(zips, pid) != {}
  }

  /** Packaging project `q` makes an archive available for `q`, and for no
      other project. */
  lemma PackagingIsPerProject(zips: map<string, Archive>, q: nat, stamp: string, a: Archive, p: nat)
    ensures ArchiveAvailable(zips[ArchiveName(q, stamp) := a], q)
    ensures p != q ==> (ArchiveAvailable(zips[ArchiveName(q, stamp) := a], p) <==> ArchiveAvailable(zips, p))
  {
    ArchivePrefixMatch(q, q, stamp);
    ArchivePrefixMatch(p, q, stamp);
    var zips' := zips[ArchiveName(q, stamp) := a];
    assert ArchiveName(q, stamp) in MatchingArchives(zips', q);
    if p != q {
      assert MatchingArchives(zips', p) == MatchingArchives(zips, p);
    }
  }

  /** The download's choice among the project's archives: one with the
      greatest modification time (the last after sorting by time). */
  method LatestArchive(zips: map<string, Archive>, pid: nat) returns (name: string)
    requires ArchiveAvailable(zips, pid)
    ensures name in zips && StartsWith(name, ArchivePrefix(pid))
    ensures forall n :: n in zips && StartsWith(n, ArchivePrefix(pid)) ==> zips[n].mtime <= zips[name].mtime
  {
    var prefix := ArchivePrefix(pid);
    name := "";
    var found := false;
    var todo := zips.Keys;
    while todo != {}
      invariant todo <= zips.Keys
      invariant found ==> name in zips && StartsWith(name, prefix)
      invariant found ==> forall n :: n in zips && n !in todo && StartsWith(n, prefix) ==> zips[n].mtime <= zips[name].mtime
      invariant !found ==> forall n :: n in zips && n !in todo ==> !StartsWith(n, prefix)
      decreases |todo|
    {
      var n :| n in todo;
      if StartsWith(n, prefix) && (!found || zips[name].mtime <= zips[n].mtime) {
        name, found := n, true;
      }
      todo := todo - {n};
    }
  }

  datatype Download =
    | NotFound                                     // 404 from get_or_404
    | Unauthorized                                 // 403
    | Sent(fileName: string, downloadName: string) // the archive, as an attachment

  /** The attachment name: the title with spaces as underscores, plus ".zip". */
  function DownloadName(title: string): string {
    ReplaceChar(title, ' ', '_') + ".zip"
  }

  /** `download_project(project_id)` by user `userId`: the newest archive of
      the project, or else one packaged now from the staging tree rebuilt
      from the CodeFile table; the staging directory is removed after the
      response. */
  method DownloadProject(db: Store, pid: nat, userId: nat, stamp: string, now: int) returns (r: Download)
    requires db.Valid()
    modifies db
    ensures db.Valid()
    ensures pid !in old(db.projects) ==> r == NotFound
    ensures pid in old(db.projects) && old(db.projects[pid].userId) != userId ==> r == Unauthorized
    ensures r.NotFound? || r.Unauthorized? ==> db.staging == old(db.staging) && db.zips == old(db.zips)
    ensures pid in old(db.projects) && old(db.projects[pid].userId) == userId && ArchiveAvailable(old(db.zips), pid) ==>
      r.Sent? && r.fileName in old(db.zips) && StartsWith(r.fileName, ArchivePrefix(pid)) &&
      (forall n :: n in old(db.zips) && StartsWith(n, ArchivePrefix(pid)) ==> old(db.zips)[n].mtime <= old(db.zips)[r.fileName].mtime) &&
      db.zips == old(db.zips)
    ensures pid in old(db.projects) && old(db.projects[pid].userId) == userId && !ArchiveAvailable(old(db.zips), pid) ==>
      var rebuilt := Restage(old(db.codeFiles), pid, TreeOf(old(db.staging), pid));
      r.Sent? && r.fileName == ArchiveName(pid, stamp) &&
      db.zips == old(db.zips)[ArchiveName(pid, stamp) := Archive(rebuilt, now)]
    ensures r.Sent? ==> r.downloadName == DownloadName(old(db.projects[pid].title)) && db.staging == old(db.staging) - {pid}
    ensures db.projects == old(db.projects) && db.steps == old(db.steps) && db.codeFiles == old(db.codeFiles)
    ensures db.log == old(db.log)
    ensures db.nextProjectId == old(db.nextProjectId) && db.nextStepId == old(db.nextStepId)
  {
    if pid !in db.projects {
      return NotFound;
    }
    var project := db.projects[pid];
    if project.userId != userId {
      return Unauthorized;
    }
    var fileName;
    if !ArchiveAvailable(db.zips, pid) {
      var ok := RecreateProjectFromDb(db, pid);
      var zipped := CreateProjectZip(db, pid, stamp, now);
      fileName := zipped.fileName;
    } else {
      fileName := LatestArchive(db.zips, pid);
    }
    db.staging := db.staging - {pid};
    r := Sent(fileName, DownloadName(project.title));
  }
}
