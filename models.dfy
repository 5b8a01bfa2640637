/** The records the pipeline reads and writes (Project, ProjectStep, CodeFile,
    FeatureFlag in the ORM), and the mutable world they live in: the database
    tables, the per-project staging trees under TEMP_PROJECTS_DIR and the
    archives under ZIP_DIR. Timestamps are not modelled. */
module Models {
  import opened Wrappers

  datatype ProjectStatus = ProjectInProgress | ProjectCompleted | ProjectFailed

  datatype StepStatus = Pending | InProgress | Completed | Failed

  datatype Project = Project(
    userId: nat,
    title: string,
    originalPrompt: string,
    improvedPrompt: string,
    status: ProjectStatus)

  /** A ProjectStep row; `deliverables` is a nullable text column. */
  datatype Step = Step(
    projectId: nat,
    number: int,
    title: string,
    details: string,
    deliverables: Option<string>,
    status: StepStatus)

  /** A CodeFile row; `folder_path` and `file_content` are nullable columns. */
  datatype CodeFile = CodeFile(
    projectId: nat,
    stepId: nat,
    folder: Option<string>,
    name: string,
    content: Option<string>)

  /** A staging tree: every regular file under a project's staging directory,
      by its path relative to that directory. */
  type Tree = map<string, string>

  /** The staging tree of project `pid` once its directory exists
      (`os.makedirs(..., exist_ok=True)` leaves an existing tree as it is). */
  function TreeOf(staging: map<nat, Tree>, pid: nat): Tree {
    if pid in staging then staging[pid] else map[]
  }

  /** Writing a key twice leaves only the second write. */
  lemma Overwrite<K, V>(m: map<K, V>, k: K, a: V, b: V)
    ensures m[k := a][k := b] == m[k := b]
  {
  }

  /** A ZIP archive: its entries (archive-internal path to content) and the
      modification time of the archive file. */
  datatype Archive = Archive(entries: Tree, mtime: int)

  /** Why a step or a packaging request did not succeed. */
  datatype StepError =
    | ModelUnavailable // building the model client raised, before the step is read
    | StepNotFound
    | EmptyOutput      // blank model output after every attempt
    | InvalidJson      // the brace-bounded slice did not parse either
    | NotAnObject      // the parsed document is not a JSON object
    | NoFiles          // no entry with a non-blank "file"
    | NameCheckRaises  // the check for a named file reached an entry that raises
    | BadEntry         // an entry whose use raises (not an object, a non-string field)

  /** A FeatureFlag row, keyed by its unique name; `description` is a
      nullable column and `enabled` defaults to false. */
  datatype Flag = Flag(name: string, description: Option<string>, enabled: bool)

  /** What a poller can observe being committed, in order. */
  datatype Event =
    | StepStatusSet(stepId: nat, status: StepStatus)
    | ModelCalled(stepId: nat, attempt: nat, prompt: string)
    | ProjectStatusSet(projectId: nat, projectStatus: ProjectStatus)

  /** `os.path.join(folder, name)` for a normalised folder ("" is the staging root). */
  function JoinPath(folder: string, name: string): string {
    if folder == "" then name else folder + "/" + name
  }

  /** The database, the staging directory and the archive directory. Every
      change is treated as committed at once. */
  class Store {
    var projects: map<nat, Project>
    var steps: map<nat, Step>
    var codeFiles: seq<CodeFile>
    /** TEMP_PROJECTS_DIR/project_{id}: a key is present iff the directory exists. */
    var staging: map<nat, Tree>
    /** ZIP_DIR: archives by file name. */
    var zips: map<string, Archive>
    /** The autoincrement counters of the project and step tables. */
    var nextProjectId: nat
    var nextStepId: nat
    /** Every commit of a status and every model call, in order. */
    ghost var log: seq<Event>

    ghost predicate Valid()
      reads this
    {
      (forall id :: id in projects ==> id < nextProjectId) &&
      (forall id :: id in steps ==> id < nextStepId)
    }

    constructor ()
      ensures Valid()
      ensures projects == map[] && steps == map[] && codeFiles == []
      ensures staging == map[] && zips == map[] && log == []
    {
      projects, steps, codeFiles := map[], map[], [];
      staging, zips := map[], map[];
      nextProjectId, nextStepId := 1, 1;
      log := [];
    }
  }
}
