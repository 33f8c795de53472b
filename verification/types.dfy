/** The data the core works on: YAML configuration sections, input-dataset
    records, the session type of a project, job identities, and the errors the
    source raises. */
module Types {
  import opened Wrappers

  /** A YAML scalar as the core sees it: a string, or `Null`/`NULL` written
      without quotes (Python's `None`). */
  datatype Val = Str(s: string) | Null

  /** Python's `str(value)`. */
  function Render(v: Val): string {
    match v
    case Str(s) => s
    case Null => "None"
  }

  /** A YAML mapping is read into a Python dict: its keys are distinct and its
      items keep their file order. */
  ghost predicate DistinctKeys(entries: seq<(string, Val)>) {
    forall i, j :: 0 <= i < j < |entries| ==> entries[i].0 != entries[j].0
  }

  type Section = entries: seq<(string, Val)> | DistinctKeys(entries)

  predicate HasKey(sec: seq<(string, Val)>, key: string) {
    exists i :: 0 <= i < |sec| && sec[i].0 == key
  }

  /** `sec[key]` for a key that is present. */
  function Lookup(sec: seq<(string, Val)>, key: string): (v: Val)
    requires HasKey(sec, key)
    ensures exists i :: 0 <= i < |sec| && sec[i] == (key, v)
  {
    if sec[0].0 == key then sec[0].1 else Lookup(sec[1..], key)
  }

  /** The sections of the container configuration file the core reads. */
  datatype Config = Config(
    singularityRun: Option<Section>,   // babs_singularity_run
    zipFoldername: Option<Section>,    // babs_zip_foldername
    clusterResources: Option<Section>  // cluster_resources
  )

  /** One row of the input-dataset table. */
  datatype InputDs = InputDs(
    name: string,
    pathNowRel: string,
    pathNowAbs: string,
    pathDataRel: string,
    isZipped: bool
  )

  /** The canonical session types of a project. */
  datatype SessionType = SingleSes | MultiSes {
    function Name(): string {
      match this
      case SingleSes => "single-ses"
      case MultiSes => "multi-ses"
    }
  }

  /** One unit of work: a subject, and a session in multi-session projects. */
  datatype Job = Job(sub: string, ses: Option<string>)

  /** What the source raises, one constructor per distinct condition. */
  datatype Error =
    | InvalidTypeSession(typeSession: string)
    | NoSubFolder(dsNumber: nat, dsName: string)
    | NoSesFolder(dsNumber: nat, dsName: string, sub: string)
    | MissingSection(section: string)
    | UnboundPlaceholder(value: string)
    | InputPathRequired
    | InputPathMismatch(expected: string)
    | NoInputDataset
    | BadInputPath(inputPath: Val)
    | NullValue(key: string)
    | UnknownResourceKey(key: string)
    | TooManyRequiredDatasets
    | BadDatasetKey(key: string)
    | DatasetNotExist(key: string)
    | CountZero
    | JobArgCount(index: nat)
    | JobSubFormat(index: nat)
    | JobSesFormat(index: nat)
    | InvalidWhichFunction(which: string)
    | JobNotInLedger
    | EmptyResubmitFlag(index: nat)
    | NoValidResubmitJob
}
