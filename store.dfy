/** The relational store of lib/db.php: the column enumerations that the
    schema's CHECK constraints impose, one record per table row, and the
    database object whose tables the request handlers update. Tables are
    sequences in row-id order; an UPDATE rewrites every row its WHERE clause
    matches, an INSERT appends. */
module Store {
  import opened Wrappers
  import opened Text

  /** The `source` column of the issues table (CHECK source IN ('github', 'linear')). */
  datatype Source = GitHub | Linear

  function SourceName(s: Source): string {
    match s
    case GitHub => "github"
    case Linear => "linear"
  }

  /** The `assessment` column (CHECK assessment IN ('pending', 'too_complex', 'agentic_pr_capable')). */
  datatype Assessment = Pending | TooComplex | AgenticPrCapable

  function AssessmentName(a: Assessment): string {
    match a
    case Pending => "pending"
    case TooComplex => "too_complex"
    case AgenticPrCapable => "agentic_pr_capable"
  }

  /** Whether a text value passes the CHECK constraint of the assessment
      column, and which value it stores. */
  function ParseAssessment(s: string): (r: Option<Assessment>)
    ensures r.Some? <==> s in {"pending", "too_complex", "agentic_pr_capable"}
    ensures r.Some? ==> AssessmentName(r.value) == s
  {
    if s == "pending" then Some(Pending)
    else if s == "too_complex" then Some(TooComplex)
    else if s == "agentic_pr_capable" then Some(AgenticPrCapable)
    else None
  }

  /** The `pr_status` column (DEFAULT 'none', CHECK pr_status IN ('none',
      'in_progress', 'branch_pushed', 'pr_created', 'needs_review', 'failed')). */
  datatype PrStatus = PrNone | InProgress | BranchPushed | PrCreated | NeedsReview | Failed

  function PrStatusName(p: PrStatus): string {
    match p
    case PrNone => "none"
    case InProgress => "in_progress"
    case BranchPushed => "branch_pushed"
    case PrCreated => "pr_created"
    case NeedsReview => "needs_review"
    case Failed => "failed"
  }

  /** A row of the issues table. `labels` is the list that the row stores as
      its JSON encoding. */
  datatype Issue = Issue(
    id: nat,
    repoId: nat,
    source: Source,
    sourceId: string,
    sourceUrl: Option<string>,
    title: string,
    description: Option<string>,
    labels: seq<string>,
    priority: Option<string>,
    status: Option<string>,
    summary: Option<string>,
    assessment: Assessment,
    prStatus: PrStatus,
    prUrl: Option<string>,
    prBranch: Option<string>,
    analysisModel: Option<string>,
    createdAt: Option<string>,
    updatedAt: Option<string>,
    analyzedAt: Option<string>)

  /** A row of the callbacks table. The table has no CHECK on `status`, so
      any reported text can be stored. The two paths are read by the callback
      handler but are not columns of the table that lib/db.php creates; they
      are None for every row of that schema. */
  datatype CallbackRow = CallbackRow(
    id: nat,
    issueId: nat,
    callbackId: string,
    status: string,
    createdAt: Option<string>,
    completedAt: Option<string>,
    repoRootPath: Option<string>,
    worktreePath: Option<string>)

  /** A row of the repos table. `source` is kept as text so that the
      handlers' "invalid source" branches can be modelled. */
  datatype Repo = Repo(
    id: nat,
    source: string,
    sourceId: string,
    name: string,
    localPath: Option<string>,
    defaultBranch: string,
    autoCreatePr: bool)

  /** One issue as a tracker client hands it to the sync code. */
  datatype FetchedIssue = FetchedIssue(
    sourceId: string,
    sourceUrl: string,
    title: string,
    description: string,
    labels: seq<string>,
    priority: Option<string>,
    status: string,
    createdAt: string)

  /** Which columns the issues table keeps unique. lib/db.php declares
      UNIQUE(source, source_id); the handlers look rows up by source,
      source_id and repo_id. */
  datatype UniqueKey = SourceAndSourceId | SourceSourceIdAndRepo

  /** Two rows clash under the key. */
  predicate SameKey(key: UniqueKey, a: Issue, b: Issue) {
    a.source == b.source && a.sourceId == b.sourceId &&
    (key == SourceSourceIdAndRepo ==> a.repoId == b.repoId)
  }

  /** No two rows clash under the key: the table satisfies its constraint. */
  predicate KeysUnique(key: UniqueKey, t: seq<Issue>) {
    forall i, j :: 0 <= i < j < |t| ==> !SameKey(key, t[i], t[j])
  }

  /** The database connection: the four tables the core reads and writes. */
  class Database {
    var issues: seq<Issue>
    var callbacks: seq<CallbackRow>
    var repos: seq<Repo>
    var settings: map<string, string>
    const key: UniqueKey

    constructor (key: UniqueKey)
      ensures this.key == key
      ensures issues == [] && callbacks == [] && repos == [] && settings == map[]
    {
      this.key := key;
      issues, callbacks, repos, settings := [], [], [], map[];
    }
  }

  /** The first row with the given id (`SELECT ... WHERE id = ?`). */
  function FindIssue(t: seq<Issue>, id: nat): (r: Option<nat>)
    ensures r.Some? ==> r.value < |t| && t[r.value].id == id
    ensures r.Some? ==> forall j :: 0 <= j < r.value ==> t[j].id != id
    ensures r.None? ==> forall j :: 0 <= j < |t| ==> t[j].id != id
  {
    if t == [] then None
    else if t[0].id == id then Some(0)
    else match FindIssue(t[1..], id)
      case None => None
      case Some(k) => Some(k + 1)
  }

  function FindRepo(t: seq<Repo>, id: nat): (r: Option<nat>)
    ensures r.Some? ==> r.value < |t| && t[r.value].id == id
    ensures r.None? ==> forall j :: 0 <= j < |t| ==> t[j].id != id
  {
    if t == [] then None
    else if t[0].id == id then Some(0)
    else match FindRepo(t[1..], id)
      case None => None
      case Some(k) => Some(k + 1)
  }

  /** The id SQLite gives the next inserted row of a table without
      AUTOINCREMENT: one more than the largest id in use. */
  function NextId(t: seq<Issue>): (r: nat)
    ensures r > 0
    ensures forall j :: 0 <= j < |t| ==> t[j].id < r
  {
    if t == [] then 1
    else var rest := NextId(t[1..]); if t[0].id < rest then rest else t[0].id + 1
  }

  /** `get_setting(key)` without the decryption step: '' when the row is
      missing or its value is empty. */
  function GetSetting(settings: map<string, string>, key: string): (r: string)
    ensures key in settings && Truthy(settings[key]) ==> r == settings[key]
    ensures !(key in settings && Truthy(settings[key])) ==> !Truthy(r)
  {
    if key in settings && Truthy(settings[key]) then settings[key] else ""
  }

  /** `UPDATE issues SET pr_status = ?, [pr_url = ?,] updated_at = ... WHERE
      id = ?`: the pr_url column is written only when a URL is given. */
  function SetPr(t: seq<Issue>, id: nat, p: PrStatus, url: Option<string>, now: string): (r: seq<Issue>)
    ensures |r| == |t|
    ensures forall k :: 0 <= k < |t| && t[k].id != id ==> r[k] == t[k]
    ensures forall k :: 0 <= k < |t| && t[k].id == id ==>
              r[k].prStatus == p && r[k].updatedAt == Some(now) &&
              r[k].prUrl == (if url.Some? then url else t[k].prUrl) &&
              r[k] == t[k].(prStatus := r[k].prStatus, prUrl := r[k].prUrl, updatedAt := r[k].updatedAt)
  {
    seq(|t|, k requires 0 <= k < |t| =>
      if t[k].id == id then t[k].(prStatus := p, prUrl := if url.Some? then url else t[k].prUrl, updatedAt := Some(now))
      else t[k])
  }

  /** Row ids are distinct: `id INTEGER PRIMARY KEY`. */
  predicate IdsUnique(t: seq<Issue>) {
    forall i, j :: 0 <= i < j < |t| ==> t[i].id != t[j].id
  }
}
