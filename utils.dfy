/** The helpers of lib/utils.php other than slugify and process_template:
    model selection and name mapping, the issue upsert, pull-request
    detection, the AI call with one retry, and the list of offered models.
    The environment (`get_env_value`) is a map from variable names to
    values; the chat replies and the pull-request list are parameters. */
module Utils {
  import opened Wrappers
  import opened Text
  import opened Store

  // ---------------------------------------------------------------------
  // get_assessment_model

  /** The default model when neither the request nor the settings name one. */
  const DefaultModel: string := "gpt-5.2"

  /** A truthy override wins, then a non-empty stored setting, then the
      default; the result is never empty. */
  function GetAssessmentModel(override: Option<string>, settings: map<string, string>): (r: string)
    ensures TruthyOpt(override) ==> r == override.value
    ensures !TruthyOpt(override) && Truthy(GetSetting(settings, "assessment_model")) ==> r == settings["assessment_model"]
    ensures !TruthyOpt(override) && !Truthy(GetSetting(settings, "assessment_model")) ==> r == DefaultModel
    ensures Truthy(r)
  {
    if TruthyOpt(override) then override.value
    else
      var model := GetSetting(settings, "assessment_model");
      if Truthy(model) then model else DefaultModel
  }

  // ---------------------------------------------------------------------
  // Model-name mappings

  const ClaudeModels: map<string, string> := map[
    "claude-opus-4-6" := "claude-opus-4-6",
    "claude-sonnet-4-5" := "claude-sonnet-4-5-20250929",
    "claude-3-5-sonnet-20241022" := "claude-3-5-sonnet-20241022"]

  const OpenAiModels: map<string, string> := map[
    "GPT-5.2" := "gpt-5.2",
    "GPT-4o-mini" := "gpt-4o-mini",
    "gpt-5.2" := "gpt-5.2",
    "gpt-4o-mini" := "gpt-4o-mini"]

  const AnthropicModels: map<string, string> := map[
    "Claude Sonnet 4.5" := "claude-3-5-sonnet-20241022",
    "Claude Opus 4.6" := "claude-3-5-opus-20241022",
    "claude-sonnet-4-5" := "claude-3-5-sonnet-20241022",
    "claude-opus-4-6" := "claude-3-5-opus-20241022"]

  /** `$modelMap[$model] ?? $model`: a listed name maps to its table entry,
      any other name passes through. */
  function MapModel(table: map<string, string>, model: string): (r: string)
    ensures model in table ==> r == table[model]
    ensures model !in table ==> r == model
  {
    if model in table then table[model] else model
  }

  /** get_claude_model_mapping: the Sonnet alias gets its dated name, the
      others are kept, and a mapped name maps to itself. */
  function ClaudeModel(model: string): (r: string)
    ensures model !in ClaudeModels ==> r == model
    ensures model == "claude-sonnet-4-5" ==> r == "claude-sonnet-4-5-20250929"
    ensures model in ClaudeModels && model != "claude-sonnet-4-5" ==> r == model
    ensures MapModel(ClaudeModels, r) == r
  {
    MapModel(ClaudeModels, model)
  }

  /** get_openai_model_mapping: the display names and the ids all map to
      one of the two API ids, which map to themselves. */
  function OpenAiModel(model: string): (r: string)
    ensures model !in OpenAiModels ==> r == model
    ensures model in OpenAiModels ==> r in {"gpt-5.2", "gpt-4o-mini"}
    ensures MapModel(OpenAiModels, r) == r
  {
    MapModel(OpenAiModels, model)
  }

  /** get_anthropic_model_mapping: the display names and the short ids all
      map to one of two dated API names, which are not mapped again. */
  function AnthropicModel(model: string): (r: string)
    ensures model !in AnthropicModels ==> r == model
    ensures model in AnthropicModels ==> r in {"claude-3-5-sonnet-20241022", "claude-3-5-opus-20241022"} && r !in AnthropicModels
    ensures MapModel(AnthropicModels, r) == r
  {
    MapModel(AnthropicModels, model)
  }

  /** Every mapped name is either unlisted or maps to itself. */
  predicate Settled(table: map<string, string>) {
    forall m :: m in table ==> (table[m] in table ==> table[table[m]] == table[m])
  }

  /** Mapping through a settled table is idempotent. */
  lemma MapModelIdempotent(table: map<string, string>, model: string)
    requires Settled(table)
    ensures MapModel(table, MapModel(table, model)) == MapModel(table, model)
  {
  }

  /** Each of the three tables is settled, so mapping an already mapped
      name changes nothing. */
  lemma ModelTablesSettled()
    ensures Settled(ClaudeModels) && Settled(OpenAiModels) && Settled(AnthropicModels)
  {
  }

  // ---------------------------------------------------------------------
  // Issue upsert, shared by upsert_issue and the sync loops of api/issues.php

  /** What an UPDATE of an existing row writes to its priority column. */
  datatype PriorityWrite = KeepPriority | WritePriority(priority: Option<string>)

  /** The row `SELECT ... WHERE source = ? AND source_id = ? AND repo_id = ?`
      returns first. */
  function FindByKey(t: seq<Issue>, source: Source, sourceId: string, repoId: nat): (r: Option<nat>)
    ensures r.Some? ==> r.value < |t| && t[r.value].source == source && t[r.value].sourceId == sourceId && t[r.value].repoId == repoId
    ensures r.None? ==> forall j :: 0 <= j < |t| ==> !(t[j].source == source && t[j].sourceId == sourceId && t[j].repoId == repoId)
  {
    if t == [] then None
    else if t[0].source == source && t[0].sourceId == sourceId && t[0].repoId == repoId then Some(0)
    else match FindByKey(t[1..], source, sourceId, repoId)
      case None => None
      case Some(k) => Some(k + 1)
  }

  /** The tracker-owned columns an UPDATE rewrites. */
  function Refreshed(row: Issue, item: FetchedIssue, pw: PriorityWrite, now: string): Issue {
    row.(title := item.title, description := Some(item.description), labels := item.labels,
         sourceUrl := Some(item.sourceUrl), status := Some(item.status),
         priority := if pw.WritePriority? then pw.priority else row.priority,
         updatedAt := Some(now))
  }

  /** The row an INSERT adds: assessment 'pending', pr_status by the column
      default 'none', updated_at by its default. */
  function NewRow(id: nat, repoId: nat, source: Source, item: FetchedIssue, priority: Option<string>, now: string): Issue {
    Issue(id, repoId, source, item.sourceId, Some(item.sourceUrl), item.title, Some(item.description),
          item.labels, priority, Some(item.status), None, Pending, PrNone, None, None, None,
          Some(item.createdAt), Some(now), None)
  }

  /** One upsert: look the item up, UPDATE the matching row by id or INSERT
      a new one. A failing INSERT (the row would clash under the table's
      unique key) is swallowed by `db_query` and leaves the table as it
      was; either way the result reports whether the lookup found nothing. */
  function UpsertStep(t: seq<Issue>, key: UniqueKey, repoId: nat, source: Source, item: FetchedIssue,
                      pw: PriorityWrite, insertPriority: Option<string>, now: string): (r: (seq<Issue>, bool))
    ensures r.1 <==> FindByKey(t, source, item.sourceId, repoId).None?
    ensures !r.1 ==> |r.0| == |t|
    ensures r.1 ==> r.0 == t || r.0 == t + [NewRow(NextId(t), repoId, source, item, insertPriority, now)]
  {
    match FindByKey(t, source, item.sourceId, repoId)
    case Some(k) =>
      var id := t[k].id;
      (seq(|t|, j requires 0 <= j < |t| => if t[j].id == id then Refreshed(t[j], item, pw, now) else t[j]), false)
    case None =>
      var row := NewRow(NextId(t), repoId, source, item, insertPriority, now);
      if forall j :: 0 <= j < |t| ==> !SameKey(key, t[j], row) then (t + [row], true) else (t, true)
  }

  /** An UPDATE changes only the matched row, and in it only the
      tracker-owned columns: assessment, summary, pr_status, pr_url,
      pr_branch, the analysis columns, created_at and the key columns stay. */
  lemma UpdateOnlyTrackerColumns(t: seq<Issue>, key: UniqueKey, repoId: nat, source: Source, item: FetchedIssue,
                                 pw: PriorityWrite, insertPriority: Option<string>, now: string)
    requires IdsUnique(t)
    requires FindByKey(t, source, item.sourceId, repoId).Some?
    ensures var k := FindByKey(t, source, item.sourceId, repoId).value;
      var u := UpsertStep(t, key, repoId, source, item, pw, insertPriority, now).0;
      && |u| == |t|
      && (forall j :: 0 <= j < |t| && j != k ==> u[j] == t[j])
      && u[k] == Refreshed(t[k], item, pw, now)
      && u[k].id == t[k].id && u[k].repoId == t[k].repoId && u[k].source == t[k].source && u[k].sourceId == t[k].sourceId
      && u[k].assessment == t[k].assessment && u[k].summary == t[k].summary
      && u[k].prStatus == t[k].prStatus && u[k].prUrl == t[k].prUrl && u[k].prBranch == t[k].prBranch
      && u[k].analysisModel == t[k].analysisModel && u[k].analyzedAt == t[k].analyzedAt
      && u[k].createdAt == t[k].createdAt
      && (pw == KeepPriority ==> u[k].priority == t[k].priority)
      && (pw.WritePriority? ==> u[k].priority == pw.priority)
  {
  }

  /** An INSERT that passes the unique key appends a pending row with
      pr_status 'none' and a fresh id. */
  lemma InsertAppendsPending(t: seq<Issue>, key: UniqueKey, repoId: nat, source: Source, item: FetchedIssue,
                             pw: PriorityWrite, insertPriority: Option<string>, now: string)
    requires FindByKey(t, source, item.sourceId, repoId).None?
    requires forall j :: 0 <= j < |t| ==> !(t[j].source == source && t[j].sourceId == item.sourceId)
    ensures var u := UpsertStep(t, key, repoId, source, item, pw, insertPriority, now).0;
      && |u| == |t| + 1 && u[..|t|] == t
      && u[|t|].assessment == Pending && u[|t|].prStatus == PrNone
      && u[|t|].sourceId == item.sourceId && u[|t|].repoId == repoId && u[|t|].priority == insertPriority
      && (forall j :: 0 <= j < |t| ==> t[j].id != u[|t|].id)
  {
  }

  /** Under the per-repo key the INSERT never clashes: every item the
      lookup does not find is stored. */
  lemma PerRepoKeyStoresEveryNewItem(t: seq<Issue>, repoId: nat, source: Source, item: FetchedIssue,
                                     pw: PriorityWrite, insertPriority: Option<string>, now: string)
    requires FindByKey(t, source, item.sourceId, repoId).None?
    ensures UpsertStep(t, SourceSourceIdAndRepo, repoId, source, item, pw, insertPriority, now).0
         == t + [NewRow(NextId(t), repoId, source, item, insertPriority, now)]
  {
  }

  /** Under UNIQUE(source, source_id) an item that another repository
      already holds under the same source id is not stored, yet it is
      reported as new. */
  lemma GlobalKeyDropsForeignDuplicate(t: seq<Issue>, repoId: nat, source: Source, item: FetchedIssue,
                                       pw: PriorityWrite, insertPriority: Option<string>, now: string, j: nat)
    requires j < |t| && t[j].source == source && t[j].sourceId == item.sourceId && t[j].repoId != repoId
    requires FindByKey(t, source, item.sourceId, repoId).None?
    ensures UpsertStep(t, SourceAndSourceId, repoId, source, item, pw, insertPriority, now) == (t, true)
  {
    var row := NewRow(NextId(t), repoId, source, item, insertPriority, now);
    assert SameKey(SourceAndSourceId, t[j], row);
  }

  /** An upsert keeps the table within its constraints: ids stay distinct
      and no two rows clash under the unique key. */
  lemma UpsertKeepsConstraints(t: seq<Issue>, key: UniqueKey, repoId: nat, source: Source, item: FetchedIssue,
                               pw: PriorityWrite, insertPriority: Option<string>, now: string)
    requires IdsUnique(t) && KeysUnique(key, t)
    ensures var u := UpsertStep(t, key, repoId, source, item, pw, insertPriority, now).0;
      IdsUnique(u) && KeysUnique(key, u)
  {
    var u := UpsertStep(t, key, repoId, source, item, pw, insertPriority, now).0;
    if FindByKey(t, source, item.sourceId, repoId).Some? {
      assert forall j :: 0 <= j < |t| ==>
        (u[j].id == t[j].id && u[j].source == t[j].source && u[j].sourceId == t[j].sourceId && u[j].repoId == t[j].repoId);
      assert forall i, j :: 0 <= i < j < |u| ==> SameKey(key, u[i], u[j]) == SameKey(key, t[i], t[j]);
    }
  }

  /** `upsert_issue`: new exactly when no row of the repository has the
      item's key; an insert appends a row stored with `priority ?? 'medium'`
      unless the unique key refuses it. */
  function UpsertIssueStep(t: seq<Issue>, key: UniqueKey, repoId: nat, source: Source, item: FetchedIssue, now: string): (r: (seq<Issue>, bool))
    ensures r.1 <==> FindByKey(t, source, item.sourceId, repoId).None?
    ensures !r.1 ==> |r.0| == |t|
    ensures r.1 ==> r.0 == t || r.0 == t + [NewRow(NextId(t), repoId, source, item, Some(item.priority.GetOr("medium")), now)]
  {
    var p := Some(item.priority.GetOr("medium"));
    UpsertStep(t, key, repoId, source, item, WritePriority(p), p, now)
  }

  /** upsert_issue writes 'medium' for a missing priority, on both paths. */
  lemma UpsertIssueDefaultsPriority(t: seq<Issue>, key: UniqueKey, repoId: nat, source: Source, item: FetchedIssue, now: string)
    requires IdsUnique(t)
    requires item.priority.None?
    ensures var (u, isNew) := UpsertIssueStep(t, key, repoId, source, item, now);
      && (!isNew ==> u[FindByKey(t, source, item.sourceId, repoId).value].priority == Some("medium"))
      && (isNew && |u| > |t| ==> u[|t|].priority == Some("medium"))
  {
    if FindByKey(t, source, item.sourceId, repoId).Some? {
      UpdateOnlyTrackerColumns(t, key, repoId, source, item, WritePriority(Some("medium")), Some("medium"), now);
    }
  }

  /** upsert_issue over the database: returns true iff no row matched. */
  method UpsertIssue(db: Database, repoId: nat, source: Source, item: FetchedIssue, now: string) returns (isNew: bool)
    modifies db
    ensures (db.issues, isNew) == UpsertIssueStep(old(db.issues), db.key, repoId, source, item, now)
    ensures db.callbacks == old(db.callbacks) && db.repos == old(db.repos) && db.settings == old(db.settings)
  {
    var r := UpsertIssueStep(db.issues, db.key, repoId, source, item, now);
    db.issues := r.0;
    isNew := r.1;
  }

  // ---------------------------------------------------------------------
  // check_and_update_prs

  /** An open pull request as the GitHub listing returns it. */
  datatype Pull = Pull(headRef: Option<string>, htmlUrl: Option<string>, draft: bool)

  /** An issue with a recorded branch (`id`, `pr_branch`). */
  datatype BranchIssue = BranchIssue(id: nat, prBranch: Option<string>)

  /** `isset($pr['head']['ref']) && $pr['head']['ref'] === $branch_name`. */
  predicate PullMatches(p: Pull, branch: Option<string>) {
    p.headRef.Some? && branch == p.headRef
  }

  /** The first pull request from the branch. */
  function FirstPull(ps: seq<Pull>, branch: Option<string>): (r: Option<nat>)
    ensures r.Some? ==> r.value < |ps| && PullMatches(ps[r.value], branch)
    ensures r.Some? ==> forall q :: 0 <= q < r.value ==> !PullMatches(ps[q], branch)
    ensures r.None? ==> forall q :: 0 <= q < |ps| ==> !PullMatches(ps[q], branch)
  {
    if ps == [] then None
    else if PullMatches(ps[0], branch) then Some(0)
    else match FirstPull(ps[1..], branch)
      case None => None
      case Some(q) => Some(q + 1)
  }

  /** The pr_status a detected pull request gives. */
  function PullStatus(p: Pull): (s: PrStatus)
    ensures s == NeedsReview <==> p.draft
    ensures s == PrCreated <==> !p.draft
  {
    if p.draft then NeedsReview else PrCreated
  }

  /** The effect of the inner loop for one issue: with a pull request from
      its branch, the issue's rows take the first one's status and URL ('' when
      missing) and it counts once; without one nothing changes. */
  function DetectOne(t: seq<Issue>, e: BranchIssue, ps: seq<Pull>, now: string): (r: (seq<Issue>, nat))
    ensures |r.0| == |t| && r.1 <= 1
    ensures r.1 == 1 <==> FirstPull(ps, e.prBranch).Some?
    ensures r.1 == 0 ==> r.0 == t
    ensures forall k :: 0 <= k < |t| && t[k].id != e.id ==> r.0[k] == t[k]
    ensures FirstPull(ps, e.prBranch).Some? ==>
              var pr := ps[FirstPull(ps, e.prBranch).value];
              forall k :: 0 <= k < |t| && t[k].id == e.id ==>
                r.0[k].prStatus == PullStatus(pr) && r.0[k].prUrl == Some(pr.htmlUrl.GetOr(""))
  {
    match FirstPull(ps, e.prBranch)
    case None => (t, 0)
    case Some(q) => (SetPr(t, e.id, PullStatus(ps[q]), Some(ps[q].htmlUrl.GetOr("")), now), 1)
  }

  /** The outer loop over a prefix of the issues. */
  function DetectAll(t: seq<Issue>, es: seq<BranchIssue>, ps: seq<Pull>, now: string): (r: (seq<Issue>, nat))
    ensures |r.0| == |t| && r.1 <= |es|
    decreases |es|
  {
    if es == [] then (t, 0)
    else
      var (t', n) := DetectAll(t, es[..|es| - 1], ps, now);
      var (t'', m) := DetectOne(t', es[|es| - 1], ps, now);
      (t'', n + m)
  }

  /** check_and_update_prs: nothing for an empty repository name or issue
      list; a failing listing is caught and nothing is written. */
  function CheckPrs(t: seq<Issue>, repo: string, es: seq<BranchIssue>, pulls: Result<seq<Pull>>, now: string): (r: (seq<Issue>, nat))
    ensures !Truthy(repo) || es == [] || pulls.Err? ==> r == (t, 0)
    ensures |r.0| == |t| && r.1 <= |es|
    ensures Truthy(repo) && pulls.Ok? ==> r.1 == CountDetected(es, pulls.value)
  {
    if !Truthy(repo) || es == [] then (t, 0)
    else match pulls
      case Err(_) => (t, 0)
      case Ok(ps) =>
        DetectAllCount(t, es, ps, now);
        DetectAll(t, es, ps, now)
  }

  /** The number of issues some pull request's head ref matches. */
  function CountDetected(es: seq<BranchIssue>, ps: seq<Pull>): (n: nat)
    ensures n <= |es|
    decreases |es|
  {
    if es == [] then 0
    else CountDetected(es[..|es| - 1], ps) + (if FirstPull(ps, es[|es| - 1].prBranch).Some? then 1 else 0)
  }

  /** The returned count is the number of issues with a matching pull
      request, so each issue is counted at most once and the count never
      exceeds the list; the table length never changes. */
  lemma {:induction false} DetectAllCount(t: seq<Issue>, es: seq<BranchIssue>, ps: seq<Pull>, now: string)
    ensures DetectAll(t, es, ps, now).1 == CountDetected(es, ps) <= |es|
    ensures |DetectAll(t, es, ps, now).0| == |t|
    ensures forall j :: 0 <= j < |t| ==> DetectAll(t, es, ps, now).0[j].id == t[j].id
    decreases |es|
  {
    if es != [] {
      DetectAllCount(t, es[..|es| - 1], ps, now);
    }
  }

  /** A row whose id belongs to no issue with a matching pull request is
      left as it was. */
  lemma {:induction false} DetectAllUntouched(t: seq<Issue>, es: seq<BranchIssue>, ps: seq<Pull>, now: string, j: nat)
    requires j < |t|
    requires forall i :: 0 <= i < |es| && es[i].id == t[j].id ==> FirstPull(ps, es[i].prBranch).None?
    ensures |DetectAll(t, es, ps, now).0| == |t| && DetectAll(t, es, ps, now).0[j] == t[j]
    decreases |es|
  {
    if es != [] {
      DetectAllUntouched(t, es[..|es| - 1], ps, now, j);
    }
  }

  /** When the issue ids are distinct, each issue with a matching pull
      request gets the first match's status (needs_review for a draft,
      pr_created otherwise) and its URL, '' when the URL is missing. */
  lemma {:induction false} DetectAllStatus(t: seq<Issue>, es: seq<BranchIssue>, ps: seq<Pull>, now: string, e: nat, j: nat)
    requires forall a, b :: 0 <= a < b < |es| ==> es[a].id != es[b].id
    requires e < |es| && j < |t| && t[j].id == es[e].id
    requires FirstPull(ps, es[e].prBranch).Some?
    ensures var q := FirstPull(ps, es[e].prBranch).value;
      var u := DetectAll(t, es, ps, now).0;
      |u| == |t| && u[j].prStatus == PullStatus(ps[q]) && u[j].prUrl == Some(ps[q].htmlUrl.GetOr(""))
    decreases |es|
  {
    DetectAllCount(t, es, ps, now);
    var init := es[..|es| - 1];
    DetectAllCount(t, init, ps, now);
    if e < |es| - 1 {
      DetectAllStatus(t, init, ps, now, e, j);
    }
  }

  /** check_and_update_prs over the database: the nested loop, with the
      `break` after the first matching pull request. */
  method CheckAndUpdatePrs(db: Database, repo: string, es: seq<BranchIssue>, pulls: Result<seq<Pull>>, now: string)
    returns (count: nat)
    modifies db
    ensures (db.issues, count) == CheckPrs(old(db.issues), repo, es, pulls, now)
    ensures db.callbacks == old(db.callbacks) && db.repos == old(db.repos) && db.settings == old(db.settings)
  {
    if !Truthy(repo) || es == [] {
      return 0;
    }
    if pulls.Err? {
      return 0;
    }
    var ps := pulls.value;
    count := 0;
    var i := 0;
    while i < |es|
      invariant 0 <= i <= |es|
      invariant (db.issues, count) == DetectAll(old(db.issues), es[..i], ps, now)
      invariant db.callbacks == old(db.callbacks) && db.repos == old(db.repos) && db.settings == old(db.settings)
    {
      var e := es[i];
      var q := 0;
      while q < |ps|
        invariant 0 <= q <= |ps|
        invariant forall p :: 0 <= p < q ==> !PullMatches(ps[p], e.prBranch)
      {
        if ps[q].headRef.Some? && ps[q].headRef == e.prBranch {
          break;
        }
        q := q + 1;
      }
      assert es[..i + 1][..i] == es[..i];
      if q < |ps| {
        assert FirstPull(ps, e.prBranch) == Some(q) by {
          FirstPullIs(ps, e.prBranch, q);
        }
        db.issues := SetPr(db.issues, e.id, PullStatus(ps[q]), Some(ps[q].htmlUrl.GetOr("")), now);
        count := count + 1;
      } else {
        assert FirstPull(ps, e.prBranch).None?;
      }
      i := i + 1;
    }
    assert es[..i] == es;
  }

  /** The first match found by a scan is the one FirstPull names. */
  lemma FirstPullIs(ps: seq<Pull>, branch: Option<string>, q: nat)
    requires q < |ps| && PullMatches(ps[q], branch)
    requires forall p :: 0 <= p < q ==> !PullMatches(ps[p], branch)
    ensures FirstPull(ps, branch) == Some(q)
  {
  }

  // ---------------------------------------------------------------------
  // call_ai_with_retry

  datatype Provider = OpenAi | Anthropic

  function ProviderName(p: Provider): string {
    match p
    case OpenAi => "OpenAI"
    case Anthropic => "Anthropic"
  }

  /** `get_env_value(name)`, '' when the variable is unset. */
  function EnvValue(env: map<string, string>, name: string): string {
    if name in env then env[name] else ""
  }

  /** The provider `call_ai_with_retry` picks: OpenAI for names that start
      with "gpt", Anthropic for all others. */
  function ProviderFor(model: string): (p: Provider)
    ensures p == OpenAi <==> StartsWith(model, "gpt")
  {
    if StartsWith(model, "gpt") then OpenAi else Anthropic
  }

  function KeyName(p: Provider): string {
    match p
    case OpenAi => "OPENAI_KEY"
    case Anthropic => "ANTHROPIC_KEY"
  }

  /** One chat request sent to a provider. */
  datatype ChatRequest = ChatRequest(provider: Provider, model: string, key: string, prompt: string)

  /** The chat requests made and the outcome: a decoded value, null
      (`None`) when the first reply does not parse and there is no retry
      prompt, or the message of the exception thrown. */
  datatype AiCall<T> = AiCall(requests: seq<ChatRequest>, outcome: Result<Option<T>>)

  /** call_ai_with_retry. `first` and `second` are the replies (or the
      exceptions) of the chat oracle to the first and second request;
      `decode` is `json_decode`, None standing for a JSON error. */
  function CallAiWithRetry<T>(model: string, prompt: string, retryPrompt: Option<string>, env: map<string, string>,
                              first: Result<string>, second: Result<string>, decode: string -> Option<T>): (r: AiCall<T>)
    ensures |r.requests| <= 2
    ensures forall i :: 0 <= i < |r.requests| ==> r.requests[i].provider == ProviderFor(model) && r.requests[i].model == model
    ensures !Truthy(EnvValue(env, KeyName(ProviderFor(model)))) ==>
              r.requests == [] && r.outcome == Err(ProviderName(ProviderFor(model)) + " API key not configured")
    ensures Truthy(EnvValue(env, KeyName(ProviderFor(model)))) ==> |r.requests| >= 1 && r.requests[0].prompt == prompt
    ensures |r.requests| == 2 <==>
              Truthy(EnvValue(env, KeyName(ProviderFor(model)))) && first.Ok? && decode(first.value).None? && TruthyOpt(retryPrompt)
    ensures |r.requests| == 2 ==> r.requests[1].prompt == retryPrompt.value
    ensures |r.requests| == 2 && second.Ok? && decode(second.value).None? ==>
              r.outcome == Err("Failed to parse AI response as JSON: " + second.value)
    ensures |r.requests| == 1 && first.Ok? && decode(first.value).None? ==> r.outcome == Ok(None)
  {
    var provider := ProviderFor(model);
    var key := EnvValue(env, KeyName(provider));
    if !Truthy(key) then AiCall([], Err(ProviderName(provider) + " API key not configured"))
    else
      var req1 := ChatRequest(provider, model, key, prompt);
      match first
      case Err(e) => AiCall([req1], Err(e))
      case Ok(reply) =>
        var result := decode(reply);
        if result.None? && TruthyOpt(retryPrompt) then
          var req2 := ChatRequest(provider, model, key, retryPrompt.value);
          match second
          case Err(e) => AiCall([req1, req2], Err(e))
          case Ok(reply2) =>
            var result2 := decode(reply2);
            if result2.None? then AiCall([req1, req2], Err("Failed to parse AI response as JSON: " + reply2))
            else AiCall([req1, req2], Ok(result2))
        else AiCall([req1], Ok(result))
  }

  /** A first reply that parses is the answer: the retry prompt and the
      second reply play no part. */
  lemma FirstParseIsFinal<T>(model: string, prompt: string, retryPrompt: Option<string>, retry2: Option<string>,
                             env: map<string, string>, reply: string, second: Result<string>, second2: Result<string>,
                             decode: string -> Option<T>)
    requires Truthy(EnvValue(env, KeyName(ProviderFor(model))))
    requires decode(reply).Some?
    ensures CallAiWithRetry(model, prompt, retryPrompt, env, Ok(reply), second, decode)
         == CallAiWithRetry(model, prompt, retry2, env, Ok(reply), second2, decode)
    ensures CallAiWithRetry(model, prompt, retryPrompt, env, Ok(reply), second, decode).outcome == Ok(decode(reply))
  {
  }

  // ---------------------------------------------------------------------
  // get_available_models

  /** An entry of the model picker. */
  datatype ModelOption = ModelOption(value: string, display: string, provider: string)

  /** The two OpenAI models when OPENAI_KEY is set, then the two Anthropic
      models when ANTHROPIC_KEY is set. */
  function GetAvailableModels(env: map<string, string>): (r: seq<ModelOption>)
    ensures |r| == (if Truthy(EnvValue(env, "OPENAI_KEY")) then 2 else 0) + (if Truthy(EnvValue(env, "ANTHROPIC_KEY")) then 2 else 0)
    ensures forall i :: 0 <= i < |r| ==> r[i].provider in {"openai", "anthropic"}
    ensures forall i :: 0 <= i < |r| ==>
              (r[i].provider == "openai" <==> i < (if Truthy(EnvValue(env, "OPENAI_KEY")) then 2 else 0))
    ensures Truthy(EnvValue(env, "OPENAI_KEY")) ==>
              r[0] == ModelOption("gpt-5.2", "GPT-5.2", "openai") && r[1] == ModelOption("gpt-4o-mini", "GPT-4o Mini", "openai")
    ensures Truthy(EnvValue(env, "ANTHROPIC_KEY")) ==>
              && r[|r| - 2] == ModelOption("claude-sonnet-4-5", "Claude Sonnet 4.5", "anthropic")
              && r[|r| - 1] == ModelOption("claude-opus-4-6", "Claude Opus 4.6", "anthropic")
  {
    (if Truthy(EnvValue(env, "OPENAI_KEY")) then
       [ModelOption("gpt-5.2", "GPT-5.2", "openai"), ModelOption("gpt-4o-mini", "GPT-4o Mini", "openai")]
     else []) +
    (if Truthy(EnvValue(env, "ANTHROPIC_KEY")) then
       [ModelOption("claude-sonnet-4-5", "Claude Sonnet 4.5", "anthropic"), ModelOption("claude-opus-4-6", "Claude Opus 4.6", "anthropic")]
     else [])
  }

  /** Every offered model is routed by call_ai_with_retry to the provider
      it is listed under, and that provider's key is configured, so the
      call never fails for a missing key. */
  lemma OfferedModelsAreCallable<T>(env: map<string, string>, i: nat, prompt: string, retryPrompt: Option<string>,
                                    first: Result<string>, second: Result<string>, decode: string -> Option<T>)
    requires i < |GetAvailableModels(env)|
    ensures var m := GetAvailableModels(env)[i];
      && (ProviderFor(m.value) == OpenAi <==> m.provider == "openai")
      && |CallAiWithRetry(m.value, prompt, retryPrompt, env, first, second, decode).requests| >= 1
  {
    var r := GetAvailableModels(env);
    var m := r[i];
    if Truthy(EnvValue(env, "OPENAI_KEY")) && i < 2 {
      assert m.value[..3] == "gpt";
    } else {
      assert m.provider == "anthropic";
      assert m.value[..3] == "cla";
    }
  }
}
