/** The analysis endpoint of api/analyze.php: `analyze_batch` assesses up to
    five pending issues of a repository, `analyze_single` one issue by id.

    The analyzer (`ai_analyze_issue`) is a parameter: a function from the
    issue row and the model name to either the summary and assessment text
    it produced or the message of the exception it threw. The UPDATE that
    stores an analysis fails, and `db_query` answers false, exactly when
    the assessment text violates the CHECK constraint of the assessment
    column. */
module Analyze {
  import opened Wrappers
  import opened Text
  import opened Store
  import opened Utils

  /** What the analyzer returns for one issue. */
  datatype Analysis = Analysis(summary: string, assessment: string)

  /** An entry of the `results` list of a batch reply. */
  datatype Analyzed = Analyzed(id: nat, title: string, assessment: string, summary: string)

  /** An entry of the `errors` list of a batch reply. */
  datatype Failure = Failure(issueId: nat, error: string)

  /** The JSON reply of the endpoint. */
  datatype Reply =
    | Error(code: nat, message: string)
    | Batch(analyzed: nat, remaining: nat, results: seq<Analyzed>, errors: Option<seq<Failure>>)
    | Single(issue: Option<Issue>)

  /** The number of issues one batch processes. */
  const BatchSize: nat := 5

  // ---------------------------------------------------------------------
  // The rows a batch reads

  /** A row of the repository that still waits for an assessment. */
  predicate IsPending(row: Issue, repoId: int) {
    row.repoId as int == repoId && row.assessment == Pending
  }

  /** `SELECT * FROM issues WHERE repo_id = ? AND assessment = 'pending'`, in
      table order. */
  function PendingOf(t: seq<Issue>, repoId: int): (r: seq<Issue>)
    ensures |r| <= |t|
    ensures forall i :: 0 <= i < |r| ==> IsPending(r[i], repoId) && r[i] in t
    ensures forall k :: 0 <= k < |t| && IsPending(t[k], repoId) ==> t[k] in r
  {
    if t == [] then []
    else (if IsPending(t[0], repoId) then [t[0]] else []) + PendingOf(t[1..], repoId)
  }

  /** The same query with `LIMIT 5`: the first five pending rows, or all of
      them when there are fewer. */
  function Selected(t: seq<Issue>, repoId: int): (r: seq<Issue>)
    ensures |r| <= BatchSize
    ensures |r| == if |PendingOf(t, repoId)| < BatchSize then |PendingOf(t, repoId)| else BatchSize
    ensures r == PendingOf(t, repoId)[..|r|]
  {
    var p := PendingOf(t, repoId);
    if |p| < BatchSize then p else p[..BatchSize]
  }

  // ---------------------------------------------------------------------
  // One analysis

  /** The assessment an analysis stores, or None when the UPDATE would fail
      its CHECK constraint. */
  function Storable(a: Result<Analysis>): (r: Option<Assessment>)
    ensures r.Some? <==> a.Ok? && ParseAssessment(a.value.assessment).Some?
  {
    if a.Ok? then ParseAssessment(a.value.assessment) else None
  }

  /** `UPDATE issues SET summary, assessment, analysis_model, analyzed_at,
      updated_at WHERE id = ?`. */
  function SetAnalysis(t: seq<Issue>, id: nat, an: Analysis, a: Assessment, model: string, now: string): (r: seq<Issue>)
    ensures |r| == |t|
    ensures forall k :: 0 <= k < |t| && t[k].id != id ==> r[k] == t[k]
    ensures forall k :: 0 <= k < |t| && t[k].id == id ==>
              r[k] == t[k].(summary := Some(an.summary), assessment := a, analysisModel := Some(model),
                            analyzedAt := Some(now), updatedAt := Some(now))
  {
    seq(|t|, k requires 0 <= k < |t| =>
      if t[k].id == id then
        t[k].(summary := Some(an.summary), assessment := a, analysisModel := Some(model),
              analyzedAt := Some(now), updatedAt := Some(now))
      else t[k])
  }

  // ---------------------------------------------------------------------
  // analyze_batch

  /** The state of the batch loop: the table and the three accumulators. */
  datatype BatchState = BatchState(t: seq<Issue>, analyzed: nat, results: seq<Analyzed>, errors: seq<Failure>)

  /** One turn of the loop: a thrown analysis is recorded and the loop goes
      on; a stored analysis is counted; a failed UPDATE leaves no trace. */
  function Step(s: BatchState, issue: Issue, analyzer: (Issue, string) -> Result<Analysis>, model: string, now: string): (r: BatchState)
    ensures |r.t| == |s.t|
    ensures r.errors == s.errors + (if analyzer(issue, model).Err? then [Failure(issue.id, analyzer(issue, model).error)] else [])
    ensures r.analyzed == s.analyzed + (if Storable(analyzer(issue, model)).Some? then 1 else 0)
    ensures |r.results| == |s.results| + (if Storable(analyzer(issue, model)).Some? then 1 else 0) && r.results[..|s.results|] == s.results
    ensures Storable(analyzer(issue, model)).None? ==> r.t == s.t
    ensures forall k :: 0 <= k < |s.t| && s.t[k].id != issue.id ==> r.t[k] == s.t[k]
  {
    var a := analyzer(issue, model);
    if a.Err? then s.(errors := s.errors + [Failure(issue.id, a.error)])
    else match Storable(a)
      case None => s
      case Some(asm) =>
        BatchState(SetAnalysis(s.t, issue.id, a.value, asm, model, now), s.analyzed + 1,
                   s.results + [Analyzed(issue.id, issue.title, a.value.assessment, a.value.summary)], s.errors)
  }

  /** The loop over the selected rows, from table `t`. */
  function RunBatch(t: seq<Issue>, batch: seq<Issue>, analyzer: (Issue, string) -> Result<Analysis>, model: string, now: string): (s: BatchState)
    ensures |s.t| == |t| && forall k :: 0 <= k < |t| ==> s.t[k].id == t[k].id
    decreases |batch|
  {
    if batch == [] then BatchState(t, 0, [], [])
    else Step(RunBatch(t, batch[..|batch| - 1], analyzer, model, now), batch[|batch| - 1], analyzer, model, now)
  }

  /** The number of rows of a batch whose analysis is stored. */
  function Stored(batch: seq<Issue>, analyzer: (Issue, string) -> Result<Analysis>, model: string): nat
    decreases |batch|
  {
    if batch == [] then 0
    else Stored(batch[..|batch| - 1], analyzer, model) + (if Storable(analyzer(batch[|batch| - 1], model)).Some? then 1 else 0)
  }

  /** The number of rows of a batch whose analysis throws. */
  function Thrown(batch: seq<Issue>, analyzer: (Issue, string) -> Result<Analysis>, model: string): nat
    decreases |batch|
  {
    if batch == [] then 0
    else Thrown(batch[..|batch| - 1], analyzer, model) + (if analyzer(batch[|batch| - 1], model).Err? then 1 else 0)
  }

  /** Every row is accounted for: `analyzed` counts the stored analyses and
      equals the number of results, `errors` holds one entry per thrown
      analysis, and a thrown analysis does not end the batch. */
  lemma {:induction false} BatchAccounts(t: seq<Issue>, batch: seq<Issue>, analyzer: (Issue, string) -> Result<Analysis>, model: string, now: string)
    ensures var s := RunBatch(t, batch, analyzer, model, now);
            s.analyzed == |s.results| == Stored(batch, analyzer, model) &&
            |s.errors| == Thrown(batch, analyzer, model) &&
            s.analyzed + |s.errors| <= |batch| && |s.t| == |t|
    decreases |batch|
  {
    if batch != [] {
      BatchAccounts(t, batch[..|batch| - 1], analyzer, model, now);
    }
  }

  /** The errors list is empty exactly when no analysis of the batch
      throws. */
  lemma {:induction false} NoErrorsIffNoneThrown(batch: seq<Issue>, analyzer: (Issue, string) -> Result<Analysis>, model: string)
    ensures Thrown(batch, analyzer, model) == 0 <==> forall i :: 0 <= i < |batch| ==> analyzer(batch[i], model).Ok?
    decreases |batch|
  {
    if batch != [] {
      var init := batch[..|batch| - 1];
      NoErrorsIffNoneThrown(init, analyzer, model);
      assert forall i :: 0 <= i < |init| ==> init[i] == batch[i];
    }
  }

  /** A row is left as it was unless an analysis of a selected row with its
      id was stored. */
  lemma {:induction false} BatchUntouched(t: seq<Issue>, batch: seq<Issue>, analyzer: (Issue, string) -> Result<Analysis>, model: string, now: string, k: nat)
    requires k < |t|
    requires forall i :: 0 <= i < |batch| && batch[i].id == t[k].id ==> Storable(analyzer(batch[i], model)).None?
    ensures |RunBatch(t, batch, analyzer, model, now).t| == |t|
    ensures RunBatch(t, batch, analyzer, model, now).t[k] == t[k]
    decreases |batch|
  {
    if batch != [] {
      var init := batch[..|batch| - 1];
      assert forall i :: 0 <= i < |init| ==> init[i] == batch[i];
      BatchUntouched(t, init, analyzer, model, now, k);
    }
  }

  /** When the selected rows have distinct ids, each stored analysis ends up
      in its row, with the model that produced it. */
  lemma {:induction false} BatchStores(t: seq<Issue>, batch: seq<Issue>, analyzer: (Issue, string) -> Result<Analysis>, model: string, now: string, i: nat, k: nat)
    requires IdsUnique(batch) && i < |batch| && k < |t| && batch[i].id == t[k].id
    requires Storable(analyzer(batch[i], model)).Some?
    ensures |RunBatch(t, batch, analyzer, model, now).t| == |t|
    ensures var an := analyzer(batch[i], model).value;
            RunBatch(t, batch, analyzer, model, now).t[k] ==
              RunBatch(t, batch[..i], analyzer, model, now).t[k].(summary := Some(an.summary),
                assessment := Storable(analyzer(batch[i], model)).value, analysisModel := Some(model),
                analyzedAt := Some(now), updatedAt := Some(now))
    decreases |batch|
  {
    var init := batch[..|batch| - 1];
    BatchAccounts(t, init, analyzer, model, now);
    if i == |batch| - 1 {
      assert batch[..i] == init;
    } else {
      assert forall j :: 0 <= j < |init| ==> init[j] == batch[j];
      assert init[..i] == batch[..i];
      BatchStores(t, init, analyzer, model, now, i, k);
      var last := batch[|batch| - 1];
      assert last.id != batch[i].id;
      var s := RunBatch(t, init, analyzer, model, now);
      assert Step(s, last, analyzer, model, now).t[k] == s.t[k];
    }
  }

  /** The `analyze_batch` action: 400 without a repository, otherwise the
      loop over the first five pending rows with the model resolved by
      precedence, and the count of rows still pending afterwards. */
  function AnalyzeBatchAction(t: seq<Issue>, settings: map<string, string>, repoId: Option<int>, model: Option<string>,
                              analyzer: (Issue, string) -> Result<Analysis>, now: string): (r: (seq<Issue>, Reply))
    ensures (repoId.None? || repoId.value == 0) ==> r == (t, Error(400, "repo_id is required"))
    ensures r.1.Error? ==> r.0 == t
    ensures r.1.Batch? ==> repoId.Some? && r.1.remaining == |PendingOf(r.0, repoId.value)|
    ensures r.1.Batch? ==> r.1.errors.None? || |r.1.errors.value| > 0
  {
    if repoId.None? || repoId.value == 0 then (t, Error(400, "repo_id is required"))
    else
      var s := RunBatch(t, Selected(t, repoId.value), analyzer, GetAssessmentModel(model, settings), now);
      (s.t, Batch(s.analyzed, |PendingOf(s.t, repoId.value)|, s.results, if s.errors == [] then None else Some(s.errors)))
  }

  /** A batch calls the analyzer for at most five rows and with the resolved
      model; the reply reports every thrown analysis and counts every stored
      one. */
  lemma BatchReply(t: seq<Issue>, settings: map<string, string>, repoId: int, model: Option<string>,
                   analyzer: (Issue, string) -> Result<Analysis>, now: string)
    requires repoId != 0
    ensures var r := AnalyzeBatchAction(t, settings, Some(repoId), model, analyzer, now).1;
            var batch := Selected(t, repoId);
            var m := GetAssessmentModel(model, settings);
            r.Batch? && r.analyzed == Stored(batch, analyzer, m) <= BatchSize &&
            (r.errors.None? <==> forall i :: 0 <= i < |batch| ==> analyzer(batch[i], m).Ok?) &&
            (r.errors.Some? ==> |r.errors.value| == Thrown(batch, analyzer, m))
  {
    var batch := Selected(t, repoId);
    var m := GetAssessmentModel(model, settings);
    BatchAccounts(t, batch, analyzer, m, now);
    NoErrorsIffNoneThrown(batch, analyzer, m);
  }

  /** One turn of analyze_batch's loop over the database: a thrown analysis
      is added to the errors, a storable one is written to the row and
      added to the results. */
  method AnalyzeRow(db: Database, issue: Issue, analyzer: (Issue, string) -> Result<Analysis>, model: string, now: string,
                    analyzed: nat, results: seq<Analyzed>, errors: seq<Failure>)
    returns (analyzed': nat, results': seq<Analyzed>, errors': seq<Failure>)
    modifies db
    ensures BatchState(db.issues, analyzed', results', errors') == Step(BatchState(old(db.issues), analyzed, results, errors), issue, analyzer, model, now)
    ensures db.callbacks == old(db.callbacks) && db.repos == old(db.repos) && db.settings == old(db.settings)
  {
    analyzed', results', errors' := analyzed, results, errors;
    var analysis := analyzer(issue, model);
    if analysis.Err? {
      errors' := errors + [Failure(issue.id, analysis.error)];
    } else {
      var stored := Storable(analysis);
      if stored.Some? {
        db.issues := SetAnalysis(db.issues, issue.id, analysis.value, stored.value, model, now);
        analyzed' := analyzed + 1;
        results' := results + [Analyzed(issue.id, issue.title, analysis.value.assessment, analysis.value.summary)];
      }
    }
  }

  /** analyze_batch over the database. */
  method AnalyzeBatch(db: Database, repoId: Option<int>, model: Option<string>,
                      analyzer: (Issue, string) -> Result<Analysis>, now: string) returns (reply: Reply)
    modifies db
    ensures (db.issues, reply) == AnalyzeBatchAction(old(db.issues), db.settings, repoId, model, analyzer, now)
    ensures db.callbacks == old(db.callbacks) && db.repos == old(db.repos) && db.settings == old(db.settings)
  {
    if repoId.None? || repoId.value == 0 {
      return Error(400, "repo_id is required");
    }
    var m := GetAssessmentModel(model, db.settings);
    var pending := Selected(db.issues, repoId.value);
    ghost var t0 := db.issues;
    var analyzed := 0;
    var results: seq<Analyzed> := [];
    var errors: seq<Failure> := [];
    for i := 0 to |pending|
      invariant RunBatch(t0, pending[..i], analyzer, m, now) == BatchState(db.issues, analyzed, results, errors)
      invariant db.callbacks == old(db.callbacks) && db.repos == old(db.repos) && db.settings == old(db.settings)
    {
      assert pending[..i + 1][..i] == pending[..i];
      analyzed, results, errors := AnalyzeRow(db, pending[i], analyzer, m, now, analyzed, results, errors);
    }
    assert pending[..|pending|] == pending;
    reply := Batch(analyzed, |PendingOf(db.issues, repoId.value)|, results, if errors == [] then None else Some(errors));
  }

  // ---------------------------------------------------------------------
  // The pending count after a batch

  /** The number of rows of a batch whose analysis is stored with an
      assessment other than pending. */
  function Cleared(batch: seq<Issue>, analyzer: (Issue, string) -> Result<Analysis>, model: string): (n: nat)
    ensures n <= |batch|
    decreases |batch|
  {
    if batch == [] then 0
    else
      var a := Storable(analyzer(batch[|batch| - 1], model));
      Cleared(batch[..|batch| - 1], analyzer, model) + (if a.Some? && a.value != Pending then 1 else 0)
  }

  /** Changing one row changes the pending count by what that row
      contributes. */
  lemma {:induction false} PendingCountOneRow(t: seq<Issue>, u: seq<Issue>, repoId: int, k: nat)
    requires |u| == |t| && k < |t|
    requires forall j :: 0 <= j < |t| && j != k ==> u[j] == t[j]
    ensures |PendingOf(u, repoId)| + (if IsPending(t[k], repoId) then 1 else 0)
            == |PendingOf(t, repoId)| + (if IsPending(u[k], repoId) then 1 else 0)
    decreases |t|
  {
    if k == 0 {
      assert u[1..] == t[1..];
    } else {
      PendingCountOneRow(t[1..], u[1..], repoId, k - 1);
    }
  }

  /** Rows of a table with distinct ids have distinct ids when filtered. */
  lemma {:induction false} PendingIdsUnique(t: seq<Issue>, repoId: int)
    requires IdsUnique(t)
    ensures IdsUnique(PendingOf(t, repoId))
    decreases |t|
  {
    if t != [] {
      assert IdsUnique(t[1..]) by {
        forall i, j | 0 <= i < j < |t[1..]| ensures t[1..][i].id != t[1..][j].id {
          assert t[1..][i] == t[i + 1] && t[1..][j] == t[j + 1];
        }
      }
      PendingIdsUnique(t[1..], repoId);
      var rest := PendingOf(t[1..], repoId);
      if IsPending(t[0], repoId) {
        var r := [t[0]] + rest;
        forall i, j | 0 <= i < j < |r| ensures r[i].id != r[j].id {
          if i == 0 {
            assert r[j] == rest[j - 1] && rest[j - 1] in t[1..];
            var m :| 0 <= m < |t[1..]| && t[1..][m] == rest[j - 1];
            assert t[m + 1] == rest[j - 1];
          } else {
            assert r[i] == rest[i - 1] && r[j] == rest[j - 1];
          }
        }
        assert PendingOf(t, repoId) == r;
      }
    }
  }

  /** One turn of the loop on a pending row of a table with distinct ids
      lowers the pending count by one exactly when it stores a final
      assessment. */
  lemma StepPendingCount(s: BatchState, issue: Issue, k: nat, repoId: int,
                         analyzer: (Issue, string) -> Result<Analysis>, model: string, now: string)
    requires IdsUnique(s.t) && k < |s.t| && s.t[k] == issue && IsPending(issue, repoId)
    ensures var a := Storable(analyzer(issue, model));
            |PendingOf(Step(s, issue, analyzer, model, now).t, repoId)| + (if a.Some? && a.value != Pending then 1 else 0)
            == |PendingOf(s.t, repoId)|
  {
    var a := Storable(analyzer(issue, model));
    if a.Some? {
      var u := SetAnalysis(s.t, issue.id, analyzer(issue, model).value, a.value, model, now);
      forall j | 0 <= j < |s.t| && j != k ensures u[j] == s.t[j] {
        assert s.t[j].id != s.t[k].id;
      }
      PendingCountOneRow(s.t, u, repoId, k);
    }
  }

  /** Over a run of distinct pending rows of the table, the pending count
      drops by one for each analysis stored with a final assessment. */
  lemma {:induction false} RemainingAfterRun(t: seq<Issue>, batch: seq<Issue>, repoId: int,
                                             analyzer: (Issue, string) -> Result<Analysis>, model: string, now: string)
    requires IdsUnique(t) && IdsUnique(batch)
    requires forall j :: 0 <= j < |batch| ==> batch[j] in t && IsPending(batch[j], repoId)
    ensures |PendingOf(RunBatch(t, batch, analyzer, model, now).t, repoId)| + Cleared(batch, analyzer, model)
            == |PendingOf(t, repoId)|
    decreases |batch|
  {
    if batch != [] {
      var n := |batch| - 1;
      var init := batch[..n];
      var last := batch[n];
      assert forall i :: 0 <= i < |init| ==> init[i] == batch[i];
      assert IdsUnique(init);
      RemainingAfterRun(t, init, repoId, analyzer, model, now);
      var s := RunBatch(t, init, analyzer, model, now);
      var k :| 0 <= k < |t| && t[k] == last;
      assert forall i :: 0 <= i < |init| ==> init[i].id != t[k].id;
      BatchUntouched(t, init, analyzer, model, now, k);
      assert IdsUnique(s.t);
      StepPendingCount(s, last, k, repoId, analyzer, model, now);
    }
  }

  /** The `remaining` count of a batch reply: the pending rows of the
      repository before the batch, less those whose analysis was stored
      with an assessment other than pending. */
  lemma BatchRemaining(t: seq<Issue>, settings: map<string, string>, repoId: int, model: Option<string>,
                       analyzer: (Issue, string) -> Result<Analysis>, now: string)
    requires IdsUnique(t) && repoId != 0
    ensures var r := AnalyzeBatchAction(t, settings, Some(repoId), model, analyzer, now).1;
            r.Batch? && r.remaining + Cleared(Selected(t, repoId), analyzer, GetAssessmentModel(model, settings))
                        == |PendingOf(t, repoId)|
  {
    var batch := Selected(t, repoId);
    var p := PendingOf(t, repoId);
    PendingIdsUnique(t, repoId);
    assert forall j :: 0 <= j < |batch| ==> batch[j] == p[j];
    RemainingAfterRun(t, batch, repoId, analyzer, GetAssessmentModel(model, settings), now);
  }

  // ---------------------------------------------------------------------
  // analyze_single

  /** The `analyze_single` action: 400 without an issue id, 404 for an
      unknown one, 500 when the analyzer throws or the UPDATE fails, and
      otherwise the row as re-read after the update. */
  function AnalyzeSingleAction(t: seq<Issue>, settings: map<string, string>, issueId: Option<int>, model: Option<string>,
                               analyzer: (Issue, string) -> Result<Analysis>, now: string): (r: (seq<Issue>, Reply))
    ensures (issueId.None? || issueId.value == 0) ==> r == (t, Error(400, "issue_id is required"))
    ensures r.1.Error? ==> r.0 == t
    ensures r.1.Error? && r.1.code == 500 ==> StartsWith(r.1.message, "Analysis failed: ")
    ensures r.1.Single? ==>
              (issueId.Some? && issueId.value > 0 && FindIssue(t, issueId.value as nat).Some? &&
               var row := t[FindIssue(t, issueId.value as nat).value];
               var a := analyzer(row, GetAssessmentModel(model, settings));
               Storable(a).Some? && r.0 == SetAnalysis(t, issueId.value as nat, a.value, Storable(a).value, GetAssessmentModel(model, settings), now) &&
               r.1.issue.Some? && r.1.issue.value.id == issueId.value &&
               r.1.issue.value.assessment == Storable(a).value && r.1.issue.value.summary == Some(a.value.summary))
  {
    if issueId.None? || issueId.value == 0 then (t, Error(400, "issue_id is required"))
    else
      var m := GetAssessmentModel(model, settings);
      var found := if issueId.value < 0 then None else FindIssue(t, issueId.value as nat);
      if found.None? then (t, Error(404, "Issue not found"))
      else
        var a := analyzer(t[found.value], m);
        if a.Err? then (t, Error(500, "Analysis failed: " + a.error))
        else match Storable(a)
          case None => (t, Error(500, "Analysis failed: " + "Failed to update issue in database"))
          case Some(asm) =>
            var u := SetAnalysis(t, issueId.value as nat, a.value, asm, m, now);
            var again := FindIssue(u, issueId.value as nat);
            FindIssueAfterSet(t, issueId.value as nat, a.value, asm, m, now);
            (u, Single(Some(u[again.value])))
  }

  /** The row re-read after the update is the updated row: the update keeps
      every id where it was. */
  lemma FindIssueAfterSet(t: seq<Issue>, id: nat, an: Analysis, a: Assessment, model: string, now: string)
    requires FindIssue(t, id).Some?
    ensures FindIssue(SetAnalysis(t, id, an, a, model, now), id) == FindIssue(t, id)
  {
    var u := SetAnalysis(t, id, an, a, model, now);
    var k := FindIssue(t, id).value;
    assert u[k].id == id;
    match FindIssue(u, id)
    case None =>
    case Some(j) =>
      assert u[j].id == t[j].id;
  }

  /** analyze_single over the database. */
  method AnalyzeSingle(db: Database, issueId: Option<int>, model: Option<string>,
                       analyzer: (Issue, string) -> Result<Analysis>, now: string) returns (reply: Reply)
    modifies db
    ensures (db.issues, reply) == AnalyzeSingleAction(old(db.issues), db.settings, issueId, model, analyzer, now)
    ensures db.callbacks == old(db.callbacks) && db.repos == old(db.repos) && db.settings == old(db.settings)
  {
    if issueId.None? || issueId.value == 0 {
      return Error(400, "issue_id is required");
    }
    var m := GetAssessmentModel(model, db.settings);
    var found := if issueId.value < 0 then None else FindIssue(db.issues, issueId.value as nat);
    if found.None? {
      return Error(404, "Issue not found");
    }
    var analysis := analyzer(db.issues[found.value], m);
    if analysis.Err? {
      return Error(500, "Analysis failed: " + analysis.error);
    }
    var stored := Storable(analysis);
    if stored.None? {
      return Error(500, "Analysis failed: " + "Failed to update issue in database");
    }
    db.issues := SetAnalysis(db.issues, issueId.value as nat, analysis.value, stored.value, m, now);
    FindIssueAfterSet(old(db.issues), issueId.value as nat, analysis.value, stored.value, m, now);
    var again := FindIssue(db.issues, issueId.value as nat);
    reply := Single(Some(db.issues[again.value]));
  }

  // ---------------------------------------------------------------------
  // Dispatch

  /** The endpoint: POST dispatches on `action` (absent reads as ''), every
      other method is refused. */
  function Handle(t: seq<Issue>, settings: map<string, string>, verb: string, action: string,
                  repoId: Option<int>, issueId: Option<int>, model: Option<string>,
                  analyzer: (Issue, string) -> Result<Analysis>, now: string): (r: (seq<Issue>, Reply))
    ensures verb != "POST" ==> r == (t, Error(405, "Method not allowed"))
    ensures verb == "POST" && action != "analyze_batch" && action != "analyze_single" ==> r == (t, Error(400, "Invalid action"))
    ensures r.1.Error? ==> r.0 == t
  {
    if verb != "POST" then (t, Error(405, "Method not allowed"))
    else if action == "analyze_batch" then AnalyzeBatchAction(t, settings, repoId, model, analyzer, now)
    else if action == "analyze_single" then AnalyzeSingleAction(t, settings, issueId, model, analyzer, now)
    else (t, Error(400, "Invalid action"))
  }
}
