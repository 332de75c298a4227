/** The callback gateway of api/callback.php: the agent process reports the
    end of a run by a GET carrying the run's callback id, the reported status
    and optionally a pull-request URL; the handler applies the report to the
    issue and callback rows once and asks for the run's worktree to be
    removed. */
module CallbackGateway {
  import opened Wrappers
  import opened Text
  import opened Store

  /** The query parameters of one delivery (absent parameters are None). */
  datatype Request = Request(id: Option<string>, status: Option<string>, prUrl: Option<string>, error: Option<string>)

  /** The JSON answer: an HTTP error, an acknowledged but ignored delivery,
      or a processed one with the pr_status it wrote. */
  datatype Reply =
    | Rejected(code: nat, message: string)
    | Ignored(message: string)
    | Processed(prStatus: PrStatus)

  /** A shell command, as its argument vector. */
  datatype GitCommand = GitCommand(args: seq<string>)

  /** The three tables the handler reads. */
  datatype Tables = Tables(issues: seq<Issue>, callbacks: seq<CallbackRow>, repos: seq<Repo>)

  /** What one delivery does: the new tables, the reply and the worktree
      removal it asks for, if any. */
  datatype Delivery = Delivery(tables: Tables, reply: Reply, cleanup: Option<GitCommand>)

  /** `remove_worktree`: nothing happens unless both paths are non-empty and
      the worktree directory exists (`dirs` is the set of existing
      directories); otherwise `git worktree remove --force` is run. */
  function RemoveWorktree(root: string, path: string, dirs: set<string>): (r: Option<GitCommand>)
    ensures r.None? <==> !Truthy(root) || !Truthy(path) || path !in dirs
    ensures r.Some? ==> r.value.args == ["git", "-C", root, "worktree", "remove", "--force", path]
  {
    if !Truthy(root) || !Truthy(path) || path !in dirs then None
    else Some(GitCommand(["git", "-C", root, "worktree", "remove", "--force", path]))
  }

  /** The repo's auto_create_pr flag when the callback row joins an issue and
      that issue joins a repo, as the lookup's two inner JOINs require. */
  function JoinRow(issues: seq<Issue>, repos: seq<Repo>, c: CallbackRow): Option<bool> {
    match FindIssue(issues, c.issueId)
    case None => None
    case Some(i) =>
      match FindRepo(repos, issues[i].repoId)
      case None => None
      case Some(r) => Some(repos[r].autoCreatePr)
  }

  /** The row the lookup query returns: the first callback row with this id
      whose joins succeed, with its repo's auto_create_pr flag. */
  function Lookup(cs: seq<CallbackRow>, issues: seq<Issue>, repos: seq<Repo>, id: string): (r: Option<(nat, bool)>)
    ensures r.Some? ==> r.value.0 < |cs| && cs[r.value.0].callbackId == id
    ensures r.Some? ==> JoinRow(issues, repos, cs[r.value.0]) == Some(r.value.1)
    ensures r.None? ==> forall j :: 0 <= j < |cs| && cs[j].callbackId == id ==> JoinRow(issues, repos, cs[j]).None?
  {
    if cs == [] then None
    else if cs[0].callbackId == id && JoinRow(issues, repos, cs[0]).Some? then Some((0, JoinRow(issues, repos, cs[0]).value))
    else match Lookup(cs[1..], issues, repos, id)
      case None => None
      case Some((k, a)) => Some((k + 1, a))
  }

  /** The pr_status an issue gets from the reported status. */
  function MapReportedStatus(status: string, autoCreatePr: bool, hasPrUrl: bool): (p: PrStatus)
    ensures p == PrCreated <==> status == "complete" && autoCreatePr && hasPrUrl
    ensures p == NeedsReview <==> (status == "complete" && autoCreatePr && !hasPrUrl) || status == "needs_review"
    ensures p == BranchPushed <==> status == "complete" && !autoCreatePr
    ensures p == Failed <==> status == "failed"
    ensures p == PrNone <==> status !in {"complete", "failed", "needs_review"}
    ensures p != InProgress
  {
    if status == "complete" then
      if autoCreatePr then (if hasPrUrl then PrCreated else NeedsReview) else BranchPushed
    else if status == "failed" then Failed
    else if status == "needs_review" then NeedsReview
    else PrNone
  }

  /** `UPDATE callbacks SET status = ?, completed_at = ... WHERE callback_id = ?`. */
  function FinishCallbacks(cs: seq<CallbackRow>, id: string, status: string, now: string): (r: seq<CallbackRow>)
    ensures |r| == |cs|
    ensures forall k :: 0 <= k < |cs| && cs[k].callbackId != id ==> r[k] == cs[k]
    ensures forall k :: 0 <= k < |cs| && cs[k].callbackId == id ==>
              r[k].status == status && r[k].completedAt == Some(now) &&
              r[k] == cs[k].(status := r[k].status, completedAt := r[k].completedAt)
  {
    seq(|cs|, k requires 0 <= k < |cs| =>
      if cs[k].callbackId == id then cs[k].(status := status, completedAt := Some(now)) else cs[k])
  }

  /** A GET delivery, from parameter validation to the final reply. The
      error parameter is only logged by the handler. Only a processed
      delivery writes, and then only the issue and callback rows; a
      rejected one also asks for no cleanup. */
  function Deliver(s: Tables, req: Request, dirs: set<string>, now: string): (r: Delivery)
    ensures r.tables.repos == s.repos
    ensures |r.tables.issues| == |s.issues| && |r.tables.callbacks| == |s.callbacks|
    ensures !r.reply.Processed? ==> r.tables == s
    ensures r.reply.Rejected? ==> r.cleanup.None? && r.reply.code in {400, 404}
    ensures r.reply.Processed? ==> r.reply.prStatus != InProgress && req.id.Some?
    ensures r.reply.Processed? ==>
              forall k :: 0 <= k < |s.callbacks| && s.callbacks[k].callbackId != req.id.value ==> r.tables.callbacks[k] == s.callbacks[k]
  {
    if !TruthyOpt(req.id) then Delivery(s, Rejected(400, "callback_id is required"), None)
    else if !TruthyOpt(req.status) then Delivery(s, Rejected(400, "status is required"), None)
    else match Lookup(s.callbacks, s.issues, s.repos, req.id.value)
      case None => Delivery(s, Rejected(404, "Callback not found"), None)
      case Some((k, auto)) =>
        var c := s.callbacks[k];
        var cleanup := RemoveWorktree(c.repoRootPath.GetOr(""), c.worktreePath.GetOr(""), dirs);
        if c.status == "cancelled" then
          Delivery(s, Ignored("Callback ignored because run was cancelled"), cleanup)
        else if c.status != "pending" then
          Delivery(s, Ignored("Callback already processed"), None)
        else
          var hasUrl := TruthyOpt(req.prUrl);
          var p := MapReportedStatus(req.status.value, auto, hasUrl);
          var issues := SetPr(s.issues, c.issueId, p, if hasUrl then req.prUrl else None, now);
          var callbacks := FinishCallbacks(s.callbacks, req.id.value, req.status.value, now);
          Delivery(Tables(issues, callbacks, s.repos), Processed(p), cleanup)
  }

  /** The endpoint: only GET is served; anything else is answered 405 and
      changes nothing. */
  function Handle(s: Tables, verb: string, req: Request, dirs: set<string>, now: string): (r: Delivery)
    ensures verb != "GET" ==> r.tables == s && r.reply == Rejected(405, "Method not allowed") && r.cleanup.None?
    ensures r.tables.repos == s.repos
    ensures !r.reply.Processed? ==> r.tables == s
    ensures r.reply.Rejected? ==> r.cleanup.None?
  {
    if verb == "GET" then Deliver(s, req, dirs, now)
    else Delivery(s, Rejected(405, "Method not allowed"), None)
  }

  /** The handler over the database: validate, look up, guard, map, write
      the issue row, write the callback row, request worktree removal. */
  method HandleCallback(db: Database, verb: string, req: Request, dirs: set<string>, now: string)
    returns (reply: Reply, cleanup: Option<GitCommand>)
    modifies db
    ensures var d := Handle(Tables(old(db.issues), old(db.callbacks), old(db.repos)), verb, req, dirs, now);
      Tables(db.issues, db.callbacks, db.repos) == d.tables && reply == d.reply && cleanup == d.cleanup
    ensures db.settings == old(db.settings)
  {
    cleanup := None;
    if verb != "GET" {
      reply := Rejected(405, "Method not allowed");
      return;
    }
    if !TruthyOpt(req.id) {
      reply := Rejected(400, "callback_id is required");
      return;
    }
    if !TruthyOpt(req.status) {
      reply := Rejected(400, "status is required");
      return;
    }
    var found := Lookup(db.callbacks, db.issues, db.repos, req.id.value);
    if found.None? {
      reply := Rejected(404, "Callback not found");
      return;
    }
    var (k, auto) := found.value;
    var c := db.callbacks[k];
    if c.status == "cancelled" {
      cleanup := RemoveWorktree(c.repoRootPath.GetOr(""), c.worktreePath.GetOr(""), dirs);
      reply := Ignored("Callback ignored because run was cancelled");
      return;
    }
    if c.status != "pending" {
      reply := Ignored("Callback already processed");
      return;
    }
    var hasUrl := TruthyOpt(req.prUrl);
    var p := MapReportedStatus(req.status.value, auto, hasUrl);
    db.issues := SetPr(db.issues, c.issueId, p, if hasUrl then req.prUrl else None, now);
    db.callbacks := FinishCallbacks(db.callbacks, req.id.value, req.status.value, now);
    cleanup := RemoveWorktree(c.repoRootPath.GetOr(""), c.worktreePath.GetOr(""), dirs);
    reply := Processed(p);
  }

  // ---------------------------------------------------------------------
  // Properties of a delivery

  /** A request without a truthy id or status is rejected with 400 before
      any lookup, and nothing is written or removed. */
  lemma MissingParameterRejected(s: Tables, req: Request, dirs: set<string>, now: string)
    requires !TruthyOpt(req.id) || !TruthyOpt(req.status)
    ensures var d := Deliver(s, req, dirs, now);
      d.reply.Rejected? && d.reply.code == 400 && d.tables == s && d.cleanup.None?
  {
  }

  /** An unknown callback id is a 404 and nothing is written. */
  lemma UnknownCallbackWritesNothing(s: Tables, req: Request, dirs: set<string>, now: string)
    requires TruthyOpt(req.id) && TruthyOpt(req.status)
    requires forall j :: 0 <= j < |s.callbacks| ==> s.callbacks[j].callbackId != req.id.value
    ensures var d := Deliver(s, req, dirs, now);
      d.reply == Rejected(404, "Callback not found") && d.tables == s && d.cleanup.None?
  {
  }

  /** A delivery for a cancelled run leaves every table as it was and only
      asks for the worktree to be removed. */
  lemma CancelledRunIgnored(s: Tables, req: Request, dirs: set<string>, now: string, k: nat, auto: bool)
    requires TruthyOpt(req.id) && TruthyOpt(req.status)
    requires Lookup(s.callbacks, s.issues, s.repos, req.id.value) == Some((k, auto))
    requires s.callbacks[k].status == "cancelled"
    ensures var d := Deliver(s, req, dirs, now);
      d.tables == s && d.reply.Ignored? &&
      d.cleanup == RemoveWorktree(s.callbacks[k].repoRootPath.GetOr(""), s.callbacks[k].worktreePath.GetOr(""), dirs)
  {
  }

  /** A delivery for a run that is neither pending nor cancelled changes
      nothing at all. */
  lemma FinishedRunIgnored(s: Tables, req: Request, dirs: set<string>, now: string, k: nat, auto: bool)
    requires TruthyOpt(req.id) && TruthyOpt(req.status)
    requires Lookup(s.callbacks, s.issues, s.repos, req.id.value) == Some((k, auto))
    requires s.callbacks[k].status !in {"pending", "cancelled"}
    ensures Deliver(s, req, dirs, now) == Delivery(s, Ignored("Callback already processed"), None)
  {
  }

  /** On the pending path only the one issue changes, and only in pr_status,
      pr_url (overwritten only when a URL is supplied) and updated_at; the
      callback row takes the reported status verbatim with completed_at
      stamped; the repos are untouched. */
  lemma PendingPathWrites(s: Tables, req: Request, dirs: set<string>, now: string, k: nat, auto: bool)
    requires TruthyOpt(req.id) && TruthyOpt(req.status)
    requires Lookup(s.callbacks, s.issues, s.repos, req.id.value) == Some((k, auto))
    requires s.callbacks[k].status == "pending"
    ensures var d := Deliver(s, req, dirs, now);
      var c := s.callbacks[k];
      var p := MapReportedStatus(req.status.value, auto, TruthyOpt(req.prUrl));
      && d.reply == Processed(p)
      && d.tables.repos == s.repos
      && |d.tables.issues| == |s.issues|
      && (forall j :: 0 <= j < |s.issues| && s.issues[j].id != c.issueId ==> d.tables.issues[j] == s.issues[j])
      && (forall j :: 0 <= j < |s.issues| && s.issues[j].id == c.issueId ==>
            d.tables.issues[j] == s.issues[j].(prStatus := p,
                                               prUrl := if TruthyOpt(req.prUrl) then req.prUrl else s.issues[j].prUrl,
                                               updatedAt := Some(now)))
      && |d.tables.callbacks| == |s.callbacks|
      && (forall j :: 0 <= j < |s.callbacks| && s.callbacks[j].callbackId != req.id.value ==> d.tables.callbacks[j] == s.callbacks[j])
      && (forall j :: 0 <= j < |s.callbacks| && s.callbacks[j].callbackId == req.id.value ==>
            d.tables.callbacks[j] == s.callbacks[j].(status := req.status.value, completedAt := Some(now)))
  {
  }

  /** The error text of a delivery never affects what it does. */
  lemma ErrorTextIgnored(s: Tables, req: Request, e: Option<string>, dirs: set<string>, now: string)
    ensures Deliver(s, req, dirs, now) == Deliver(s, req.(error := e), dirs, now)
  {
  }

  /** Under the callbacks table of lib/db.php, whose rows carry no paths,
      no delivery ever runs the removal command. */
  lemma NoCleanupWithoutPaths(s: Tables, req: Request, dirs: set<string>, now: string)
    requires forall j :: 0 <= j < |s.callbacks| ==> s.callbacks[j].repoRootPath.None? && s.callbacks[j].worktreePath.None?
    ensures Deliver(s, req, dirs, now).cleanup.None?
  {
    if TruthyOpt(req.id) && TruthyOpt(req.status) {
      var found := Lookup(s.callbacks, s.issues, s.repos, req.id.value);
      if found.Some? {
        assert s.callbacks[found.value.0].repoRootPath.None?;
      }
    }
  }

  // ---------------------------------------------------------------------
  // Idempotence

  /** Two issue tables with the same ids and repo ids, row by row. */
  predicate SameIssueKeys(t: seq<Issue>, u: seq<Issue>) {
    |t| == |u| && forall j :: 0 <= j < |t| ==> t[j].id == u[j].id && t[j].repoId == u[j].repoId
  }

  /** Two callback tables with the same callback ids and issue ids. */
  predicate SameCallbackKeys(cs: seq<CallbackRow>, ds: seq<CallbackRow>) {
    |cs| == |ds| && forall j :: 0 <= j < |cs| ==> cs[j].callbackId == ds[j].callbackId && cs[j].issueId == ds[j].issueId
  }

  lemma {:induction false} FindIssueSameKeys(t: seq<Issue>, u: seq<Issue>, id: nat)
    requires SameIssueKeys(t, u)
    ensures FindIssue(t, id) == FindIssue(u, id)
    decreases |t|
  {
    if t != [] {
      FindIssueSameKeys(t[1..], u[1..], id);
    }
  }

  lemma JoinRowSameKeys(t: seq<Issue>, u: seq<Issue>, repos: seq<Repo>, c: CallbackRow)
    requires SameIssueKeys(t, u)
    ensures JoinRow(t, repos, c) == JoinRow(u, repos, c)
  {
    FindIssueSameKeys(t, u, c.issueId);
  }

  /** The lookup depends on the tables only through their keys. */
  lemma {:induction false} LookupSameKeys(cs: seq<CallbackRow>, ds: seq<CallbackRow>, t: seq<Issue>, u: seq<Issue>, repos: seq<Repo>, id: string)
    requires SameCallbackKeys(cs, ds) && SameIssueKeys(t, u)
    ensures Lookup(cs, t, repos, id) == Lookup(ds, u, repos, id)
    decreases |cs|
  {
    if cs != [] {
      JoinRowSameKeys(t, u, repos, cs[0]);
      assert JoinRow(t, repos, cs[0]) == JoinRow(u, repos, ds[0]);
      LookupSameKeys(cs[1..], ds[1..], t, u, repos, id);
    }
  }

  /** A duplicate delivery is a no-op: once a delivery has been applied on
      the pending path with a reported status other than "pending", every
      later delivery for the same callback id is acknowledged as ignored and
      leaves every table exactly as the first delivery left it. */
  lemma DuplicateDeliveryIsNoOp(s: Tables, first: Request, again: Request, dirs: set<string>, dirs2: set<string>, now: string, now2: string)
    requires first.status.Some? && first.status.value != "pending"
    requires Deliver(s, first, dirs, now).reply.Processed?
    requires again.id == first.id && TruthyOpt(again.status)
    ensures var s1 := Deliver(s, first, dirs, now).tables;
      var d := Deliver(s1, again, dirs2, now2);
      d.tables == s1 && d.reply.Ignored?
  {
    var id := first.id.value;
    var found := Lookup(s.callbacks, s.issues, s.repos, id);
    var (k, auto) := found.value;
    var c := s.callbacks[k];
    var hasUrl := TruthyOpt(first.prUrl);
    var p := MapReportedStatus(first.status.value, auto, hasUrl);
    var issues := SetPr(s.issues, c.issueId, p, if hasUrl then first.prUrl else None, now);
    var callbacks := FinishCallbacks(s.callbacks, id, first.status.value, now);
    assert SameIssueKeys(issues, s.issues);
    assert SameCallbackKeys(callbacks, s.callbacks);
    LookupSameKeys(callbacks, s.callbacks, issues, s.issues, s.repos, id);
    assert callbacks[k].status == first.status.value;
  }

  /** A delivery that arrives after the run was cancelled never moves the
      issue's pr_status: whatever it reports, every table is unchanged. */
  lemma CancelThenCallback(s: Tables, req: Request, dirs: set<string>, now: string)
    requires TruthyOpt(req.id)
    requires forall j :: 0 <= j < |s.callbacks| && s.callbacks[j].callbackId == req.id.value ==> s.callbacks[j].status == "cancelled"
    ensures Deliver(s, req, dirs, now).tables == s
  {
  }
}
