/** The Linear client of lib/linear.php: the error decision of
    `linear_request`, the team listing, the mapping of issue nodes to issue
    records, the single-page fetch and the cursor loop of
    `linear_fetch_issues`.

    The HTTP transfer is an oracle: `linear_request` is modelled from the
    point where curl has answered, with the status code and the decoded
    `errors` and `data` members as a value. The cursor loop receives the
    results of its successive `linear_request` calls as a sequence; a call
    past the end of that sequence gets data without `team.issues`, which
    ends the loop. */
module Linear {
  import opened Wrappers
  import opened Text
  import opened Store

  // ---------------------------------------------------------------------
  // linear_request

  /** One entry of a GraphQL `errors` list. */
  datatype GqlError = GqlError(message: Option<string>)

  /** The answer to one request: the HTTP status, the decoded `errors`
      member (None when unset) and the decoded `data` member (None when
      unset or null). */
  datatype Answer<D> = Answer(code: int, errors: Option<seq<GqlError>>, data: Option<D>)

  /** The error messages of a GraphQL errors list, a missing one reading
      'Unknown error'. */
  function ErrorMessages(es: seq<GqlError>): (r: seq<string>)
    ensures |r| == |es|
    ensures forall i :: 0 <= i < |es| ==> r[i] == es[i].message.GetOr("Unknown error")
  {
    seq(|es|, i requires 0 <= i < |es| => es[i].message.GetOr("Unknown error"))
  }

  /** The message thrown for an HTTP status of 400 or more: the first
      GraphQL error's message, or the status. */
  function HttpErrorMessage<D>(a: Answer<D>): string {
    if a.errors.Some? && |a.errors.value| > 0 && a.errors.value[0].message.Some? then a.errors.value[0].message.value
    else "HTTP " + IntToString(a.code)
  }

  /** linear_request after the transfer. An HTTP status of 400 or more
      throws; GraphQL errors throw only when no data came with them
      (partial data is returned); a missing `data` reads as `empty`. */
  function LinearRequest<D>(a: Answer<D>, empty: D): (r: Result<D>)
    ensures a.code >= 400 ==> r == Err("Linear API error: " + HttpErrorMessage(a))
    ensures a.code < 400 ==>
              (r.Err? <==> a.errors.Some? && |a.errors.value| > 0 && a.data.None?)
    ensures a.code < 400 && r.Err? ==> r.error == "Linear API error: " + Join(ErrorMessages(a.errors.value), ", ")
    ensures r.Ok? ==> r.value == a.data.GetOr(empty)
  {
    if a.code >= 400 then Err("Linear API error: " + HttpErrorMessage(a))
    else if a.errors.Some? && |a.errors.value| > 0 && a.data.None? then
      Err("Linear API error: " + Join(ErrorMessages(a.errors.value), ", "))
    else Ok(a.data.GetOr(empty))
  }

  /** Partial data wins over GraphQL errors. */
  lemma PartialDataIsReturned<D>(a: Answer<D>, empty: D)
    requires a.code < 400 && a.data.Some?
    ensures LinearRequest(a, empty) == Ok(a.data.value)
  {
  }

  // ---------------------------------------------------------------------
  // linear_list_teams

  /** A team node: id, name and key. */
  datatype TeamNode = TeamNode(id: string, name: string, key: string)

  /** The data of the teams query; `nodes` is None when unset. */
  datatype TeamsData = TeamsData(nodes: Option<seq<TeamNode>>)

  /** A team offered for import. */
  datatype ListedTeam = ListedTeam(sourceId: string, name: string)

  /** The label a team is listed under: "Name (KEY)". */
  function TeamLabel(t: TeamNode): (r: string)
    ensures StartsWith(r, t.name) && EndsWith(r, " (" + t.key + ")")
    ensures |r| == |t.name| + |t.key| + 3
  {
    var r := t.name + " (" + t.key + ")";
    assert r[..|t.name|] == t.name;
    assert r[|r| - |" (" + t.key + ")"|..] == " (" + t.key + ")";
    r
  }

  /** linear_list_teams: one entry per team node, in order, with the team
      id as source id. */
  function ListTeams(a: Answer<TeamsData>): (r: Result<seq<ListedTeam>>)
    ensures r.Err? <==> LinearRequest(a, TeamsData(None)).Err?
    ensures r.Ok? ==> var nodes := LinearRequest(a, TeamsData(None)).value.nodes.GetOr([]);
              |r.value| == |nodes| &&
              forall i :: 0 <= i < |nodes| ==> r.value[i] == ListedTeam(nodes[i].id, TeamLabel(nodes[i]))
  {
    match LinearRequest(a, TeamsData(None))
    case Err(e) => Err(e)
    case Ok(d) =>
      var nodes := d.nodes.GetOr([]);
      Ok(seq(|nodes|, i requires 0 <= i < |nodes| => ListedTeam(nodes[i].id, TeamLabel(nodes[i]))))
  }

  // ---------------------------------------------------------------------
  // Issue nodes

  /** An issue node with the fields the mapping reads; `stateType` is None
      when the state or its type is unset. */
  datatype IssueNode = IssueNode(identifier: string, url: string, title: string, description: Option<string>,
                                 priorityLabel: Option<string>, labels: Option<seq<string>>,
                                 stateType: Option<string>, createdAt: string)

  /** The `issues` connection: nodes and page info. */
  datatype Connection = Connection(nodes: seq<IssueNode>, hasNextPage: Option<bool>, endCursor: Option<string>)

  /** The data of the issues query; `issues` is None when `team.issues` is
      unset. */
  datatype TeamData = TeamData(issues: Option<Connection>)

  /** A completed or cancelled state closes the issue; anything else,
      including no state type, leaves it open. */
  function StatusOf(stateType: Option<string>): (r: string)
    ensures r == "closed" <==> stateType == Some("completed") || stateType == Some("canceled")
    ensures r == "open" || r == "closed"
  {
    if stateType.Some? && stateType.value in {"completed", "canceled"} then "closed" else "open"
  }

  /** The record a node becomes: the human-readable identifier is the source
      id and the priority label the priority. */
  function MapNode(n: IssueNode): (r: FetchedIssue)
    ensures r.sourceId == n.identifier && r.sourceUrl == n.url && r.title == n.title
    ensures r.description == n.description.GetOr("") && r.labels == n.labels.GetOr([])
    ensures r.priority == n.priorityLabel && r.status == StatusOf(n.stateType) && r.createdAt == n.createdAt
  {
    FetchedIssue(n.identifier, n.url, n.title, n.description.GetOr(""), n.labels.GetOr([]),
                 n.priorityLabel, StatusOf(n.stateType), n.createdAt)
  }

  /** The records of a run of nodes, in order. */
  function MapNodes(ns: seq<IssueNode>): (r: seq<FetchedIssue>)
    ensures |r| == |ns| && forall i :: 0 <= i < |ns| ==> r[i] == MapNode(ns[i])
  {
    seq(|ns|, i requires 0 <= i < |ns| => MapNode(ns[i]))
  }

  // ---------------------------------------------------------------------
  // linear_fetch_issues_page

  /** The variables of an issues query. */
  datatype Variables = Variables(teamId: string, first: int, after: Option<string>)

  /** The page size sent by linear_fetch_issues_page: the limit clamped to
      [1, 100]. */
  function ClampFirst(limit: int): (r: int)
    ensures 1 <= r <= 100
    ensures 1 <= limit <= 100 ==> r == limit
    ensures limit < 1 ==> r == 1
    ensures limit > 100 ==> r == 100
  {
    if limit < 1 then 1 else if limit > 100 then 100 else limit
  }

  /** What linear_fetch_issues_page returns. */
  datatype LinearPage = LinearPage(issues: seq<FetchedIssue>, hasNext: bool, endCursor: Option<string>)

  /** The variables linear_fetch_issues_page sends. */
  function PageVariables(teamId: string, limit: int, after: Option<string>): (v: Variables)
    ensures v.teamId == teamId && v.first == ClampFirst(limit) && v.after == after
  {
    Variables(teamId, ClampFirst(limit), after)
  }

  /** linear_fetch_issues_page: a missing `team.issues` is an empty last
      page without a cursor. */
  function FetchIssuesPage(a: Answer<TeamData>): (r: Result<LinearPage>)
    ensures r.Err? <==> LinearRequest(a, TeamData(None)).Err?
    ensures r.Ok? && LinearRequest(a, TeamData(None)).value.issues.None? ==> r.value == LinearPage([], false, None)
    ensures r.Ok? && LinearRequest(a, TeamData(None)).value.issues.Some? ==>
              var c := LinearRequest(a, TeamData(None)).value.issues.value;
              r.value == LinearPage(MapNodes(c.nodes), c.hasNextPage.GetOr(false), c.endCursor)
  {
    match LinearRequest(a, TeamData(None))
    case Err(e) => Err(e)
    case Ok(d) =>
      var c := d.issues.GetOr(Connection([], Some(false), None));
      Ok(LinearPage(MapNodes(c.nodes), c.hasNextPage.GetOr(false), c.endCursor))
  }

  // ---------------------------------------------------------------------
  // linear_fetch_issues

  /** The safety limit of the cursor loop. */
  const MaxIssues: nat := 500

  /** The result of the k-th request; past the recorded ones, data without
      `team.issues`. */
  function DataAt(rs: seq<Result<TeamData>>, k: nat): Result<TeamData> {
    if k < |rs| then rs[k] else Ok(TeamData(None))
  }

  /** The issues collected after one page: nodes are appended in order
      until the count reaches 500. */
  function Append(acc: seq<FetchedIssue>, ns: seq<IssueNode>): (r: seq<FetchedIssue>)
    requires |acc| < MaxIssues
    ensures |r| == if |acc| + |ns| < MaxIssues then |acc| + |ns| else MaxIssues
    ensures |r| <= MaxIssues && r[..|acc|] == acc
    ensures forall i :: |acc| <= i < |r| ==> r[i] == MapNode(ns[i - |acc|])
  {
    var n := if |acc| + |ns| < MaxIssues then |ns| else MaxIssues - |acc|;
    acc + MapNodes(ns[..n])
  }

  /** linear_fetch_issues from the k-th request on, sending cursor `after`
      with `acc` collected before: the issues returned (or the exception)
      and the cursors sent. */
  function Crawl(rs: seq<Result<TeamData>>, k: nat, after: Option<string>, acc: seq<FetchedIssue>): (r: (Result<seq<FetchedIssue>>, seq<Option<string>>))
    requires |acc| < MaxIssues
    ensures |r.1| >= 1 && r.1[0] == after
    decreases |rs| - k
  {
    match DataAt(rs, k)
    case Err(e) => (Err(e), [after])
    case Ok(d) =>
      if d.issues.None? then (Ok(acc), [after])
      else
        var c := d.issues.value;
        var all := Append(acc, c.nodes);
        if |all| < MaxIssues && c.hasNextPage.GetOr(false) then
          var tail := Crawl(rs, k + 1, c.endCursor, all);
          (tail.0, [after] + tail.1)
        else (Ok(all), [after])
  }

  /** At most 500 issues are returned, and the ones collected before are
      kept in front. */
  lemma {:induction false} CrawlCap(rs: seq<Result<TeamData>>, k: nat, after: Option<string>, acc: seq<FetchedIssue>)
    requires |acc| < MaxIssues
    ensures var r := Crawl(rs, k, after, acc).0;
            r.Ok? ==> |acc| <= |r.value| <= MaxIssues && r.value[..|acc|] == acc
    decreases |rs| - k
  {
    var d := DataAt(rs, k);
    if d.Ok? && d.value.issues.Some? {
      var c := d.value.issues.value;
      var all := Append(acc, c.nodes);
      if |all| < MaxIssues && c.hasNextPage.GetOr(false) {
        CrawlCap(rs, k + 1, c.endCursor, all);
        var r := Crawl(rs, k + 1, c.endCursor, all).0;
        if r.Ok? {
          assert r.value[..|acc|] == r.value[..|all|][..|acc|];
        }
      }
    }
  }

  /** Each request after the first sends the end cursor of the page before
      it, and the loop goes on only after a page whose hasNextPage is
      true. */
  lemma {:induction false} CrawlFollowsCursors(rs: seq<Result<TeamData>>, k: nat, after: Option<string>, acc: seq<FetchedIssue>, i: nat)
    requires |acc| < MaxIssues
    requires i + 1 < |Crawl(rs, k, after, acc).1|
    ensures DataAt(rs, k + i).Ok? && DataAt(rs, k + i).value.issues.Some?
    ensures DataAt(rs, k + i).value.issues.value.hasNextPage == Some(true)
    ensures Crawl(rs, k, after, acc).1[i + 1] == DataAt(rs, k + i).value.issues.value.endCursor
    decreases i
  {
    var c := DataAt(rs, k).value.issues.value;
    var all := Append(acc, c.nodes);
    if i > 0 {
      CrawlFollowsCursors(rs, k + 1, c.endCursor, all, i - 1);
    }
  }

  /** A first page without a next page returns its own nodes, mapped in
      order, when they are fewer than 500; without `team.issues` nothing is
      returned. */
  lemma CrawlSinglePage(rs: seq<Result<TeamData>>, c: Connection)
    requires |rs| > 0 && rs[0] == Ok(TeamData(Some(c)))
    requires c.hasNextPage != Some(true) && |c.nodes| < MaxIssues
    ensures Crawl(rs, 0, None, []) == (Ok(MapNodes(c.nodes)), [None])
  {
    assert Append([], c.nodes) == MapNodes(c.nodes[..|c.nodes|]);
    assert c.nodes[..|c.nodes|] == c.nodes;
  }

  /** Without `team.issues` the loop ends with what it had. */
  lemma CrawlStopsWithoutIssues(rs: seq<Result<TeamData>>, k: nat, after: Option<string>, acc: seq<FetchedIssue>)
    requires |acc| < MaxIssues && DataAt(rs, k) == Ok(TeamData(None))
    ensures Crawl(rs, k, after, acc) == (Ok(acc), [after])
  {
  }

  /** linear_fetch_issues: a do/while over cursor pages of min(limit, 100)
      issues that stops without `team.issues`, after a page without a next
      page, or as soon as 500 issues are collected. `sent` lists the
      variables of each request. */
  method FetchIssues(rs: seq<Result<TeamData>>, teamId: string, limit: int) returns (r: Result<seq<FetchedIssue>>, sent: seq<Variables>)
    ensures r == Crawl(rs, 0, None, []).0
    ensures |sent| == |Crawl(rs, 0, None, []).1|
    ensures forall i :: 0 <= i < |sent| ==>
              sent[i] == Variables(teamId, if limit < 100 then limit else 100, Crawl(rs, 0, None, []).1[i])
  {
    var all: seq<FetchedIssue> := [];
    var after: Option<string> := None;
    var perPage := if limit < 100 then limit else 100;
    var k: nat := 0;
    sent := [];
    while true
      invariant |all| < MaxIssues && |sent| == k
      invariant Crawl(rs, 0, None, []).0 == Crawl(rs, k, after, all).0
      invariant Crawl(rs, 0, None, []).1 == Cursors(sent) + Crawl(rs, k, after, all).1
      invariant forall i :: 0 <= i < k ==> sent[i].teamId == teamId && sent[i].first == perPage
      decreases |rs| - k
    {
      ghost var tail := Crawl(rs, k, after, all).1;
      assert Cursors(sent + [Variables(teamId, perPage, after)]) == Cursors(sent) + [after];
      sent := sent + [Variables(teamId, perPage, after)];
      SentAsCrawled(sent, teamId, perPage, Cursors(sent));
      ghost var before := all;
      var data := DataAt(rs, k);
      if data.Err? {
        assert Crawl(rs, k, after, before) == (Err(data.error), [after]);
        r := Err(data.error);
        return;
      }
      var issues := data.value.issues;
      if issues.None? {
        assert Crawl(rs, k, after, before) == (Ok(before), [after]);
        r := Ok(all);
        return;
      }
      var c := issues.value;
      all := AppendPage(all, c.nodes);
      if |all| >= MaxIssues {
        assert Crawl(rs, k, after, before) == (Ok(all), [after]);
        r := Ok(all);
        return;
      }
      if !(c.hasNextPage.GetOr(false) && |all| < MaxIssues) {
        assert Crawl(rs, k, after, before) == (Ok(all), [after]);
        r := Ok(all);
        return;
      }
      after := c.endCursor;
      k := k + 1;
    }
  }

  /** Requests that all name the team and the page size send exactly the
      variables built from their cursors. */
  lemma SentAsCrawled(sent: seq<Variables>, teamId: string, perPage: int, cs: seq<Option<string>>)
    requires cs == Cursors(sent)
    requires forall i :: 0 <= i < |sent| ==> sent[i].teamId == teamId && sent[i].first == perPage
    ensures forall i :: 0 <= i < |sent| ==> sent[i] == Variables(teamId, perPage, cs[i])
  {
  }

  /** The inner loop of linear_fetch_issues: maps and appends the nodes of
      one page, leaving it as soon as 500 issues are collected. */
  method AppendPage(acc: seq<FetchedIssue>, ns: seq<IssueNode>) returns (all: seq<FetchedIssue>)
    requires |acc| < MaxIssues
    ensures all == Append(acc, ns)
  {
    all := acc;
    var i := 0;
    while i < |ns|
      invariant 0 <= i <= |ns|
      invariant all == acc + MapNodes(ns[..i])
      invariant |acc| + i < MaxIssues
    {
      all := all + [MapNode(ns[i])];
      assert ns[..i + 1] == ns[..i] + [ns[i]];
      i := i + 1;
      if |all| >= MaxIssues {
        return;
      }
    }
    assert ns[..i] == ns;
  }

  /** The cursors of a list of sent variables. */
  function Cursors(vs: seq<Variables>): (r: seq<Option<string>>)
    ensures |r| == |vs| && forall i :: 0 <= i < |vs| ==> r[i] == vs[i].after
  {
    seq(|vs|, i requires 0 <= i < |vs| => vs[i].after)
  }

  // ---------------------------------------------------------------------
  // linear_validate_token

  /** The data of the viewer query; `viewerId` is None when unset. */
  datatype ViewerData = ViewerData(viewerId: Option<string>)

  /** linear_validate_token: a token is valid exactly when the request
      succeeds and names the viewer. */
  function ValidateToken(a: Answer<ViewerData>): (valid: bool)
    ensures valid <==> LinearRequest(a, ViewerData(None)).Ok? && LinearRequest(a, ViewerData(None)).value.viewerId.Some?
    ensures a.code >= 400 ==> !valid
  {
    match LinearRequest(a, ViewerData(None))
    case Err(_) => false
    case Ok(d) => d.viewerId.Some?
  }
}
