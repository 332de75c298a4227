/** The issues endpoint of api/issues.php: paged listing of a repository's
    issues (GET), and the `fetch_issues` and `check_prs` actions (POST). The
    tracker call that `fetch_issues` makes is a parameter: the list of items
    the GitHub or Linear client returned, or the message of the exception it
    threw. */
module IssuesApi {
  import opened Wrappers
  import opened Text
  import opened Store
  import opened Utils

  /** The JSON reply of the endpoint. `Crash` is the uncaught
      DivisionByZeroError of a listing with per_page 0, which no catch block
      of the handler receives. */
  datatype Reply =
    | Error(code: nat, message: string)
    | Crash
    | Listing(issues: seq<Issue>, page: int, perPage: int, total: nat, totalPages: int)
    | Synced(added: nat, updated: nat, total: nat)
    | Message(text: string)

  // ---------------------------------------------------------------------
  // GET: listing

  /** `ceil(a / b)` for integers, b non-zero. */
  function CeilDiv(a: int, b: int): (c: int)
    requires b != 0
    ensures b > 0 ==> (c - 1) * b < a <= c * b
    ensures b < 0 ==> c * b <= a < (c - 1) * b
    ensures b > 0 && a >= 0 ==> c >= 0
  {
    if b > 0 then
      var q := (-a) / b;
      assert q * b <= -a < (q + 1) * b;
      assert a >= 0 ==> q <= 0;
      -q
    else
      var q := a / (-b);
      assert q * (-b) <= a < (q + 1) * (-b);
      assert (-q) * b == q * (-b);
      assert (-q - 1) * b == (q + 1) * (-b);
      -q
  }

  /** The rows `WHERE repo_id = ?` selects: the parameter is compared as a
      number, so text that is not an integer selects nothing. */
  function RepoRows(t: seq<Issue>, repoId: string): (r: seq<Issue>)
    ensures |r| <= |t|
    ensures forall i :: 0 <= i < |r| ==> ParseInt(repoId) == Some(r[i].repoId as int)
    ensures forall i :: 0 <= i < |t| && ParseInt(repoId) == Some(t[i].repoId as int) ==> t[i] in r
  {
    if t == [] then []
    else (if ParseInt(repoId) == Some(t[0].repoId as int) then [t[0]] else []) + RepoRows(t[1..], repoId)
  }

  /** `LIMIT limit OFFSET offset` as SQLite reads it: a negative offset
      counts as zero and a negative limit sets no bound. */
  function Window(rows: seq<Issue>, offset: int, limit: int): (r: seq<Issue>)
    ensures limit >= 0 ==> |r| <= limit
    ensures forall i :: 0 <= i < |r| ==> r[i] in rows
  {
    var start := if offset < 0 then 0 else if offset > |rows| then |rows| else offset;
    var end := if limit < 0 || start + limit > |rows| then |rows| else start + limit;
    rows[start..end]
  }

  /** The GET listing. `page` and `perPage` are the query values after
      `intval`, None when absent (defaults 1 and 50). */
  function ListIssues(t: seq<Issue>, repoId: Option<string>, page: Option<int>, perPage: Option<int>): (r: Reply)
    ensures !TruthyOpt(repoId) <==> r == Error(400, "repo_id parameter required")
    ensures r.Crash? <==> TruthyOpt(repoId) && perPage == Some(0)
    ensures r.Listing? ==> r.total == |RepoRows(t, repoId.value)| && r.page == page.GetOr(1) && r.perPage == perPage.GetOr(50)
    ensures r.Listing? && r.perPage > 0 ==> |r.issues| <= r.perPage && (r.totalPages - 1) * r.perPage < r.total <= r.totalPages * r.perPage
    ensures r.Listing? ==> forall i :: 0 <= i < |r.issues| ==> r.issues[i] in RepoRows(t, repoId.value)
    ensures r.Error? || r.Crash? || r.Listing?
    ensures r.Listing? ==>
              && r.perPage != 0
              && r.issues == Window(RepoRows(t, repoId.value), (r.page - 1) * r.perPage, r.perPage)
              && r.totalPages == CeilDiv(r.total, r.perPage)
  {
    if !TruthyOpt(repoId) then Error(400, "repo_id parameter required")
    else
      var p := page.GetOr(1);
      var pp := perPage.GetOr(50);
      var offset := (p - 1) * pp;
      var rows := RepoRows(t, repoId.value);
      if pp == 0 then Crash
      else
        var w := Window(rows, offset, pp);
        assert forall i :: 0 <= i < |w| ==> w[i] in rows;
        Listing(w, p, pp, |rows|, CeilDiv(|rows|, pp))
  }

  /** The listing pages 1 to n, concatenated. */
  function Pages(rows: seq<Issue>, perPage: int, n: nat): seq<Issue>
    requires perPage > 0
  {
    if n == 0 then [] else Pages(rows, perPage, n - 1) + Window(rows, (n - 1) * perPage, perPage)
  }

  lemma {:induction false} PagesPrefix(rows: seq<Issue>, perPage: int, n: nat)
    requires perPage > 0
    ensures Pages(rows, perPage, n) == rows[..if n * perPage < |rows| then n * perPage else |rows|]
  {
    if n > 0 {
      PagesPrefix(rows, perPage, n - 1);
      assert (n - 1) * perPage + perPage == n * perPage;
      assert (n - 1) * perPage >= 0;
      var a := if (n - 1) * perPage < |rows| then (n - 1) * perPage else |rows|;
      var b := if n * perPage < |rows| then n * perPage else |rows|;
      assert rows[..a] + rows[a..b] == rows[..b];
    }
  }

  /** Paging partitions the repository's rows: pages 1 to total_pages,
      read in order, hold every row once, and the page after them is
      empty. */
  lemma PagesCoverRows(rows: seq<Issue>, perPage: int)
    requires perPage > 0
    ensures Pages(rows, perPage, CeilDiv(|rows|, perPage)) == rows
    ensures Window(rows, CeilDiv(|rows|, perPage) * perPage, perPage) == []
  {
    var n := CeilDiv(|rows|, perPage);
    PagesPrefix(rows, perPage, n);
  }

  /** The issues of listing pages 1 to n of a repository, concatenated. */
  function ListedPages(t: seq<Issue>, repoId: string, perPage: int, n: nat): seq<Issue>
    requires Truthy(repoId) && perPage > 0
  {
    if n == 0 then []
    else
      var r := ListIssues(t, Some(repoId), Some(n), Some(perPage));
      ListedPages(t, repoId, perPage, n - 1) + r.issues
  }

  lemma ListedPage(t: seq<Issue>, repoId: string, page: int, perPage: int)
    requires Truthy(repoId) && perPage > 0
    ensures var r := ListIssues(t, Some(repoId), Some(page), Some(perPage));
      && r.Listing?
      && r.issues == Window(RepoRows(t, repoId), (page - 1) * perPage, perPage)
      && r.totalPages == CeilDiv(|RepoRows(t, repoId)|, perPage)
  {
    var rows := RepoRows(t, repoId);
    assert ListIssues(t, Some(repoId), Some(page), Some(perPage))
        == Listing(Window(rows, (page - 1) * perPage, perPage), page, perPage, |rows|, CeilDiv(|rows|, perPage));
  }

  lemma {:induction false} ListedPagesArePages(t: seq<Issue>, repoId: string, perPage: int, n: nat)
    requires Truthy(repoId) && perPage > 0
    ensures ListedPages(t, repoId, perPage, n) == Pages(RepoRows(t, repoId), perPage, n)
  {
    if n > 0 {
      ListedPagesArePages(t, repoId, perPage, n - 1);
      ListedPage(t, repoId, n, perPage);
    }
  }

  /** Reading a repository's listing page by page, from page 1 to the
      total_pages every page reports, yields each of its rows once and in
      order; the page after the last is empty. */
  lemma ListingCoversRepository(t: seq<Issue>, repoId: string, perPage: int)
    requires Truthy(repoId) && perPage > 0
    ensures ListIssues(t, Some(repoId), Some(1), Some(perPage)).Listing?
    ensures ListIssues(t, Some(repoId), Some(1), Some(perPage)).totalPages == CeilDiv(|RepoRows(t, repoId)|, perPage)
    ensures ListedPages(t, repoId, perPage, CeilDiv(|RepoRows(t, repoId)|, perPage)) == RepoRows(t, repoId)
    ensures ListIssues(t, Some(repoId), Some(CeilDiv(|RepoRows(t, repoId)|, perPage) + 1), Some(perPage)).issues == []
  {
    ListedPage(t, repoId, 1, perPage);
    PagesReadInOrder(t, repoId, perPage);
    PageAfterLastEmpty(t, repoId, perPage);
  }

  lemma PagesReadInOrder(t: seq<Issue>, repoId: string, perPage: int)
    requires Truthy(repoId) && perPage > 0
    ensures ListedPages(t, repoId, perPage, CeilDiv(|RepoRows(t, repoId)|, perPage)) == RepoRows(t, repoId)
  {
    var rows := RepoRows(t, repoId);
    ListedPagesArePages(t, repoId, perPage, CeilDiv(|rows|, perPage));
    PagesCoverRows(rows, perPage);
  }

  lemma PageAfterLastEmpty(t: seq<Issue>, repoId: string, perPage: int)
    requires Truthy(repoId) && perPage > 0
    ensures ListIssues(t, Some(repoId), Some(CeilDiv(|RepoRows(t, repoId)|, perPage) + 1), Some(perPage)).issues == []
  {
    var rows := RepoRows(t, repoId);
    var n := CeilDiv(|rows|, perPage);
    ListedPage(t, repoId, n + 1, perPage);
    assert (n + 1 - 1) * perPage == n * perPage;
    PagesCoverRows(rows, perPage);
  }

  // ---------------------------------------------------------------------
  // POST fetch_issues: the batch upsert

  /** What the sync loop of each tracker writes: GitHub re-syncs keep the
      stored priority, Linear re-syncs overwrite it; both insert the item's
      own priority. */
  function PriorityOnUpdate(source: Source, item: FetchedIssue): PriorityWrite {
    match source
    case GitHub => KeepPriority
    case Linear => WritePriority(item.priority)
  }

  /** One turn of the sync loop: new exactly when the per-repository
      lookup finds no row; an update keeps the table's length, and an insert
      appends a row with the item's own priority unless the unique key
      refuses it. */
  function SyncOne(t: seq<Issue>, key: UniqueKey, repoId: nat, source: Source, item: FetchedIssue, now: string): (r: (seq<Issue>, bool))
    ensures r.1 <==> FindByKey(t, source, item.sourceId, repoId).None?
    ensures !r.1 ==> |r.0| == |t|
    ensures r.1 ==> r.0 == t || r.0 == t + [NewRow(NextId(t), repoId, source, item, item.priority, now)]
  {
    UpsertStep(t, key, repoId, source, item, PriorityOnUpdate(source, item), item.priority, now)
  }

  /** The foreach over a prefix of the fetched items: the table and the new
      and updated counters. Rows are only appended, and no more than the
      items counted new. */
  function SyncAll(t: seq<Issue>, key: UniqueKey, repoId: nat, source: Source, items: seq<FetchedIssue>, now: string): (r: (seq<Issue>, nat, nat))
    ensures |t| <= |r.0| <= |t| + r.1
    decreases |items|
  {
    if items == [] then (t, 0, 0)
    else
      var (t', a, u) := SyncAll(t, key, repoId, source, items[..|items| - 1], now);
      var (t'', isNew) := SyncOne(t', key, repoId, source, items[|items| - 1], now);
      if isNew then (t'', a + 1, u) else (t'', a, u + 1)
  }

  /** One turn of the sync loop over the database: the row with the item's
      key in this repository is refreshed, or a new row is inserted unless
      the table's unique key already holds one. */
  method SyncRow(db: Database, repoId: nat, source: Source, item: FetchedIssue, now: string) returns (isNew: bool)
    modifies db
    ensures (db.issues, isNew) == SyncOne(old(db.issues), db.key, repoId, source, item, now)
    ensures db.callbacks == old(db.callbacks) && db.repos == old(db.repos) && db.settings == old(db.settings)
  {
    var existing := FindByKey(db.issues, source, item.sourceId, repoId);
    if existing.Some? {
      var id := db.issues[existing.value].id;
      var pw := PriorityOnUpdate(source, item);
      var cur := db.issues;
      db.issues := seq(|cur|, j requires 0 <= j < |cur| => if cur[j].id == id then Refreshed(cur[j], item, pw, now) else cur[j]);
      isNew := false;
    } else {
      var row := NewRow(NextId(db.issues), repoId, source, item, item.priority, now);
      if forall j :: 0 <= j < |db.issues| ==> !SameKey(db.key, db.issues[j], row) {
        db.issues := db.issues + [row];
      }
      isNew := true;
    }
  }

  /** The sync loop over the database, inside one transaction. */
  method SyncBatch(db: Database, repoId: nat, source: Source, items: seq<FetchedIssue>, now: string)
    returns (added: nat, updated: nat)
    modifies db
    ensures (db.issues, added, updated) == SyncAll(old(db.issues), db.key, repoId, source, items, now)
    ensures db.callbacks == old(db.callbacks) && db.repos == old(db.repos) && db.settings == old(db.settings)
  {
    added, updated := 0, 0;
    var i := 0;
    while i < |items|
      invariant 0 <= i <= |items|
      invariant (db.issues, added, updated) == SyncAll(old(db.issues), db.key, repoId, source, items[..i], now)
      invariant db.callbacks == old(db.callbacks) && db.repos == old(db.repos) && db.settings == old(db.settings)
    {
      added, updated := SyncNext(db, old(db.issues), repoId, source, items, i, added, updated, now);
      i := i + 1;
    }
    assert items[..i] == items;
  }

  /** One turn of the sync loop: the row for item i, and the counter it
      belongs to. */
  method SyncNext(db: Database, ghost t0: seq<Issue>, repoId: nat, source: Source, items: seq<FetchedIssue>, i: nat,
                  added: nat, updated: nat, now: string) returns (added': nat, updated': nat)
    requires i < |items|
    requires (db.issues, added, updated) == SyncAll(t0, db.key, repoId, source, items[..i], now)
    modifies db
    ensures (db.issues, added', updated') == SyncAll(t0, db.key, repoId, source, items[..i + 1], now)
    ensures db.callbacks == old(db.callbacks) && db.repos == old(db.repos) && db.settings == old(db.settings)
  {
    ghost var prev := db.issues;
    SyncAllStep(t0, db.key, repoId, source, items, i, now);
    var isNew := SyncRow(db, repoId, source, items[i], now);
    assert (db.issues, isNew) == SyncOne(prev, db.key, repoId, source, items[i], now);
    if isNew {
      added', updated' := added + 1, updated;
    } else {
      added', updated' := added, updated + 1;
    }
  }

  /** The counters after one turn: the new row counts as added, the
      refreshed one as updated. */
  function Tally(sofar: (seq<Issue>, nat, nat), turn: (seq<Issue>, bool)): (seq<Issue>, nat, nat) {
    if turn.1 then (turn.0, sofar.1 + 1, sofar.2) else (turn.0, sofar.1, sofar.2 + 1)
  }

  /** One more item extends the fold over the prefix by one turn. */
  lemma SyncAllStep(t: seq<Issue>, key: UniqueKey, repoId: nat, source: Source, items: seq<FetchedIssue>, i: nat, now: string)
    requires i < |items|
    ensures var sofar := SyncAll(t, key, repoId, source, items[..i], now);
      SyncAll(t, key, repoId, source, items[..i + 1], now) == Tally(sofar, SyncOne(sofar.0, key, repoId, source, items[i], now))
  {
    assert items[..i + 1][..i] == items[..i];
    assert items[..i + 1][i] == items[i];
  }

  /** Every fetched item is counted exactly once, as new or as updated. */
  lemma {:induction false} SyncCountsEveryItem(t: seq<Issue>, key: UniqueKey, repoId: nat, source: Source, items: seq<FetchedIssue>, now: string)
    ensures var (_, a, u) := SyncAll(t, key, repoId, source, items, now); a + u == |items|
    decreases |items|
  {
    if items != [] {
      SyncCountsEveryItem(t, key, repoId, source, items[..|items| - 1], now);
    }
  }

  /** The locally owned columns of a row a sync finds. */
  predicate SameLocalColumns(a: Issue, b: Issue) {
    && a.id == b.id && a.repoId == b.repoId && a.source == b.source && a.sourceId == b.sourceId
    && a.assessment == b.assessment && a.summary == b.summary
    && a.prStatus == b.prStatus && a.prUrl == b.prUrl && a.prBranch == b.prBranch
    && a.analysisModel == b.analysisModel && a.analyzedAt == b.analyzedAt && a.createdAt == b.createdAt
  }

  /** A sync keeps every existing row in place with its locally owned
      columns (assessment, summary, pr_status, pr_url, pr_branch, the
      analysis columns, created_at and the key) and only appends rows; a
      GitHub sync never changes a stored priority. */
  lemma {:induction false} SyncPreservesLocalColumns(t: seq<Issue>, key: UniqueKey, repoId: nat, source: Source, items: seq<FetchedIssue>, now: string)
    ensures var u := SyncAll(t, key, repoId, source, items, now).0;
      && |u| >= |t|
      && (forall j :: 0 <= j < |t| ==> SameLocalColumns(u[j], t[j]))
      && (source == GitHub ==> forall j :: 0 <= j < |t| ==> u[j].priority == t[j].priority)
    decreases |items|
  {
    if items != [] {
      SyncPreservesLocalColumns(t, key, repoId, source, items[..|items| - 1], now);
    }
  }

  /** A Linear re-sync of an existing item overwrites the stored priority
      with the tracker's. */
  lemma LinearResyncWritesPriority(t: seq<Issue>, key: UniqueKey, repoId: nat, item: FetchedIssue, now: string)
    requires IdsUnique(t)
    requires FindByKey(t, Linear, item.sourceId, repoId).Some?
    ensures var k := FindByKey(t, Linear, item.sourceId, repoId).value;
      var (u, a, n) := SyncAll(t, key, repoId, Linear, [item], now);
      a == 0 && n == 1 && |u| == |t| && u[k].priority == item.priority && SameLocalColumns(u[k], t[k])
  {
    assert [item][..0] == [];
    UpdateOnlyTrackerColumns(t, key, repoId, Linear, item, WritePriority(item.priority), item.priority, now);
  }

  /** Every row a sync adds is a pending issue of the synced repository
      with pr_status 'none'. */
  lemma {:induction false} SyncAddsPendingRows(t: seq<Issue>, key: UniqueKey, repoId: nat, source: Source, items: seq<FetchedIssue>, now: string)
    ensures var u := SyncAll(t, key, repoId, source, items, now).0;
      forall j :: |t| <= j < |u| ==> u[j].assessment == Pending && u[j].prStatus == PrNone && u[j].repoId == repoId && u[j].source == source
    decreases |items|
  {
    if items != [] {
      SyncAddsPendingRows(t, key, repoId, source, items[..|items| - 1], now);
      SyncPreservesLocalColumns(t, key, repoId, source, items[..|items| - 1], now);
    }
  }

  /** A sync keeps the table within its constraints. */
  lemma {:induction false} SyncKeepsConstraints(t: seq<Issue>, key: UniqueKey, repoId: nat, source: Source, items: seq<FetchedIssue>, now: string)
    requires IdsUnique(t) && KeysUnique(key, t)
    ensures var u := SyncAll(t, key, repoId, source, items, now).0; IdsUnique(u) && KeysUnique(key, u)
    decreases |items|
  {
    if items != [] {
      var init := items[..|items| - 1];
      SyncKeepsConstraints(t, key, repoId, source, init, now);
      var t' := SyncAll(t, key, repoId, source, init, now).0;
      var item := items[|items| - 1];
      UpsertKeepsConstraints(t', key, repoId, source, item, PriorityOnUpdate(source, item), item.priority, now);
    }
  }

  /** A source id that appears twice in one batch is counted once as new
      and once as updated: the second lookup sees the first insert. */
  lemma DuplicateInBatchCountsNewThenUpdated(t: seq<Issue>, key: UniqueKey, repoId: nat, source: Source, x: FetchedIssue, now: string)
    requires forall j :: 0 <= j < |t| ==> !(t[j].source == source && t[j].sourceId == x.sourceId)
    ensures var (_, a, u) := SyncAll(t, key, repoId, source, [x, x], now); a == 1 && u == 1
  {
    var items := [x, x];
    assert items[..1] == [x];
    assert [x][..0] == [];
    assert FindByKey(t, source, x.sourceId, repoId).None?;
    var row := NewRow(NextId(t), repoId, source, x, x.priority, now);
    assert forall j :: 0 <= j < |t| ==> !SameKey(key, t[j], row);
    var t1 := t + [row];
    assert SyncOne(t, key, repoId, source, x, now) == (t1, true);
    assert SyncAll(t, key, repoId, source, [x], now) == (t1, 1, 0);
    assert t1[|t|].source == source && t1[|t|].sourceId == x.sourceId && t1[|t|].repoId == repoId;
    assert FindByKey(t1, source, x.sourceId, repoId).Some?;
  }

  /** Rows keep their keys and are never removed, so an item once found
      stays found. */
  lemma {:induction false} FoundStaysFound(t: seq<Issue>, key: UniqueKey, repoId: nat, source: Source, items: seq<FetchedIssue>, now: string, sid: string)
    requires FindByKey(t, source, sid, repoId).Some?
    ensures FindByKey(SyncAll(t, key, repoId, source, items, now).0, source, sid, repoId).Some?
    decreases |items|
  {
    if items != [] {
      var init := items[..|items| - 1];
      FoundStaysFound(t, key, repoId, source, init, now, sid);
      var t' := SyncAll(t, key, repoId, source, init, now).0;
      var k := FindByKey(t', source, sid, repoId).value;
      var item := items[|items| - 1];
      var u := SyncOne(t', key, repoId, source, item, now).0;
      assert u[k].source == source && u[k].sourceId == sid && u[k].repoId == repoId;
    }
  }

  /** Under the per-repository key every fetched item ends up stored as a
      row of the synced repository. */
  lemma {:induction false} PerRepoKeyStoresEveryItem(t: seq<Issue>, repoId: nat, source: Source, items: seq<FetchedIssue>, now: string)
    ensures var u := SyncAll(t, SourceSourceIdAndRepo, repoId, source, items, now).0;
      forall i :: 0 <= i < |items| ==> FindByKey(u, source, items[i].sourceId, repoId).Some?
    decreases |items|
  {
    if items != [] {
      var init := items[..|items| - 1];
      var item := items[|items| - 1];
      PerRepoKeyStoresEveryItem(t, repoId, source, init, now);
      var t' := SyncAll(t, SourceSourceIdAndRepo, repoId, source, init, now).0;
      var u := SyncAll(t, SourceSourceIdAndRepo, repoId, source, items, now).0;
      assert u == SyncOne(t', SourceSourceIdAndRepo, repoId, source, item, now).0;
      forall i | 0 <= i < |items|
        ensures FindByKey(u, source, items[i].sourceId, repoId).Some?
      {
        if i < |items| - 1 {
          assert items[i] == init[i];
          FoundStaysFound(t', SourceSourceIdAndRepo, repoId, source, [item], now, items[i].sourceId);
          assert [item][..0] == [];
        } else if FindByKey(t', source, item.sourceId, repoId).None? {
          PerRepoKeyStoresEveryNewItem(t', repoId, source, item, PriorityOnUpdate(source, item), item.priority, now);
          assert u[|t'|].source == source && u[|t'|].sourceId == item.sourceId && u[|t'|].repoId == repoId;
        } else {
          FoundStaysFound(t', SourceSourceIdAndRepo, repoId, source, [item], now, item.sourceId);
          assert [item][..0] == [];
        }
      }
    }
  }

  /** As written, under UNIQUE(source, source_id): GitHub issue #7 of a
      second repository is reported as new but not stored, because
      repository 1 already holds a GitHub issue #7. */
  lemma GlobalKeyLosesSecondRepoIssue(row: Issue, item: FetchedIssue, now: string)
    requires row.repoId == 1 && row.source == GitHub && row.sourceId == "7" && item.sourceId == "7"
    ensures var (u, a, n) := SyncAll([row], SourceAndSourceId, 2, GitHub, [item], now);
      a == 1 && n == 0 && u == [row] && FindByKey(u, GitHub, "7", 2).None?
  {
    assert [item][..0] == [];
    GlobalKeyDropsForeignDuplicate([row], 2, GitHub, item, KeepPriority, item.priority, now, 0);
  }

  // ---------------------------------------------------------------------
  // POST dispatch

  /** The repository a request's repo_id names: `SELECT * FROM repos WHERE
      id = ?`, which no row with a non-negative id matches for a negative
      parameter. */
  function RepoNamed(repos: seq<Repo>, repoId: int): (r: Option<Repo>)
    ensures r.Some? <==> exists k :: 0 <= k < |repos| && repos[k].id as int == repoId
    ensures r.Some? ==> r.value in repos && r.value.id as int == repoId
  {
    if repoId < 0 then None
    else match FindRepo(repos, repoId as nat)
      case None => None
      case Some(k) => Some(repos[k])
  }

  /** The tracker a repository's source column names. */
  function TrackerOf(source: string): (s: Option<Source>)
    ensures s.Some? <==> source == "github" || source == "linear"
    ensures s.Some? ==> SourceName(s.value) == source
  {
    if source == "github" then Some(GitHub) else if source == "linear" then Some(Linear) else None
  }

  /** The environment variable holding a tracker's token. */
  function TokenVariable(s: Source): string {
    match s
    case GitHub => "GITHUB_TOKEN"
    case Linear => "LINEAR_TOKEN"
  }

  /** The 400 message for a tracker whose token is not configured. */
  function TokenMissing(s: Source): string {
    match s
    case GitHub => "GitHub token not configured"
    case Linear => "Linear token not configured"
  }

  /** The prefix an inner catch block puts before the exception's message. */
  function FailurePrefix(s: Source): string {
    match s
    case GitHub => "Failed to fetch issues: "
    case Linear => "Failed to fetch Linear issues: "
  }

  /** The message of the PDOException that SQLite's ROLLBACK raises when no
      transaction is open (the connection uses ERRMODE_EXCEPTION). */
  const NoTransactionRollback := "SQLSTATE[HY000]: General error: 1 cannot rollback - no transaction is active"

  /** How the catch blocks of fetch_issues roll back. As written they send
      ROLLBACK unconditionally (the Linear block tests only `isset($db)`,
      which holds for the connection lib/db.php opens), although the tracker
      call that throws runs before BEGIN. `GuardedRollback` is a rollback
      that is sent only while a transaction is open. */
  datatype Rollback = UnguardedRollback | GuardedRollback

  /** The reply when the tracker client threw `m`: as written the ROLLBACK
      throws in turn, past the inner catch, and the outer catch answers
      'Server error'; with the guarded rollback the inner catch answers with
      the tracker's message. */
  function FetchFailed(rb: Rollback, s: Source, m: string): (r: Reply)
    ensures r.Error? && r.code == 500
    ensures rb == UnguardedRollback ==> r.message == "Server error: " + NoTransactionRollback
    ensures rb == GuardedRollback ==> r.message == FailurePrefix(s) + m
  {
    match rb
    case UnguardedRollback => Error(500, "Server error: " + NoTransactionRollback)
    case GuardedRollback => Error(500, FailurePrefix(s) + m)
  }

  /** The `fetch_issues` action. `repoId` is the request's repo_id (None
      when absent); `fetched` is what the tracker client returned or the
      message it threw. Every error reply leaves the table as it was; a
      fetched list is synced by the loop, whose table and counts are the
      reply's. */
  function FetchIssuesAction(t: seq<Issue>, repos: seq<Repo>, key: UniqueKey, rb: Rollback, repoId: Option<int>,
                             env: map<string, string>, fetched: Result<seq<FetchedIssue>>, now: string): (r: (seq<Issue>, Reply))
    ensures (repoId.None? || repoId.value == 0) ==> r == (t, Error(400, "repo_id required"))
    ensures repoId.Some? && repoId.value != 0 && RepoNamed(repos, repoId.value).None? ==> r == (t, Error(404, "Repository not found"))
    ensures repoId.Some? && repoId.value != 0 && RepoNamed(repos, repoId.value).Some? ==>
              var tracker := TrackerOf(RepoNamed(repos, repoId.value).value.source);
              && (tracker.None? ==> r == (t, Error(400, "Invalid repository source")))
              && (tracker.Some? && !Truthy(EnvValue(env, TokenVariable(tracker.value))) ==>
                    r == (t, Error(400, TokenMissing(tracker.value))))
              && (tracker.Some? && Truthy(EnvValue(env, TokenVariable(tracker.value))) && fetched.Err? ==>
                    r == (t, FetchFailed(rb, tracker.value, fetched.error)))
              && (tracker.Some? && Truthy(EnvValue(env, TokenVariable(tracker.value))) && fetched.Ok? ==>
                    var synced := SyncAll(t, key, repoId.value as nat, tracker.value, fetched.value, now);
                    r == (synced.0, Synced(synced.1, synced.2, |fetched.value|)))
    ensures r.1.Error? || r.1.Crash? ==> r.0 == t
    ensures r.1.Synced? ==> fetched.Ok? && r.1.total == |fetched.value| && r.1.added + r.1.updated == r.1.total
  {
    if repoId.None? || repoId.value == 0 then (t, Error(400, "repo_id required"))
    else match RepoNamed(repos, repoId.value)
      case None => (t, Error(404, "Repository not found"))
      case Some(repo) =>
        match TrackerOf(repo.source)
        case None => (t, Error(400, "Invalid repository source"))
        case Some(tracker) =>
          if !Truthy(EnvValue(env, TokenVariable(tracker))) then (t, Error(400, TokenMissing(tracker)))
          else match fetched
            case Err(m) => (t, FetchFailed(rb, tracker, m))
            case Ok(items) =>
              var (u, a, n) := SyncAll(t, key, repoId.value as nat, tracker, items, now);
              SyncCountsEveryItem(t, key, repoId.value as nat, tracker, items, now);
              (u, Synced(a, n, |items|))
  }

  /** As written: a tracker failure on a configured repository is answered by
      the outer catch with the ROLLBACK's own error, whatever the tracker
      said, so two different failures give the same reply. */
  lemma FetchFailureMasked(t: seq<Issue>, repos: seq<Repo>, key: UniqueKey, repoId: int,
                           env: map<string, string>, m1: string, m2: string, now: string)
    requires repoId != 0 && RepoNamed(repos, repoId).Some?
    requires TrackerOf(RepoNamed(repos, repoId).value.source) == Some(GitHub) && Truthy(EnvValue(env, "GITHUB_TOKEN"))
    ensures FetchIssuesAction(t, repos, key, UnguardedRollback, Some(repoId), env, Err(m1), now)
         == (t, Error(500, "Server error: " + NoTransactionRollback))
    ensures FetchIssuesAction(t, repos, key, UnguardedRollback, Some(repoId), env, Err(m1), now)
         == FetchIssuesAction(t, repos, key, UnguardedRollback, Some(repoId), env, Err(m2), now)
    ensures FetchIssuesAction(t, repos, key, UnguardedRollback, Some(repoId), env, Err(m1), now).1.message
         != "Failed to fetch issues: " + m1
  {
    var masked := "Server error: " + NoTransactionRollback;
    var meant := "Failed to fetch issues: " + m1;
    assert masked[0] == 'S' && meant[0] == 'F';
  }

  /** With the guarded rollback the inner catch answers: the reply carries
      the tracker's message after the tracker's prefix, so different
      failures are told apart, and nothing is written. */
  lemma FetchFailureReported(t: seq<Issue>, repos: seq<Repo>, key: UniqueKey, repoId: int,
                             env: map<string, string>, m: string, now: string)
    requires repoId != 0 && RepoNamed(repos, repoId).Some?
    requires TrackerOf(RepoNamed(repos, repoId).value.source).Some?
    requires Truthy(EnvValue(env, TokenVariable(TrackerOf(RepoNamed(repos, repoId).value.source).value)))
    ensures var tracker := TrackerOf(RepoNamed(repos, repoId).value.source).value;
      FetchIssuesAction(t, repos, key, GuardedRollback, Some(repoId), env, Err(m), now)
        == (t, Error(500, FailurePrefix(tracker) + m))
    ensures forall m' :: m' != m ==>
      FetchIssuesAction(t, repos, key, GuardedRollback, Some(repoId), env, Err(m), now)
        != FetchIssuesAction(t, repos, key, GuardedRollback, Some(repoId), env, Err(m'), now)
  {
    var tracker := TrackerOf(RepoNamed(repos, repoId).value.source).value;
    var p := FailurePrefix(tracker);
    forall m' | m' != m
      ensures p + m != p + m'
    {
      assert (p + m)[|p|..] == m && (p + m')[|p|..] == m';
    }
  }

  /** The endpoint: GET lists, POST dispatches on `action` (absent reads as
      ''), every other method is refused. */
  function Handle(t: seq<Issue>, repos: seq<Repo>, key: UniqueKey, rb: Rollback, verb: string,
                  listRepo: Option<string>, page: Option<int>, perPage: Option<int>,
                  action: string, repoId: Option<int>,
                  env: map<string, string>, fetched: Result<seq<FetchedIssue>>, now: string): (r: (seq<Issue>, Reply))
    ensures verb != "GET" && verb != "POST" ==> r == (t, Error(405, "Method not allowed"))
    ensures verb == "GET" ==> r == (t, ListIssues(t, listRepo, page, perPage))
    ensures verb == "POST" && action == "fetch_issues" ==> r == FetchIssuesAction(t, repos, key, rb, repoId, env, fetched, now)
    ensures verb == "POST" && action !in {"fetch_issues", "check_prs"} ==> r == (t, Error(400, "Invalid action"))
    ensures verb == "POST" && action == "check_prs" ==> r == (t, Message("check_prs not yet implemented"))
    ensures !(verb == "POST" && action == "fetch_issues") ==> r.0 == t
  {
    if verb == "GET" then (t, ListIssues(t, listRepo, page, perPage))
    else if verb == "POST" then
      if action == "fetch_issues" then FetchIssuesAction(t, repos, key, rb, repoId, env, fetched, now)
      else if action == "check_prs" then (t, Message("check_prs not yet implemented"))
      else (t, Error(400, "Invalid action"))
    else (t, Error(405, "Method not allowed"))
  }

  /** fetch_issues over the database: validation, then the sync loop. */
  method FetchIssues(db: Database, rb: Rollback, repoId: Option<int>, env: map<string, string>,
                     fetched: Result<seq<FetchedIssue>>, now: string)
    returns (reply: Reply)
    modifies db
    ensures (db.issues, reply) == FetchIssuesAction(old(db.issues), db.repos, db.key, rb, repoId, env, fetched, now)
    ensures db.callbacks == old(db.callbacks) && db.repos == old(db.repos) && db.settings == old(db.settings)
  {
    if repoId.None? || repoId.value == 0 {
      return Error(400, "repo_id required");
    }
    var repo := RepoNamed(db.repos, repoId.value);
    if repo.None? {
      return Error(404, "Repository not found");
    }
    var tracker := TrackerOf(repo.value.source);
    if tracker.None? {
      return Error(400, "Invalid repository source");
    }
    if !Truthy(EnvValue(env, TokenVariable(tracker.value))) {
      return Error(400, TokenMissing(tracker.value));
    }
    if fetched.Err? {
      return FetchFailed(rb, tracker.value, fetched.error);
    }
    var added, updated := SyncBatch(db, repoId.value as nat, tracker.value, fetched.value, now);
    reply := Synced(added, updated, |fetched.value|);
  }
}
