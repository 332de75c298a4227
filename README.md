# Scout core, modelled in Dafny

Scout is a small PHP and JavaScript web application. It does four things:

- It imports issues from GitHub repositories and Linear teams into a SQLite database.
- It asks an AI model whether each issue is simple enough for an agent to turn into a pull request.
- It tracks the pull-request status that the agent's process reports back through a callback URL.
- It shows all of this in a browser, using a few pure display helpers.

This project models the logic of that core: the endpoints, the tracker clients and the browser helpers that make decisions. It proves what they promise. Each source file has its own Dafny modules:

- `Store` (lib/db.php): tables as datatypes; `class Database` holds the issues, callbacks, repos and settings tables.
- `CallbackGateway` (api/callback.php): the guard chain as a function; `HandleCallback`, a method over `Database`.
- `IssuesApi` (api/issues.php): listing arithmetic; the sync loop as a `while` method over `Database`.
- `Utils`, `Slug`, `Template` (lib/utils.php): `upsert_issue` as a method over `Database`; `check_and_update_prs` and `process_template` as methods with loops; the rest as functions.
- `GitHub` (lib/github.php): header and Link parsing; the paging do/while loops as methods.
- `Linear` (lib/linear.php): the error decision; the cursor loop as a method.
- `Analyze` (api/analyze.php): the batch `for` loop and the single analysis as methods over `Database`.
- `CommonJs` (public/js/common.js): pure helpers; `class EventBus` over a map of listener lists.
- `UtilsJs` (public/js/utils.js): `relativeTime` as a loop method; badges and labels as functions.
- `Router`, `ApiEntry` (router.php, public/api.php): path normalisation and routing functions.

`Wrappers` (Option and Result) and `Text` (the PHP and JavaScript string primitives: truthiness, `str_replace`, `trim`, `explode`/`implode`, `strpos`, `intval`/`strval`) are shared helpers.

What the model takes as parameters instead of doing itself:

- **HTTP:** the answer of every HTTP request, as a status code and header text plus the decoded body. A paging loop gets the results of its successive requests as a sequence. A request past the end of that sequence gets an empty last page.
- **AI:** the AI analyzer, as a total function from an issue and a model name to an analysis or the message it throws. The chat provider's reply, as text or a thrown message.
- **Environment:** the environment variables, as a map. The settings table, as a map.
- **File system:** the set of files `file_exists` accepts, and the set of directories `is_dir` accepts.
- **Clock:** the current time, as a timestamp string or an elapsed number of seconds.

Two parameters choose between the source as written and its evident intent (see Findings). `Store.UniqueKey` is the unique key of the issues table. `IssuesApi.Rollback` says whether the catch blocks of fetch_issues send ROLLBACK unconditionally (`UnguardedRollback`, as written) or only inside a transaction (`GuardedRollback`).

Every `db_query` failure is swallowed and returns false (lib/db.php:125-132). The model therefore lets an INSERT that breaks the table's unique key leave the table as it is, while the caller goes on counting it.

## Model

| member | source | states |
|---|---|---|
| Store.ParseAssessment | lib/db.php:81 | a text passes the assessment CHECK exactly when it is one of the three stored names, and then names that assessment |
| Store.FindRepo | api/issues.php:77-86 | the index of a repo row with that id; no row has it when None |
| Store.FindIssue | api/callback.php:47-54 | the index of the first row with that id; no row has it when None |
| Store.NextId | lib/db.php:70 | the id SQLite gives an inserted row is positive and larger than every id in the table |
| Store.GetSetting | lib/db.php:198-216 | a stored truthy value is returned; otherwise the answer is falsy |
| Store.SetPr | api/callback.php:98-115 | the UPDATE keeps the table length; only the row with that id changes, and only in pr_status, pr_url (when given) and updated_at |
| CallbackGateway.RemoveWorktree | api/callback.php:12-20 | a git command runs only when both paths are non-empty and the worktree is a directory, and then it removes that worktree of that repository |
| CallbackGateway.Lookup | api/callback.php:47-54 | the first callback row with the id that joins an issue and a repo, with the repo's auto_create_pr |
| CallbackGateway.MapReportedStatus | api/callback.php:81-95 | complete gives pr_created or needs_review under auto_create_pr (by pr_url) and branch_pushed otherwise; failed gives failed; needs_review gives needs_review; anything else gives none |
| CallbackGateway.FinishCallbacks | api/callback.php:117-124 | the rows with the callback id get the reported status and a completion time; no other row changes |
| CallbackGateway.Deliver | api/callback.php:29-131 | the repos table never changes and the issues and callbacks tables keep their length; anything but a processed delivery changes nothing; a rejection is a 400 or a 404 with no cleanup; a processed one has an id, sets a final pr_status and leaves the other callback rows alone |
| CallbackGateway.Handle | api/callback.php:22-147 | a method other than GET gets 405 and changes nothing; the repos table never changes; only a processed delivery writes; a rejection runs no cleanup |
| CallbackGateway.HandleCallback | api/callback.php:22-147 | the new tables, the reply and the cleanup command are those of `Handle` on the old tables |
| CallbackGateway.MissingParameterRejected | api/callback.php:34-44 | a request without a truthy id or status gets 400 and changes nothing |
| CallbackGateway.UnknownCallbackWritesNothing | api/callback.php:56-60 | an unknown callback id gets 404 and changes nothing |
| CallbackGateway.CancelledRunIgnored | api/callback.php:63-71 | for a cancelled run the tables are unchanged, the reply says ignored, and only worktree cleanup is attempted |
| CallbackGateway.FinishedRunIgnored | api/callback.php:72-79 | for a run that is neither pending nor cancelled nothing changes at all |
| CallbackGateway.PendingPathWrites | api/callback.php:81-131 | on the pending path only the one issue changes, in pr_status, pr_url (overwritten only when supplied) and updated_at; the callback row gets exactly the reported status |
| CallbackGateway.ErrorTextIgnored | api/callback.php:128-131 | the error parameter never changes the outcome |
| CallbackGateway.NoCleanupWithoutPaths | api/callback.php:126 | the callbacks table of lib/db.php has no path columns, so no git command ever runs |
| CallbackGateway.FindIssueSameKeys | api/callback.php:47-54 | a lookup by id sees only the ids of the table |
| CallbackGateway.JoinRowSameKeys | api/callback.php:48-51 | the join depends only on the ids and repo ids of the issues |
| CallbackGateway.LookupSameKeys | api/callback.php:47-54 | the lookup depends on the tables only through their keys |
| CallbackGateway.DuplicateDeliveryIsNoOp | api/callback.php:62-79 | after a delivery whose reported status is not 'pending', a second delivery with the same id changes no table |
| CallbackGateway.CancelThenCallback | api/callback.php:63-71 | a delivery after cancellation leaves every table as it was |
| IssuesApi.CeilDiv | api/issues.php:56 | `ceil(a / b)`: the least c with a <= c*b (for b > 0) |
| IssuesApi.RepoRows | api/issues.php:30-43 | exactly the rows whose repo_id equals the parameter read as an integer |
| IssuesApi.Window | api/issues.php:37-43 | LIMIT/OFFSET: at most `limit` rows, all taken from the input |
| IssuesApi.ListIssues | api/issues.php:14-58 | 400 without a truthy repo_id; a crash for per_page 0; otherwise the page is the LIMIT per_page OFFSET (page-1)*per_page window of the repository's rows, with their total and ceil(total/per_page) pages |
| IssuesApi.ListedPage | api/issues.php:17-56 | with a positive per_page, every page is a listing whose rows are its window and whose total_pages is ceil(rows/per_page) |
| IssuesApi.ListingCoversRepository | api/issues.php:27-56 | reading the endpoint's pages 1 to total_pages in order yields exactly the repository's rows, and page total_pages+1 is empty |
| IssuesApi.PagesPrefix | api/issues.php:27-41 | pages 1 to n, read in order, are the first n*per_page rows |
| IssuesApi.PagesCoverRows | api/issues.php:27-56 | pages 1 to total_pages hold every row once, and the page after them is empty |
| IssuesApi.SyncRow | api/issues.php:112-164 | one turn on the database leaves the table and the new-or-updated answer as `SyncOne` does: the matched row is refreshed, otherwise a row is inserted unless the unique key already holds one |
| IssuesApi.SyncOne | api/issues.php:112-167 | an item is counted new exactly when the per-repo lookup finds no row; an update keeps the length; a new item appends its pending row, or leaves the table when the unique key already holds one |
| IssuesApi.SyncAll | api/issues.php:105-265 | the table keeps its rows and grows by at most the number of items counted new |
| IssuesApi.SyncBatch | api/issues.php:105-265 | the new table and the new and updated counts are those of `SyncAll` over the items |
| IssuesApi.SyncNext | api/issues.php:112-167 | one turn of the loop extends the `SyncAll` fold by one item and counts it as new or updated |
| IssuesApi.SyncCountsEveryItem | api/issues.php:112-275 | new + updated == the number of fetched items |
| IssuesApi.SyncPreservesLocalColumns | api/issues.php:123-241 | existing rows keep their place, key, assessment, summary, pr_status, pr_url, pr_branch and analysis columns; a GitHub sync keeps every priority |
| IssuesApi.LinearResyncWritesPriority | api/issues.php:219-241 | a Linear re-sync of a known item is counted as updated and overwrites that row's priority |
| IssuesApi.SyncAddsPendingRows | api/issues.php:144-264 | every added row belongs to the synced repository and source, with assessment pending and pr_status none |
| IssuesApi.SyncKeepsConstraints | lib/db.php:70-89 | a sync keeps ids distinct and the unique key satisfied |
| IssuesApi.DuplicateInBatchCountsNewThenUpdated | api/issues.php:112-118 | an unknown source id that appears twice in one batch is counted once as new and once as updated |
| IssuesApi.FoundStaysFound | api/issues.php:114-118 | an item that the per-repo lookup finds is still found after a sync |
| IssuesApi.PerRepoKeyStoresEveryItem | api/issues.php:112-167 | with the key the lookup assumes, (source, source_id, repo_id), every fetched item ends up stored for the synced repository |
| IssuesApi.GlobalKeyLosesSecondRepoIssue | lib/db.php:89 | as written: GitHub issue #7 of repository 2 is counted as new but not stored, because repository 1 holds a GitHub #7 |
| IssuesApi.RepoNamed | api/issues.php:77-80 | the repository row with the requested id, if any row has it |
| IssuesApi.TrackerOf | api/issues.php:89-288 | 'github' and 'linear' name a tracker; any other source does not |
| IssuesApi.FetchFailed | api/issues.php:179-183 | the reply to a tracker failure: as written the outer 'Server error' with the ROLLBACK's own message; with a guarded rollback the tracker's prefix and message |
| IssuesApi.FetchIssuesAction | api/issues.php:67-289 | 400 without repo_id; 404 for an unknown repository; 400 'Invalid repository source'; 400 when the tracker's token is unset; a tracker failure gives `FetchFailed`; otherwise the new table and the counts are those of `SyncAll` over the fetched items; error replies change nothing |
| IssuesApi.FetchFailureMasked | api/issues.php:179-183 | as written: any GitHub failure on a configured repository gets the same 'Server error' reply, never 'Failed to fetch issues: ' and the message |
| IssuesApi.FetchFailureReported | api/issues.php:179-183 | with a guarded rollback the reply carries the tracker's prefix and message, distinct failures give distinct replies, and the table is unchanged |
| IssuesApi.Handle | api/issues.php:13-313 | 405 for methods other than GET and POST; GET is the listing; POST fetch_issues is `FetchIssuesAction`; check_prs answers its stub message; 400 'Invalid action' for other actions; only fetch_issues writes |
| IssuesApi.FetchIssues | api/issues.php:67-289 | the new table and the reply are those of `FetchIssuesAction` |
| Utils.GetAssessmentModel | lib/utils.php:10-17 | a truthy override wins, then a non-empty setting, then 'gpt-5.2'; the result is never empty |
| Utils.MapModel | lib/utils.php:140-175 | a listed name maps to its table entry; any other name is returned unchanged |
| Utils.ClaudeModel | lib/utils.php:140-148 | 'claude-sonnet-4-5' gets its dated name, other listed names and unlisted names are kept, and the result maps to itself |
| Utils.OpenAiModel | lib/utils.php:153-162 | a listed name maps to gpt-5.2 or gpt-4o-mini, an unlisted one is kept, and the result maps to itself |
| Utils.AnthropicModel | lib/utils.php:166-176 | a listed name maps to one of the two dated Claude 3.5 names, which are not listed; an unlisted one is kept; the result maps to itself |
| Utils.MapModelIdempotent | lib/utils.php:147-174 | mapping twice through a table whose entries map to themselves equals mapping once |
| Utils.ModelTablesSettled | lib/utils.php:142-173 | all three model tables have that property |
| Utils.FindByKey | lib/utils.php:80-84 | the first row matching (source, source_id, repo_id); no row matches when None |
| Utils.UpsertStep | lib/utils.php:78-135 | it reports new exactly when no row matched; an update keeps the length; an insert appends the pending row or, on a key clash, leaves the table |
| Utils.UpsertIssueStep | lib/utils.php:78-135 | new exactly when no row matches the key; an update keeps the length; a new item appends its row with the priority defaulted to 'medium', or leaves the table when the unique key already holds one |
| Utils.UpdateOnlyTrackerColumns | lib/utils.php:89-111 | an update changes only the matched row, and in it only title, description, labels, source_url, status, the priority write and updated_at |
| Utils.InsertAppendsPending | lib/utils.php:112-134 | an insert that passes the key appends one row with assessment pending and pr_status none |
| Utils.PerRepoKeyStoresEveryNewItem | lib/utils.php:112-134 | under the per-repo key an insert never clashes |
| Utils.GlobalKeyDropsForeignDuplicate | lib/utils.php:112-134 | under UNIQUE(source, source_id), an item another repository already holds is reported new and not stored |
| Utils.UpsertKeepsConstraints | lib/db.php:70-89 | an upsert keeps ids distinct and the key satisfied |
| Utils.UpsertIssueDefaultsPriority | lib/utils.php:107-128 | a missing priority is stored as 'medium' on both paths; an update keeps assessment and pr_status |
| Utils.UpsertIssue | lib/utils.php:78-135 | the new table and the result are those of `UpsertIssueStep` |
| Utils.FirstPull | lib/utils.php:278-293 | the first pull request whose head ref equals the branch; none matches when None |
| Utils.PullStatus | lib/utils.php:282 | a draft gives needs_review, otherwise pr_created |
| Utils.DetectOne | lib/utils.php:278-293 | counts 1 exactly when some pull request's head ref is the branch, else 0 with the table unchanged; only the rows with the issue's id change, to the first match's status and html_url ('' when missing) |
| Utils.DetectAll | lib/utils.php:267-295 | keeps the table length and counts at most one per issue |
| Utils.CountDetected | lib/utils.php:274-295 | the number of issues some pull request matches, at most the number of issues |
| Utils.DetectAllCount | lib/utils.php:267-295 | the count returned is the number of issues with a matching pull request, at most the number of issues; rows keep their ids |
| Utils.DetectAllUntouched | lib/utils.php:285-290 | a row that no matched issue names is unchanged |
| Utils.DetectAllStatus | lib/utils.php:278-293 | with distinct ids, an issue with a match gets the url and status of the first matching pull request |
| Utils.CheckAndUpdatePrs | lib/utils.php:260-302 | the new table and count are those of `CheckPrs`; an empty repository or issue list gives 0 and no writes |
| Utils.CheckPrs | lib/utils.php:260-302 | a falsy repository, no issues or a failing pull listing gives the table unchanged and 0; otherwise the count is `CountDetected`; the length is kept |
| Utils.FirstPullIs | lib/utils.php:278-293 | the match the inner loop stops at is the first match |
| Utils.ProviderFor | lib/utils.php:205 | OpenAI exactly for models whose name starts with 'gpt' |
| Utils.CallAiWithRetry | lib/utils.php:203-235 | at most two requests, to the model's provider; a missing key throws before any request; a second request, with the retry prompt, only after a first reply that does not parse; a second parse failure throws |
| Utils.FirstParseIsFinal | lib/utils.php:221-234 | a first reply that parses is the result, whatever the retry prompt |
| Utils.GetAvailableModels | lib/utils.php:240-254 | with OPENAI_KEY set the list starts with gpt-5.2 and gpt-4o-mini (openai), and the entries are openai exactly at those two places; with ANTHROPIC_KEY set it ends with claude-sonnet-4-5 and claude-opus-4-6 (anthropic); nothing else is listed |
| Utils.OfferedModelsAreCallable | lib/utils.php:205-254 | every offered model is sent to the provider whose key made it offered, so the call does not fail for a missing key |
| Slug.DropRun | lib/utils.php:63 | removes a leading run of characters outside [a-z0-9] |
| Slug.CollapseRuns | lib/utils.php:63 | the result holds only [a-z0-9-] and never two adjacent hyphens |
| Slug.Slugify | lib/utils.php:59-72 | the output holds only [a-z0-9-], has no leading or trailing '-' and no "--", and is at most 50 long |
| Slug.Shorten | lib/utils.php:66-70 | over 50 characters the text is cut to 50 and loses trailing hyphens, otherwise kept; the result is a prefix of at most 50 characters and a slug when the input is a trimmed slug text |
| Slug.SliceSlug | lib/utils.php:67-69 | any slice, the 50-character cut included, keeps the character class and the no-double-hyphen property |
| Slug.TrimmedSlugText | lib/utils.php:65 | trimming hyphens keeps the character class and the no-double-hyphen property |
| Slug.CollapseNoRuns | lib/utils.php:63 | text over [a-z0-9] and single hyphens is left as it is |
| Slug.LowerSlug | lib/utils.php:61 | lower-casing leaves a slug unchanged |
| Slug.SlugFixpoint | lib/utils.php:59-72 | a slug is a fixed point of slugify |
| Slug.SlugifyIdempotent | lib/utils.php:59-72 | slugify(slugify(x)) == slugify(x) |
| Template.ProcessTemplate | lib/utils.php:22-54 | the placeholder loop, then the section loop, in data order |
| Template.Placeholders | lib/utils.php:22-28 | data whose values are all booleans or arrays, which the loop skips, leaves the template unchanged |
| Template.Sections | lib/utils.php:36-48 | a section pass never lengthens the text |
| Template.Conditionals | lib/utils.php:33-50 | the section loop never lengthens the text, and data without flags leaves it unchanged |
| Template.SectionsAbsent | lib/utils.php:36-48 | without the opening tag a section pass changes nothing |
| Template.SectionsSkipLiteral | lib/utils.php:36-48 | text without '{' passes through a section pass unchanged |
| Template.FindAfterLiteral | lib/utils.php:36 | the lazy match ends at the first closing tag |
| Template.SectionsFront | lib/utils.php:38-48 | a section at the front becomes its inner text when kept and nothing otherwise |
| Template.SectionExpands | lib/utils.php:38-48 | a section with '{'-free surroundings becomes its inner text or disappears |
| Template.SectionsSkipBraces | lib/utils.php:36-48 | braces that do not start the opening tag are copied through |
| Template.NoBraceNoOpen | lib/utils.php:36 | text without '{' holds no opening tag |
| Template.PlaceholdersUnchanged | lib/utils.php:22-28 | the first loop leaves a template alone when it holds no placeholder of a data key |
| Template.ConditionalsUnchanged | lib/utils.php:33-50 | the second loop leaves a template alone when it opens no section of a data key |
| Template.UnmentionedUnchanged | lib/utils.php:22-51 | a template that mentions no data key comes back verbatim |
| Template.UnknownPlaceholderStays | lib/utils.php:22-51 | within any data with word keys, a placeholder whose key is not in the data survives both loops |
| Template.UnknownBesideFilled | lib/utils.php:22-51 | `a{{key}}m{{other}}b` becomes `avm{{other}}b` within any data that holds key but not other |
| Template.PlaceholderFilled | lib/utils.php:24-28 | for one-entry data with any key: `{{key}}` of a scalar value becomes the value's text |
| Template.ReplaceSingle | lib/utils.php:26 | `str_replace` of `{{key}}` in `a{{key}}b` with '{'-free surroundings gives `avb` |
| Template.PlaceholderFilledInData | lib/utils.php:22-51 | within any data with word keys, `{{key}}` of a scalar value becomes the value's text and nothing else changes |
| Template.ShownSectionFollowsFlag | lib/utils.php:33-42 | for one-entry data with a boolean: `{{#k}}X{{/k}}` becomes X for true and disappears for false |
| Template.ShownSectionFollowsValue | lib/utils.php:33-42 | within any data with word keys, `{{#k}}X{{/k}}` becomes X when k's value is truthy and disappears otherwise, for booleans and for the four flag names with any value |
| Template.ShownPassSkipsHidden | lib/utils.php:36-40 | the `#` pass leaves a `^` section of the same key alone |
| Template.HiddenSectionFollowsFlag | lib/utils.php:43-49 | for one-entry data with a boolean: `{{^k}}X{{/k}}` becomes X for false and disappears for true |
| Template.HiddenSectionFollowsValue | lib/utils.php:43-49 | within any data with word keys, `{{^k}}X{{/k}}` becomes X when k's value is falsy and disappears otherwise |
| GitHub.HeaderLine | lib/github.php:45-49 | a line without ':' is ignored; otherwise it is split at the first ':' and both halves are trimmed |
| GitHub.AssignKeys | lib/github.php:48 | the keys of the built map are exactly the recorded keys |
| GitHub.AssignLastWins | lib/github.php:48 | a repeated key keeps its last value |
| GitHub.HeaderEntries | lib/github.php:45 | one entry per header line |
| GitHub.HeaderMapLastWins | lib/github.php:48 | a repeated header keeps its last value |
| GitHub.HeaderMapKeys | lib/github.php:45-49 | a name is a key exactly when some line with ':' trims to it |
| GitHub.ParseHeaders | lib/github.php:45-49 | every recorded header comes from some line with ':' whose trimmed halves are that name and that value |
| GitHub.SkipSpaces | lib/github.php:85 | `\s*`: skips PCRE whitespace |
| GitHub.LinkAt | lib/github.php:85 | a match of `<url>;\s*rel="x"` at the front has a non-empty url without '>' and a non-empty rel without '"' |
| GitHub.SearchLeftmost | lib/github.php:85 | the search finds the leftmost match |
| GitHub.LeadingDigits | lib/github.php:90 | `\d+`: the longest run of leading digits |
| GitHub.IntVal | lib/github.php:93 | `intval` of a digit string: its value, saturated at PHP_INT_MAX |
| GitHub.PageAt | lib/github.php:90-93 | a page number is read exactly at a `[?&]page=` followed by a digit |
| GitHub.PageParamLeftmost | lib/github.php:90 | the page parameter is the leftmost one |
| GitHub.SearchSkip | lib/github.php:90 | a search skips a prefix without matches |
| GitHub.AllDigitsLeading | lib/github.php:90 | a digit string is its own leading run |
| GitHub.PerPageThenPage | lib/github.php:90 | in `?per_page=100&page=3` the page is 3: per_page never counts |
| GitHub.LinkEntries | lib/github.php:84-97 | one entry per comma-separated segment; none for a segment without a link and a page |
| GitHub.LinkHeaderLastWins | lib/github.php:91 | a repeated rel keeps its last link |
| GitHub.LinkHeaderKeys | lib/github.php:84-97 | a rel is recorded exactly when some segment matches both patterns with it |
| GitHub.ParseLinkHeader | lib/github.php:80-97 | every recorded rel comes from some comma-separated segment that that yields that rel with that url and page |
| GitHub.GitHubRequest | lib/github.php:40-75 | a status of 400 or more throws with the status and the message (default 'Unknown error'); otherwise the body, with the parsed Link header when present |
| GitHub.EmptyAnswerIsLastPage | lib/github.php:70-72 | an answer without headers has no pagination |
| GitHub.MapIssue | lib/github.php:164-173 | source_id reads back as the number; status open; priority null; body defaults to ''; labels in order |
| GitHub.MapItems | lib/github.php:152-176 | one record per item, in order; no items when the key is missing |
| GitHub.FetchIssuesPage | lib/github.php:195-231 | errors propagate; has_next exactly when the Link header has a next rel; the page is echoed |
| GitHub.Collect | lib/github.php:143-184 | the do/while loop always makes at least one request |
| GitHub.CollectCap | lib/github.php:175-184 | the cap is checked only between pages: a successful result stays below 500 plus one page |
| GitHub.CapCheckedBetweenPages | lib/github.php:175-184 | a first page of fewer than 500 items with a next link, then a last page: both are returned whole, whatever their total |
| GitHub.CollectEveryPage | lib/github.php:143-184 | pages that all succeed, each but the last with a next link, under 500 items in all: each page is requested once and every item is returned in page order |
| GitHub.CollectFails | lib/github.php:146 | an exception of a request ends the loop with that exception |
| GitHub.CollectStops | lib/github.php:184 | a page without next link or reaching 500 ends the loop |
| GitHub.CollectContinues | lib/github.php:178-184 | otherwise the loop goes on with the page's items appended |
| GitHub.IssuesOutcome | lib/github.php:146-181 | the mapped items and the next-link flag of one request |
| GitHub.IssuesOutcomes | lib/github.php:143-184 | the outcomes of the recorded requests |
| GitHub.IssuesOutcomeAt | lib/github.php:146-181 | a request past the recorded ones is an empty last page |
| GitHub.FetchIssues | lib/github.php:138-190 | the result and the number of requests are those of `Collect`; pages are requested from the start page on, one by one |
| GitHub.ReposOf | lib/github.php:116-124 | at most one repository per entry |
| GitHub.ReposOfExact | lib/github.php:116-124 | a repository is listed exactly when some entry is an array with a full_name, and both fields are that name |
| GitHub.ReposOutcome | lib/github.php:111-127 | the listed repositories and the next-link flag of one request |
| GitHub.ReposOutcomes | lib/github.php:110-130 | the outcomes of the recorded requests |
| GitHub.ReposOutcomeAt | lib/github.php:111-127 | a request past the recorded ones is an empty last page |
| GitHub.ListRepos | lib/github.php:105-133 | the result and the number of requests are those of `Collect`; pages 1, 2, ... are requested |
| GitHub.GetPulls | lib/github.php:236-242 | the open pull requests, or the request's error for a status of 400 or more |
| GitHub.ValidateToken | lib/github.php:247-254 | valid exactly when the request succeeds and the answer has a login |
| Linear.ErrorMessages | lib/linear.php:50-52 | one message per error, 'Unknown error' for a missing message |
| Linear.LinearRequest | lib/linear.php:36-63 | status 400 or more throws with the first error's message or 'HTTP code'; GraphQL errors throw only without data; otherwise the data, or an empty value |
| Linear.PartialDataIsReturned | lib/linear.php:48-63 | below 400, data present is returned even when errors accompany it |
| Linear.TeamLabel | lib/linear.php:87 | "Name (KEY)" |
| Linear.ListTeams | lib/linear.php:69-93 | one team per node, in order, with its id as source_id and its label as name; errors propagate |
| Linear.StatusOf | lib/linear.php:163-171 | closed exactly for the completed and canceled state types, open otherwise |
| Linear.MapNode | lib/linear.php:154-182 | source_id is the identifier; priority is the priority label; a null description becomes ''; labels in order |
| Linear.MapNodes | lib/linear.php:246-269 | one record per node, in order |
| Linear.ClampFirst | lib/linear.php:238 | the page size is clamped to [1, 100] |
| Linear.PageVariables | lib/linear.php:236-240 | the variables carry the team, the clamped page size and the cursor |
| Linear.FetchIssuesPage | lib/linear.php:201-276 | a missing team.issues gives no issues, has_next false and no end cursor; otherwise the mapped nodes and the page info |
| Linear.Append | lib/linear.php:154-187 | the page's nodes are appended in order until 500 issues are held |
| Linear.Crawl | lib/linear.php:138-193 | the first request sends the starting cursor |
| Linear.CrawlCap | lib/linear.php:135-193 | at most 500 issues are returned, and the ones held before are kept as a prefix |
| Linear.CrawlFollowsCursors | lib/linear.php:190-193 | each further request follows a page with hasNextPage true and sends that page's end cursor |
| Linear.CrawlSinglePage | lib/linear.php:138-193 | a first page without a next page returns its own nodes, mapped in order |
| Linear.CrawlStopsWithoutIssues | lib/linear.php:147-149 | a reply without team.issues ends the loop with what it had |
| Linear.FetchIssues | lib/linear.php:98-196 | the result and the cursors sent are those of `Crawl`; every request asks for min(limit, 100) issues of the team |
| Linear.AppendPage | lib/linear.php:154-187 | the inner loop with its `break 2` computes `Append` |
| Linear.Cursors | lib/linear.php:139-143 | the cursors of the sent variables |
| Linear.ValidateToken | lib/linear.php:281-289 | valid exactly when the request succeeds and the data names a viewer id; false for a status of 400 or more |
| Analyze.PendingOf | api/analyze.php:94-98 | exactly the pending rows of the repository, in table order |
| Analyze.Selected | api/analyze.php:40-46 | the first five pending rows, or all of them when fewer |
| Analyze.Storable | api/analyze.php:58-72 | the UPDATE succeeds exactly for an analysis whose assessment passes the CHECK constraint |
| Analyze.SetAnalysis | api/analyze.php:58-72 | only the row with the id changes, in summary, assessment, analysis_model, analyzed_at and updated_at |
| Analyze.Step | api/analyze.php:52-91 | a throwing analysis appends exactly one error; a storable one adds exactly one to analyzed and one result, after the old results; a non-storable one leaves the table; only the row with the issue's id can change, and the table length is kept |
| Analyze.RunBatch | api/analyze.php:52-91 | the loop keeps the table length and every row's id |
| Analyze.BatchAccounts | api/analyze.php:52-91 | analyzed counts the stored analyses and errors the thrown ones; analyzed + errors <= selected |
| Analyze.NoErrorsIffNoneThrown | api/analyze.php:84-111 | the errors list is empty exactly when no analysis of the batch throws |
| Analyze.BatchUntouched | api/analyze.php:58-72 | a row is unchanged unless a stored analysis names its id |
| Analyze.BatchStores | api/analyze.php:58-83 | with distinct ids, each stored analysis ends up in its row, and a later failing row does not undo it |
| Analyze.AnalyzeBatchAction | api/analyze.php:21-114 | 400 without repo_id; errors appear only when non-empty; remaining is the pending count after the batch |
| Analyze.BatchReply | api/analyze.php:26-91 | at most five rows, all pending, are analysed, with the model of the precedence request, setting, 'gpt-5.2' |
| Analyze.AnalyzeRow | api/analyze.php:53-90 | one turn on the database leaves it and the counters as `Step` does: a throwing analysis adds one error and writes nothing, a storable one updates the row and adds one result |
| Analyze.AnalyzeBatch | api/analyze.php:21-114 | the new table and the reply are those of `AnalyzeBatchAction` |
| Analyze.Cleared | api/analyze.php:58-72 | the number of rows whose stored assessment is no longer pending, at most the batch size |
| Analyze.PendingCountOneRow | api/analyze.php:94-98 | changing one row changes the pending count by that row alone |
| Analyze.PendingIdsUnique | api/analyze.php:41-46 | the pending rows of a table with distinct ids have distinct ids |
| Analyze.StepPendingCount | api/analyze.php:52-91 | one turn on a pending row lowers the pending count exactly when it clears that row |
| Analyze.RemainingAfterRun | api/analyze.php:52-99 | remaining + cleared == pending before, over a run of distinct pending rows |
| Analyze.BatchRemaining | api/analyze.php:93-107 | remaining equals the pending count before the batch minus the rows the batch cleared |
| Analyze.AnalyzeSingleAction | api/analyze.php:116-183 | 400 without issue_id, 404 for an unknown issue, 500 'Analysis failed: ...' on failure; otherwise the updated row |
| Analyze.FindIssueAfterSet | api/analyze.php:160-168 | the row re-read after the update is the updated row |
| Analyze.AnalyzeSingle | api/analyze.php:116-183 | the new table and the reply are those of `AnalyzeSingleAction` |
| Analyze.Handle | api/analyze.php:13-200 | 405 for methods other than POST, 400 'Invalid action' for unknown actions; errors change nothing |
| CommonJs.ApiRequest | public/js/common.js:6-20 | resolves exactly for status ok or launched; otherwise throws data.error or 'API request failed' |
| CommonJs.QueryPairs | public/js/common.js:25-33 | at most one pair per parameter |
| CommonJs.QueryPairsExact | public/js/common.js:27-31 | a pair is sent exactly when a parameter with that name has that value given |
| CommonJs.QueryPairsSkipAbsent | public/js/common.js:27-31 | undefined and null parameters send nothing |
| CommonJs.BucketOf | public/js/common.js:74-85 | under 60 s just now; then whole minutes, hours, days; from a week on older, with each count the floor of its unit |
| CommonJs.TimeAgo | public/js/common.js:74-85 | a falsy timestamp is 'never'; under a minute 'just now'; then whole minutes, hours and days 'ago' by bucket; from a week on, and only then, the locale date |
| CommonJs.StatusClass | public/js/common.js:113-137 | the table class of a status, 'badge-secondary' for an unknown one |
| CommonJs.StatusLabel | public/js/common.js:125-137 | the table label of a status, the raw status for an unknown one |
| CommonJs.StoredValuesLabelled | public/js/common.js:113-137 | every stored assessment and pr_status but 'none' has a label and a class; 'none' shows as itself |
| CommonJs.StatusBadge | public/js/common.js:113-140 | the markup reads back as one span whose class is 'badge', the status's table class and the extra class, and whose text is the status's label; an unknown status reads back as badge-secondary with the raw status |
| CommonJs.PriorityClass | public/js/common.js:145-154 | the class the table gives the lower-cased priority; 'priority-medium' for a missing priority or one that is not a table key; always a table class without '"' |
| CommonJs.LowerIdempotent | public/js/common.js:153 | lower-casing twice equals lower-casing once |
| CommonJs.PriorityClassIgnoresCase | public/js/common.js:153 | the class ignores the priority's case |
| CommonJs.PriorityBadge | public/js/common.js:145-157 | a falsy priority is the 'priority priority-medium' span reading 'Medium'; a truthy one reads back with the class of `PriorityClass` and the priority itself, in its own case, as text |
| CommonJs.PriorityBadgeLabel | public/js/common.js:153-154 | a non-empty priority shows as typed, while its class is that of the lower-cased priority |
| CommonJs.FormatPriority | public/js/common.js:361-363 | '—' for a falsy priority, otherwise the priority badge |
| CommonJs.ActionOf | public/js/common.js:326-358 | the decision table: for none, an enabled Create PR with agentic_pr_capable, '—' with too_complex and a disabled one otherwise; failed gives Retry; a link only for pr_created or needs_review with a url; an unknown status gives '—'; public/js/utils.js:143-175 is the same table |
| CommonJs.ActionHtml | public/js/common.js:326-358 | '—' exactly for the dash; a status span reads back with its class and text; a link starts with its href and ends with its text; Retry starts with the red Failed span; the Create PR button has ' disabled' exactly when it is not enabled |
| CommonJs.ActionContent | public/js/common.js:326-358 | '—' exactly for too_complex without a PR or an unknown pr_status; failed starts with the Failed span; pr_created or needs_review with a url starts with the link; none and not too_complex gives the button, disabled exactly when the issue is not agentic_pr_capable |
| CommonJs.BranchNeverShown | public/js/common.js:336-339 | the pr_branch field never changes what is shown |
| CommonJs.Without | public/js/common.js:252-256 | removes every registration of that listener and keeps the others |
| CommonJs.WithoutAppend | public/js/common.js:254 | filtering distributes over concatenation |
| CommonJs.WithoutIdempotent | public/js/common.js:254 | removing twice equals removing once |
| CommonJs.OnThenOff | public/js/common.js:245-256 | on then off of the same listener leaves the other listeners |
| CommonJs.EventBus.constructor | public/js/common.js:241-243 | no event has listeners |
| CommonJs.EventBus.On | public/js/common.js:245-250 | appends the listener to that event only, creating the list when missing |
| CommonJs.EventBus.Off | public/js/common.js:252-256 | removes every registration of the listener from that event; an unknown event is unchanged |
| CommonJs.EventBus.Emit | public/js/common.js:258-262 | calls the event's listeners in registration order |
| CommonJs.WordRun | public/js/common.js:283 | `\w+`: the leading word characters |
| CommonJs.TagAt | public/js/common.js:283 | a `{{word}}` match at the front, with its word |
| CommonJs.RenderTemplate | public/js/common.js:282-287 | a template without '{' comes back unchanged |
| CommonJs.RenderWithoutData | public/js/common.js:282-287 | without data a template comes back unchanged |
| CommonJs.RenderSkipsLiteral | public/js/common.js:282-287 | text without '{' is copied through |
| CommonJs.PlaceholderAtFront | public/js/common.js:282-287 | a `{{key}}` at the front is replaced by the key's value, or kept when the key is absent, and the pass resumes right after it |
| CommonJs.PlaceholderRendered | public/js/common.js:282-287 | `{{key}}` becomes the value for an own key and stays verbatim otherwise; the inserted value is not scanned again; public/js/utils.js:14-18 is the same function |
| CommonJs.TagAtPlaceholder | public/js/common.js:283 | a placeholder at the front matches with its key |
| CommonJs.WordRunOf | public/js/common.js:283 | the match is greedy over word characters |
| UtilsJs.FirstInterval | public/js/utils.js:87-105 | the first unit, largest first, of which a whole length has elapsed |
| UtilsJs.RelativeTime | public/js/utils.js:86-109 | the phrase of the first unit that fits, 'just now' otherwise |
| UtilsJs.RelativeText | public/js/utils.js:86-109 | 'just now' exactly for an unknown age or one under 60 s; every other phrase ends in ' ago' |
| UtilsJs.RelativeUnitIsLargest | public/js/utils.js:86-109 | nothing fits under 60 s, negative ages included; otherwise the count is the floor of the largest unit that fits |
| UtilsJs.TwelveMonths | public/js/utils.js:89-91 | months are 30 days, so 360 to 364 days show as 12 months |
| UtilsJs.CreateBadgeInjective | public/js/utils.js:124-126 | two equal badges of the same kind carry the same text; when neither kind holds a '"', equal badges have the same kind and the same text |
| UtilsJs.AssessmentBadgeParts | public/js/utils.js:129-140 | pending is Pending/gray, too_complex Too Complex/red, agentic_pr_capable PR Capable/green, anything else Unknown/gray |
| UtilsJs.CreateAssessmentBadge | public/js/utils.js:129-140 | the badge reads back as gray Pending, red Too Complex or green PR Capable for the three stored names, and as gray Unknown for anything else, a missing value included |
| UtilsJs.FormatLabels | public/js/utils.js:178-183 | '' exactly for a missing, non-array or empty list |
| UtilsJs.JoinNonEmpty | public/js/utils.js:182 | joining non-empty badges gives non-empty text |
| UtilsJs.JoinSnoc | public/js/utils.js:182 | one more part adds the separator and the part |
| UtilsJs.FormatLabelsSnoc | public/js/utils.js:178-183 | one more label adds one more badge after a space |
| UtilsJs.FormatPriority | public/js/utils.js:186-198 | '—' for a falsy priority; the table colour for a listed name and gray otherwise, looked up case-sensitively |
| UtilsJs.StoredDefaultPriorityShownGray | public/js/utils.js:189-197 | the stored default 'medium' shows gray, where 'Medium' shows yellow |
| Router.UriPath | router.php:9 | the path is the prefix of the URI before the first '?' or '#' |
| Router.UriPathOf | router.php:9 | a query or fragment is not part of the path |
| Router.ApiFile | router.php:18-22 | the script always starts with api/ and ends with .php, and .php is never doubled |
| Router.Route | router.php:12-36 | a path not starting with '/api/' is left to the server; otherwise the script runs when it exists and otherwise 404 |
| Router.RemoveLeading | router.php:14 | a leading '/api/' is removed |
| Router.TrimTrailingSlash | router.php:15 | a trailing slash is trimmed |
| Router.Endpoint | router.php:14-15 | the name has no leading or trailing '/'; a path without '/api/' is only trimmed |
| Router.EndpointOfName | router.php:14-15 | '/api/name', with or without a trailing slash, names the endpoint name |
| Router.PlainPathRoutes | router.php:12-32 | a plain API path runs its script when it exists and is 404 otherwise |
| Router.ApiFileOfName | router.php:18-22 | a name and the name with .php give the same script |
| Router.DottedPlain | router.php:18 | adding .php keeps a name plain |
| Router.NamedEndpointRoutes | router.php:12-32 | '/api/name' runs api/name.php when that file exists and is 404 otherwise, and '/api/name.php' routes alike |
| Router.DottedRoutesSame | router.php:18-22 | a name with '.php' added maps to the same script as the bare name, so both requests route alike |
| Router.InnerApiSegmentsRemoved | router.php:14 | every '/api/' is removed, not only the leading one: '/api/a/api/b' names 'ab' |
| ApiEntry.Dispatch | public/api.php:7-32 | a script runs exactly when the endpoint name is a table key, and then the table's script |
| ApiEntry.RouteKeys | public/api.php:17-23 | each of the five keys is a plain name whose script is api/key.php |
| ApiEntry.KeyPlain | public/api.php:17-23 | each key is a plain lower-case name of at most eight characters |
| ApiEntry.Endpoint | public/api.php:12-14 | the name has no leading or trailing '/'; a path holding neither '/api/' nor '/api' is only trimmed |
| ApiEntry.EndpointOfPlain | public/api.php:12-14 | '/api/name' names the endpoint name |
| ApiEntry.TableEndpointsRun | public/api.php:7-32 | '/api/key' with any query runs the key's script |
| ApiEntry.PhpSuffixNotRouted | public/api.php:26-32 | '/api/key.php' is 404 here while the development router runs the script |
| ApiEntry.RoutersAgree | public/api.php:17-23 | both routers send '/api/key' to the same existing script |

## Left out

- Run launching, worktree creation and cancellation: api/launch.php is a stub, so there is no logic to model. The cancel path of api/callback.php is modelled only through a 'cancelled' status already in the table.
- The shell `git worktree remove` call is modelled as the command it would run (`CallbackGateway.RemoveWorktree`). The shell and git themselves are not modelled.
- curl: options, headers sent, endpoint URL strings and the JSON encoding of request bodies. Only the answer is modelled.
- The GitHub rate-limit warning and every `error_log` call only write to the log.
- JSON decoding: answers are modelled as decoded values. A non-array or malformed body is not modelled beyond "key missing".
- The chat functions of lib/ai.php are oracles. `ai_analyze_issue` there is a placeholder that always answers 'pending', which would leave every analysed row pending. The model does not fix its answer and takes the analyzer as a parameter.
- PDO and SQLite plumbing: connection setup, WAL mode and concurrent requests. BEGIN and COMMIT are not modelled: the model reports only committed outcomes. The one ROLLBACK that matters, in the catch blocks of fetch_issues, is modelled by its effect on the reply (`IssuesApi.FetchFailed`).
- `get_env_value`, `get_db`, `is_encrypted` and `needs_encryption` are called (api/issues.php:94, 109, 190, 205; lib/utils.php:207-208, 243, 248; lib/db.php:174, 211) but defined in no file of this model, so as written each call would be a fatal error that no `catch (Exception)` receives. The model assumes what the names say: `get_env_value` returns the variable's value or '' (`Utils.EnvValue`), and `get_db` returns the connection lib/db.php opens. `is_encrypted` and `needs_encryption` belong to the settings encryption, which is left out below.
- Database failures other than a unique-key clash on INSERT and the assessment CHECK on the analysis UPDATE are not modelled. Other failures are swallowed and return false in the source too.
- The `LIMIT 5` of analyze_batch has no ORDER BY. The model takes table order.
- `ORDER BY created_at DESC` of the GET listing is not modelled: the listing is taken in table order. PagesCoverRows holds for any fixed order.
- Analyze.Handle: the outer 'Server error' catch of api/analyze.php is not modelled. No modelled operation of api/analyze.php throws past its inner catches. In api/issues.php the outer catch is reached by the unguarded ROLLBACK (see Findings) and is part of `IssuesApi.FetchFailed`.
- IssuesApi.ListIssues: `intval` of non-numeric page parameters is taken as already applied, as an optional integer.
- The JSON reply bodies are modelled as datatypes, not as JSON text.
- IssuesApi.RepoRows: a bound repo_id is compared as an integer when `intval`-style parsing accepts it. SQLite's own affinity rules for text such as '1.0' or ' 3' are not modelled.
- IssuesApi.Handle: the action is compared as a string. PHP's loose `switch` comparison of a non-string action (a number or `true` from the JSON body) is not modelled.
- Every row a sync writes in one batch gets the same `now`. The source's `CURRENT_TIMESTAMP` may advance during the loop.
- lib/crypto.php (the encryption of settings), api/settings.php and `save_setting` are not part of this model.
- Store.GetSetting: omits the `is_encrypted`/`decrypt_value` step of lib/db.php:211-213 and returns the stored text as it is. `is_encrypted` is defined in no file of this model, so the decision it makes cannot be stated.
- `format_labels` of lib/utils.php (an implode for the PHP side) is not part of this model.
- UI and DOM code, toasts, `storage`, `debounce`, `escapeHtml`, `formatDate`, `loadTemplate` and `_tmpl` (which fetch templates), and `apiPost`/`settingsApi` (`fetch` wrappers) are not modelled.
- The `formatLabels` of public/js/common.js (escaped label spans) is not modelled. public/index.php loads public/js/utils.js, whose `formatLabels` `UtilsJs.FormatLabels` models.
- `createBadge`, and `createAssessmentBadge` (which is `getStatusBadge`), of public/js/common.js are not modelled separately: they are the markup of `UtilsJs.CreateBadge` and `CommonJs.StatusBadge`.
- The `toLocaleDateString` tail of timeAgo is a `LocaleDate` value. Its text depends on the locale.
- JavaScript semantics left out: object key order (integer-like keys first), prototype properties of the data object in renderTemplate (the model uses own keys as a map), prototype properties in the table lookups `priorityClasses[...]`, `statusClasses[...]` and `statusLabels[...]` of public/js/common.js (a status or priority such as 'constructor' finds `Object.prototype.constructor` there and shows its text, while the model treats every name outside the table as absent and gives the default), Unicode case mapping in `toLowerCase` (the model lower-cases ASCII), and `Date` parsing. Elapsed time is a parameter in whole seconds, and the floor of a positive division is Dafny's `/`.
- CommonJs.EventBus.Emit: a listener that calls `on` or `off` on the same bus while being called (re-entrancy) is not modelled; emit returns the called listeners in order.
- Router.Route: the full `parse_url` grammar (scheme, host, malformed URIs) is not modelled. A request URI is taken as a path followed by an optional query or fragment. '..' segments are not resolved: an endpoint with '..' names a path outside api/ just as the source's string concatenation does.
- The GitHub search API and Linear limits (1000 results, rate limits) are outside the model.

## Findings

| source | as written | input that shows it | evidently intended | confidence | as-written member | corrected member |
|---|---|---|---|---|---|---|
| api/issues.php:181 | the catch block of the GitHub sync runs ROLLBACK although the tracker call that throws runs before BEGIN (api/issues.php:103, 110); SQLite refuses and PDO throws, so the outer catch answers 'Server error' instead of 'Failed to fetch issues: ' and the tracker's message. The Linear block (279-281) tests only `isset($db)`, which holds for the connection of lib/db.php | a GitHub repository with GITHUB_TOKEN set, and the tracker answering 401 | the tracker's message reported after 'Failed to fetch issues: ', with a rollback only when a transaction is open | medium, not executed | IssuesApi.FetchFailureMasked | IssuesApi.FetchFailureReported |
| lib/db.php:89 | the issues table is unique on (source, source_id), while the sync lookups of api/issues.php:114-118 and lib/utils.php:80-84 match (source, source_id, repo_id); the failing INSERT is swallowed and still counted as new | repository 1 holds GitHub issue #7, then repository 2 syncs a GitHub issue #7 | each repository's issues stored separately, under UNIQUE(source, source_id, repo_id) | high, not executed | IssuesApi.GlobalKeyLosesSecondRepoIssue | IssuesApi.PerRepoKeyStoresEveryItem |
