/** The browser helpers of public/js/common.js: the JSON request wrapper and
    its query builder, relative timestamps, the badge and action tables, the
    event bus and the `{{word}}` template substituter.

    HTML is produced as text, exactly as the helpers build it; the network
    answer and the clock enter as parameters. A JavaScript string is truthy
    when it is not empty. */
module CommonJs {
  import opened Wrappers
  import opened Text
  import Template
  import opened Store

  /** JavaScript truthiness of a string value. */
  predicate JsTruthy(s: string) {
    s != ""
  }

  /** Truthiness of a string value that may be null or undefined. */
  predicate JsTruthyOpt(o: Option<string>) {
    o.Some? && JsTruthy(o.value)
  }

  // ---------------------------------------------------------------------
  // apiRequest and apiGet

  /** The members of a decoded JSON reply that apiRequest reads. */
  datatype Payload = Payload(status: Option<string>, error: Option<string>)

  /** The error thrown for a refused reply: the reply's error text, or a
      generic message. */
  function RefusalMessage(p: Payload): string {
    if JsTruthyOpt(p.error) then p.error.value else "API request failed"
  }

  /** apiRequest: `response` is the decoded reply, or the error that fetch
      or the JSON decoding threw. A reply is accepted exactly when its
      status is 'ok' or 'launched'; every other reply, whatever its HTTP
      status, is refused. */
  function ApiRequest(response: Result<Payload>): (r: Result<Payload>)
    ensures r.Ok? <==> response.Ok? && (response.value.status == Some("ok") || response.value.status == Some("launched"))
    ensures r.Ok? ==> r == response
    ensures response.Err? ==> r == response
    ensures response.Ok? && r.Err? ==> r.error == RefusalMessage(response.value)
    ensures response.Ok? && r.Err? ==> JsTruthy(r.error)
  {
    match response
    case Err(e) => Err(e)
    case Ok(p) =>
      if p.status == Some("ok") || p.status == Some("launched") then Ok(p)
      else Err(RefusalMessage(p))
  }

  /** A parameter value given to apiGet. */
  datatype Param = Undefined | Null | Given(text: string)

  /** The query pairs apiGet appends: every parameter that is neither
      undefined nor null, in order. */
  function QueryPairs(params: seq<(string, Param)>): (r: seq<(string, string)>)
    ensures |r| <= |params|
    decreases |params|
  {
    if params == [] then []
    else
      var rest := QueryPairs(params[1..]);
      if params[0].1.Given? then [(params[0].0, params[0].1.text)] + rest else rest
  }

  /** A pair is sent exactly when a parameter with that name has that given
      value. */
  lemma {:induction false} QueryPairsExact(params: seq<(string, Param)>, key: string, value: string)
    ensures (key, value) in QueryPairs(params) <==> exists i :: 0 <= i < |params| && params[i] == (key, Given(value))
    decreases |params|
  {
    if params != [] {
      QueryPairsExact(params[1..], key, value);
      if (key, value) in QueryPairs(params[1..]) {
        var i :| 0 <= i < |params[1..]| && params[1..][i] == (key, Given(value));
        assert params[i + 1] == (key, Given(value));
      }
      if exists i :: 0 <= i < |params| && params[i] == (key, Given(value)) {
        var i :| 0 <= i < |params| && params[i] == (key, Given(value));
        if i > 0 {
          assert params[1..][i - 1] == (key, Given(value));
        }
      }
    }
  }

  /** Parameters without a value send nothing. */
  lemma {:induction false} QueryPairsSkipAbsent(a: seq<(string, Param)>, key: string, b: seq<(string, Param)>)
    ensures QueryPairs(a + [(key, Undefined)] + b) == QueryPairs(a + b)
    ensures QueryPairs(a + [(key, Null)] + b) == QueryPairs(a + b)
    decreases |a|
  {
    if a == [] {
      assert a + [(key, Undefined)] + b == [(key, Undefined)] + b;
      assert a + [(key, Null)] + b == [(key, Null)] + b;
      assert a + b == b;
      assert ([(key, Undefined)] + b)[1..] == b;
      assert ([(key, Null)] + b)[1..] == b;
    } else {
      QueryPairsSkipAbsent(a[1..], key, b);
      assert (a + [(key, Undefined)] + b)[1..] == a[1..] + [(key, Undefined)] + b;
      assert (a + [(key, Null)] + b)[1..] == a[1..] + [(key, Null)] + b;
      assert (a + b)[1..] == a[1..] + b;
    }
  }

  // ---------------------------------------------------------------------
  // timeAgo

  /** How long ago a timestamp lies, in the units timeAgo uses. */
  datatype Bucket = JustNow | Minutes(n: nat) | Hours(n: nat) | Days(n: nat) | Older

  /** The bucket of an elapsed number of seconds: whole minutes below an
      hour, whole hours below a day, whole days below a week. */
  function BucketOf(seconds: int): (b: Bucket)
    ensures b == JustNow <==> seconds < 60
    ensures b.Minutes? <==> 60 <= seconds < 3600
    ensures b.Hours? <==> 3600 <= seconds < 86400
    ensures b.Days? <==> 86400 <= seconds < 604800
    ensures b == Older <==> seconds >= 604800
    ensures b.Minutes? ==> 1 <= b.n < 60 && b.n * 60 <= seconds < (b.n + 1) * 60
    ensures b.Hours? ==> 1 <= b.n < 24 && b.n * 3600 <= seconds < (b.n + 1) * 3600
    ensures b.Days? ==> 1 <= b.n < 7 && b.n * 86400 <= seconds < (b.n + 1) * 86400
  {
    if seconds < 60 then JustNow
    else if seconds < 3600 then Minutes(seconds / 60)
    else if seconds < 86400 then Hours(seconds / 3600)
    else if seconds < 604800 then Days(seconds / 86400)
    else Older
  }

  /** What timeAgo shows: a phrase, or the locale date of the timestamp. */
  datatype Ago = Phrase(text: string) | LocaleDate

  /** timeAgo. `elapsed` is the whole number of seconds since the timestamp
      (None when the timestamp does not parse, so that every comparison is
      false). */
  function TimeAgo(timestamp: Option<string>, elapsed: Option<int>): (r: Ago)
    ensures !JsTruthyOpt(timestamp) ==> r == Phrase("never")
    ensures JsTruthyOpt(timestamp) && elapsed.None? ==> r == LocaleDate
    ensures JsTruthyOpt(timestamp) && elapsed.Some? ==>
              var s := elapsed.value;
              && (s < 60 ==> r == Phrase("just now"))
              && (60 <= s < 3600 ==> r == Phrase(IntToString(s / 60) + " min ago"))
              && (3600 <= s < 86400 ==> r == Phrase(IntToString(s / 3600) + " hours ago"))
              && (86400 <= s < 604800 ==> r == Phrase(IntToString(s / 86400) + " days ago"))
              && (r == LocaleDate <==> s >= 604800)
  {
    if !JsTruthyOpt(timestamp) then Phrase("never")
    else if elapsed.None? then LocaleDate
    else match BucketOf(elapsed.value)
      case JustNow => Phrase("just now")
      case Minutes(n) => Phrase(IntToString(n) + " min ago")
      case Hours(n) => Phrase(IntToString(n) + " hours ago")
      case Days(n) => Phrase(IntToString(n) + " days ago")
      case Older => LocaleDate
  }

  // ---------------------------------------------------------------------
  // The span markup of the badges

  const SpanOpen := "<span class=\""
  const SpanClose := "</span>"

  /** `<span class="cls">content</span>`, with both parts inserted as they
      are. */
  function Span(cls: string, content: string): string {
    SpanOpen + cls + "\">" + content + SpanClose
  }

  /** What a browser reads from span markup: the class attribute, which
      ends at the first double quote, and the content after the '>' that
      follows it. */
  function ParseSpan(r: string): Option<(string, string)> {
    if |r| < |SpanOpen| + |SpanClose| || !StartsWith(r, SpanOpen) || !EndsWith(r, SpanClose) then None
    else
      var mid := r[|SpanOpen|..|r| - |SpanClose|];
      match IndexOf(mid, '"')
      case None => None
      case Some(q) => if q + 1 < |mid| && mid[q + 1] == '>' then Some((mid[..q], mid[q + 2..])) else None
  }

  /** A span whose class holds no double quote reads back as that class and
      that content, whatever the content holds. */
  lemma SpanReadsBack(cls: string, content: string)
    ensures '"' !in cls ==> ParseSpan(Span(cls, content)) == Some((cls, content))
  {
    if '"' !in cls {
      var r := Span(cls, content);
      assert r[..|SpanOpen|] == SpanOpen;
      assert r[|r| - |SpanClose|..] == SpanClose;
      var mid := r[|SpanOpen|..|r| - |SpanClose|];
      assert mid == cls + ['"'] + (">" + content);
      IndexOfAfter(cls, '"', ">" + content);
      assert mid[..|cls|] == cls && mid[|cls| + 2..] == content;
    }
  }

  // ---------------------------------------------------------------------
  // getStatusBadge, getPriorityBadge, formatPriority

  const StatusClasses: map<string, string> := map[
    "pending" := "badge-secondary",
    "agentic_pr_capable" := "badge-success",
    "too_complex" := "badge-warning",
    "in_progress" := "badge-info pulsing",
    "pr_created" := "badge-success",
    "branch_pushed" := "badge-info",
    "needs_review" := "badge-warning",
    "failed" := "badge-danger"]

  const StatusLabels: map<string, string> := map[
    "pending" := "Pending",
    "agentic_pr_capable" := "PR Capable",
    "too_complex" := "Too Complex",
    "in_progress" := "In Progress...",
    "pr_created" := "PR Created",
    "branch_pushed" := "Branch Pushed",
    "needs_review" := "Needs Review",
    "failed" := "Failed"]

  /** The badge class of a status: its table entry, or the neutral class. */
  function StatusClass(status: string): (c: string)
    ensures status in StatusClasses ==> c == StatusClasses[status]
    ensures status !in StatusClasses ==> c == "badge-secondary"
    ensures '"' !in c
  {
    if status in StatusClasses then StatusClasses[status] else "badge-secondary"
  }

  /** The badge label of a status: its table entry, or the status itself. */
  function StatusLabel(status: string): (l: string)
    ensures status in StatusLabels ==> l == StatusLabels[status]
    ensures status !in StatusLabels ==> l == status
  {
    if status in StatusLabels then StatusLabels[status] else status
  }

  /** Every assessment and every pull-request status the schema allows has
      a label of its own, except 'none', which shows as its raw name. */
  lemma StoredValuesLabelled(a: Assessment, p: PrStatus)
    ensures AssessmentName(a) in StatusLabels && AssessmentName(a) in StatusClasses
    ensures p != PrNone ==> PrStatusName(p) in StatusLabels && PrStatusName(p) in StatusClasses
    ensures StatusLabel(PrStatusName(PrNone)) == "none"
  {
  }

  /** getStatusBadge: a span of class `badge`, the status class and the
      extra class, showing the status label. */
  function StatusBadge(status: string, className: string): (r: string)
    ensures '"' !in className ==> ParseSpan(r) == Some(("badge " + StatusClass(status) + " " + className, StatusLabel(status)))
    ensures status !in StatusClasses && '"' !in className ==> ParseSpan(r) == Some(("badge badge-secondary " + className, status))
  {
    var cls := "badge " + StatusClass(status) + " " + className;
    assert status in StatusClasses <==> status in StatusLabels;
    assert status !in StatusClasses ==> cls == "badge badge-secondary " + className;
    SpanReadsBack(cls, StatusLabel(status));
    Span(cls, StatusLabel(status))
  }

  const PriorityClasses: map<string, string> := map[
    "urgent" := "priority-urgent",
    "high" := "priority-high",
    "medium" := "priority-medium",
    "low" := "priority-low"]

  /** The class of a priority: looked up lower-cased, the medium class when
      absent or unknown. */
  function PriorityClass(priority: Option<string>): (c: string)
    ensures priority.Some? && Lower(priority.value) in PriorityClasses ==> c == PriorityClasses[Lower(priority.value)]
    ensures !(priority.Some? && Lower(priority.value) in PriorityClasses) ==> c == "priority-medium"
    ensures c in PriorityClasses.Values && '"' !in c
  {
    if priority.Some? && Lower(priority.value) in PriorityClasses then PriorityClasses[Lower(priority.value)]
    else
      assert PriorityClasses["medium"] == "priority-medium";
      "priority-medium"
  }

  /** getPriorityBadge: a span of class `priority` and the priority class,
      showing the priority as given, or 'Medium' when it is empty. */
  function PriorityBadge(priority: Option<string>): (r: string)
    ensures !JsTruthyOpt(priority) ==> r == Span("priority priority-medium", "Medium")
    ensures !JsTruthyOpt(priority) ==> ParseSpan(r) == Some(("priority priority-medium", "Medium"))
    ensures JsTruthyOpt(priority) ==> ParseSpan(r) == Some(("priority " + PriorityClass(priority), priority.value))
  {
    var cls := "priority " + PriorityClass(priority);
    if JsTruthyOpt(priority) then
      SpanReadsBack(cls, priority.value);
      Span(cls, priority.value)
    else
      assert priority.Some? ==> Lower(priority.value) == "";
      assert cls == "priority priority-medium";
      SpanReadsBack(cls, "Medium");
      Span(cls, "Medium")
  }

  /** A missing or empty priority shows as a Medium badge; a given one
      shows its own text, case kept, with the class of its lower-cased
      name or the medium class. */
  /** A given priority shows its own text, case kept, with the class of its
      lower-cased name, or the medium class for an unknown one. */
  lemma PriorityBadgeLabel(p: string)
    ensures p != "" ==> ParseSpan(PriorityBadge(Some(p))) == Some(("priority " + PriorityClass(Some(Lower(p))), p))
  {
    PriorityClassIgnoresCase(p);
  }

  /** Lower-casing twice changes nothing more. */
  lemma LowerIdempotent(s: string)
    ensures Lower(Lower(s)) == Lower(s)
  {
    assert forall i :: 0 <= i < |s| ==> LowerChar(LowerChar(s[i])) == LowerChar(s[i]);
  }

  /** The class ignores the case of the priority; the label keeps it. */
  lemma PriorityClassIgnoresCase(p: string)
    ensures PriorityClass(Some(p)) == PriorityClass(Some(Lower(p)))
  {
    LowerIdempotent(p);
  }

  /** formatPriority: a dash for an absent or empty priority. */
  function FormatPriority(priority: Option<string>): (r: string)
    ensures !JsTruthyOpt(priority) ==> r == "—"
    ensures JsTruthyOpt(priority) ==> r == PriorityBadge(priority)
  {
    if JsTruthyOpt(priority) then PriorityBadge(priority) else "—"
  }

  // ---------------------------------------------------------------------
  // createActionContent

  /** The issue fields the action column reads; None for null or undefined. */
  datatype IssueView = IssueView(id: string, prStatus: Option<string>, assessment: Option<string>,
                                 prBranch: Option<string>, prUrl: Option<string>)

  /** What the action column shows. */
  datatype Action =
    | CreateButton(issueId: string, enabled: bool)
    | Dash
    | StatusSpan(colour: string, text: string)
    | StatusLink(url: string, colour: string, text: string)
    | FailedWithRetry(issueId: string)

  /** The pull-request status an issue is shown with: 'none' when empty. */
  function EffectivePrStatus(i: IssueView): string {
    if JsTruthyOpt(i.prStatus) then i.prStatus.value else "none"
  }

  /** The decision table of createActionContent. */
  function ActionOf(i: IssueView): (a: Action)
    ensures a.CreateButton? ==> a.issueId == i.id
    ensures a == CreateButton(i.id, true) <==> EffectivePrStatus(i) == "none" && i.assessment == Some("agentic_pr_capable")
    ensures a == CreateButton(i.id, false) <==>
              EffectivePrStatus(i) == "none" && i.assessment != Some("agentic_pr_capable") && i.assessment != Some("too_complex")
    ensures a.FailedWithRetry? <==> EffectivePrStatus(i) == "failed"
    ensures a.FailedWithRetry? ==> a.issueId == i.id
    ensures a.StatusLink? <==> (EffectivePrStatus(i) == "pr_created" || EffectivePrStatus(i) == "needs_review") && JsTruthyOpt(i.prUrl)
    ensures a.StatusLink? ==> a.url == i.prUrl.value
    ensures a == Dash <==>
              (EffectivePrStatus(i) == "none" && i.assessment == Some("too_complex")) ||
              EffectivePrStatus(i) !in {"none", "in_progress", "branch_pushed", "pr_created", "needs_review", "failed"}
  {
    match EffectivePrStatus(i)
    case "none" =>
      var assessment := if JsTruthyOpt(i.assessment) then i.assessment.value else "pending";
      if assessment == "agentic_pr_capable" then CreateButton(i.id, true)
      else if assessment == "too_complex" then Dash
      else CreateButton(i.id, false)
    case "in_progress" => StatusSpan("blue", "In Progress...")
    case "branch_pushed" => StatusSpan("blue", "Branch Pushed")
    case "pr_created" => if JsTruthyOpt(i.prUrl) then StatusLink(i.prUrl.value, "purple", "PR Created") else StatusSpan("purple", "PR Created")
    case "needs_review" => if JsTruthyOpt(i.prUrl) then StatusLink(i.prUrl.value, "yellow", "Needs Review") else StatusSpan("yellow", "Needs Review")
    case "failed" => FailedWithRetry(i.id)
    case _ => Dash
  }

  /** The Create PR button of an issue, disabled unless it is enabled. */
  function ButtonHtml(id: string, enabled: bool): (r: string)
    ensures StartsWith(r, "<button ") && |r| > 1
    ensures EndsWith(r, " disabled>Create PR</button>") <==> !enabled
  {
    var head := "class=\"btn btn-primary btn-small create-pr\" data-issue-id=\"" + id + "\"";
    var tail := if enabled then ">Create PR</button>" else " disabled>Create PR</button>";
    var r := "<button " + (head + tail);
    assert r[..|"<button "|] == "<button ";
    assert r == ("<button " + head) + tail;
    assert !enabled ==> r[|r| - |tail|..] == tail;
    assert enabled ==> !EndsWith(r, " disabled>Create PR</button>") by {
      if enabled { SuffixMismatch("<button " + head, tail, " disabled>Create PR</button>"); }
    }
    r
  }

  /** The markup of an action: the dash alone is the one-character text;
      a badge reads back as its colour and text; a link points at its url;
      a Create PR button is disabled exactly when the action says so. */
  function ActionHtml(a: Action): (r: string)
    ensures r == "—" <==> a == Dash
    ensures a.StatusSpan? && '"' !in a.colour ==> ParseSpan(r) == Some(("status-badge badge-" + a.colour, a.text))
    ensures a.StatusLink? ==> StartsWith(r, "<a href=\"" + a.url + "\"") && EndsWith(r, "\">" + a.text + "</a>")
    ensures a.FailedWithRetry? ==> StartsWith(r, Span("status-badge badge-red", "Failed"))
    ensures a.CreateButton? ==> StartsWith(r, "<button ") && (EndsWith(r, " disabled>Create PR</button>") <==> !a.enabled)
  {
    match a
    case CreateButton(id, enabled) => ButtonHtml(id, enabled)
    case Dash => "—"
    case StatusSpan(colour, text) =>
      SpanReadsBack("status-badge badge-" + colour, text);
      Span("status-badge badge-" + colour, text)
    case StatusLink(url, colour, text) =>
      var head := "<a href=\"" + url + "\"";
      var tail := "\">" + text + "</a>";
      var r := head + (" target=\"_blank\" class=\"status-badge badge-" + colour) + tail;
      assert r[..|head|] == head && r[|r| - |tail|..] == tail;
      r
    case FailedWithRetry(id) =>
      Span("status-badge badge-red", "Failed") + " <button class=\"btn btn-small retry-pr\" data-issue-id=\"" + id + "\">Retry</button>"
  }

  /** createActionContent: '—' for a too_complex issue without a pull
      request and for an unknown status; a Retry after the failed badge; a
      link to the pull request when its url is set; a Create PR button,
      disabled unless the issue is agentic_pr_capable. */
  function ActionContent(i: IssueView): (r: string)
    ensures r == "—" <==>
              (EffectivePrStatus(i) == "none" && i.assessment == Some("too_complex")) ||
              EffectivePrStatus(i) !in {"none", "in_progress", "branch_pushed", "pr_created", "needs_review", "failed"}
    ensures EffectivePrStatus(i) == "failed" ==> StartsWith(r, Span("status-badge badge-red", "Failed"))
    ensures (EffectivePrStatus(i) == "pr_created" || EffectivePrStatus(i) == "needs_review") && JsTruthyOpt(i.prUrl) ==>
              StartsWith(r, "<a href=\"" + i.prUrl.value + "\"")
    ensures EffectivePrStatus(i) == "none" && i.assessment != Some("too_complex") ==>
              StartsWith(r, "<button ") && (EndsWith(r, " disabled>Create PR</button>") <==> i.assessment != Some("agentic_pr_capable"))
  {
    ActionHtml(ActionOf(i))
  }

  /** Both arms of the branch_pushed case render the same badge, so the
      pr_branch field never shows. */
  lemma BranchNeverShown(i: IssueView, branch: Option<string>)
    ensures ActionContent(i.(prBranch := branch)) == ActionContent(i)
  {
    assert ActionOf(i.(prBranch := branch)) == ActionOf(i);
  }

  // ---------------------------------------------------------------------
  // EventBus

  /** A listener, compared by identity as `!==` compares functions. */
  type Listener = nat

  /** The listeners of a list other than `cb`, in order (the filter of
      `off`). */
  function Without(ls: seq<Listener>, cb: Listener): (r: seq<Listener>)
    ensures |r| <= |ls|
    ensures forall x :: x in r <==> x in ls && x != cb
    decreases |ls|
  {
    if ls == [] then []
    else (if ls[0] == cb then [] else [ls[0]]) + Without(ls[1..], cb)
  }

  /** Filtering distributes over concatenation. */
  lemma {:induction false} WithoutAppend(a: seq<Listener>, b: seq<Listener>, cb: Listener)
    ensures Without(a + b, cb) == Without(a, cb) + Without(b, cb)
    decreases |a|
  {
    if a != [] {
      assert (a + b)[0] == a[0];
      assert (a + b)[1..] == a[1..] + b;
      WithoutAppend(a[1..], b, cb);
    } else {
      assert a + b == b;
    }
  }

  /** Removing a listener twice removes nothing more. */
  lemma {:induction false} WithoutIdempotent(ls: seq<Listener>, cb: Listener)
    ensures Without(Without(ls, cb), cb) == Without(ls, cb)
    decreases |ls|
  {
    if ls != [] {
      WithoutIdempotent(ls[1..], cb);
      var w := Without(ls[1..], cb);
      if ls[0] != cb {
        assert ([ls[0]] + w)[0] == ls[0];
        assert ([ls[0]] + w)[1..] == w;
      } else {
        assert Without(ls, cb) == w;
      }
    }
  }

  /** Registering a listener and then removing it leaves the other
      listeners in their order. */
  lemma OnThenOff(ls: seq<Listener>, cb: Listener)
    ensures Without(ls + [cb], cb) == Without(ls, cb)
  {
    WithoutAppend(ls, [cb], cb);
    assert Without([cb], cb) == [];
  }

  /** The event bus: a list of listeners per event name. */
  class EventBus {
    var events: map<string, seq<Listener>>

    constructor ()
      ensures events == map[]
    {
      events := map[];
    }

    /** The listeners `emit` calls for an event. */
    function Listeners(event: string): seq<Listener>
      reads this
    {
      if event in events then events[event] else []
    }

    /** on: appends a listener, creating the event's list when missing. */
    method On(event: string, cb: Listener)
      modifies this
      ensures events == old(events)[event := old(Listeners(event)) + [cb]]
      ensures Listeners(event) == old(Listeners(event)) + [cb]
    {
      if event !in events {
        events := events[event := []];
      }
      events := events[event := events[event] + [cb]];
    }

    /** off: removes every registration of a listener; an unknown event is
      left alone. */
    method Off(event: string, cb: Listener)
      modifies this
      ensures event in old(events) ==> events == old(events)[event := Without(old(events[event]), cb)]
      ensures event !in old(events) ==> events == old(events)
      ensures cb !in Listeners(event)
    {
      if event in events {
        events := events[event := Without(events[event], cb)];
      }
    }

    /** emit: calls the event's listeners in registration order; the calls
      made are returned. */
    method Emit(event: string) returns (called: seq<Listener>)
      ensures called == Listeners(event)
    {
      called := [];
      if event in events {
        var ls := events[event];
        for i := 0 to |ls|
          invariant called == ls[..i]
        {
          called := called + [ls[i]];
        }
      }
    }
  }

  // ---------------------------------------------------------------------
  // renderTemplate

  /** The length of the run of word characters at the front of `s`. */
  function WordRun(s: string): (n: nat)
    ensures n <= |s| && (forall i :: 0 <= i < n ==> IsWordChar(s[i]))
    ensures n == |s| || !IsWordChar(s[n])
    decreases |s|
  {
    if s != [] && IsWordChar(s[0]) then 1 + WordRun(s[1..]) else 0
  }

  /** The key of a match of `\{\{(\w+)\}\}` at the front of `s`. */
  function TagAt(s: string): (key: Option<string>)
    ensures key.Some? ==> |key.value| > 0 && StartsWith(s, Template.Placeholder(key.value))
    ensures key.Some? ==> forall i :: 0 <= i < |key.value| ==> IsWordChar(key.value[i])
  {
    if |s| >= 2 && s[0] == '{' && s[1] == '{' then
      var n := WordRun(s[2..]);
      if n > 0 && n + 4 <= |s| && s[n + 2] == '}' && s[n + 3] == '}' then
        var key := s[2..n + 2];
        assert s[..n + 4] == Template.Placeholder(key);
        Some(key)
      else None
    else None
  }

  /** renderTemplate: one left-to-right pass in which each `{{word}}`
      whose word is a key of `data` becomes its value; other matches stay
      as they are, and substituted text is not scanned again. Text without
      '{' comes back as it is. */
  function RenderTemplate(s: string, data: map<string, string>): (r: string)
    ensures '{' !in s ==> r == s
    decreases |s|
  {
    if s == [] then []
    else match TagAt(s)
      case Some(key) =>
        var n := |key| + 4;
        assert s[..n] == Template.Placeholder(key) && s[..n] + s[n..] == s;
        (if key in data then data[key] else s[..n]) + RenderTemplate(s[n..], data)
      case None =>
        assert [s[0]] + s[1..] == s;
        [s[0]] + RenderTemplate(s[1..], data)
  }

  /** Without data every template comes back unchanged. */
  lemma {:induction false} RenderWithoutData(s: string)
    ensures RenderTemplate(s, map[]) == s
    decreases |s|
  {
    if s != [] {
      match TagAt(s)
      case Some(key) =>
        RenderWithoutData(s[|key| + 4..]);
        assert s[..|key| + 4] + s[|key| + 4..] == s;
      case None =>
        RenderWithoutData(s[1..]);
        assert [s[0]] + s[1..] == s;
    }
  }

  /** Text without '{' is copied through. */
  lemma {:induction false} RenderSkipsLiteral(a: string, b: string, data: map<string, string>)
    requires '{' !in a
    ensures RenderTemplate(a + b, data) == a + RenderTemplate(b, data)
    decreases |a|
  {
    if a != [] {
      var s := a + b;
      assert s[0] == a[0] && a[0] in a;
      assert TagAt(s).None?;
      assert RenderTemplate(s, data) == [s[0]] + RenderTemplate(s[1..], data);
      assert s[1..] == a[1..] + b;
      assert '{' !in a[1..];
      RenderSkipsLiteral(a[1..], b, data);
      assert [a[0]] + a[1..] == a;
    } else {
      assert a + b == b;
    }
  }

  /** A placeholder of a word key becomes the key's value when the data has
      it and stays verbatim otherwise; the value is inserted as it is, so a
      placeholder inside a value is not filled. */
  lemma {:induction false} PlaceholderRendered(a: string, key: string, b: string, data: map<string, string>)
    requires '{' !in a && |key| > 0 && forall i :: 0 <= i < |key| ==> IsWordChar(key[i])
    ensures RenderTemplate(a + Template.Placeholder(key) + b, data)
            == a + (if key in data then data[key] else Template.Placeholder(key)) + RenderTemplate(b, data)
  {
    PlaceholderAtFront(key, b, data);
    RenderAfterLiteral(a, Template.Placeholder(key), b, if key in data then data[key] else Template.Placeholder(key), data);
  }

  /** What text at the front renders to is kept when '{'-free text is put
      before it. */
  lemma {:induction false} RenderAfterLiteral(a: string, p: string, b: string, v: string, data: map<string, string>)
    requires '{' !in a && RenderTemplate(p + b, data) == v + RenderTemplate(b, data)
    ensures RenderTemplate(a + p + b, data) == a + v + RenderTemplate(b, data)
  {
    assert a + p + b == a + (p + b);
    RenderSkipsLiteral(a, p + b, data);
    assert a + (v + RenderTemplate(b, data)) == a + v + RenderTemplate(b, data);
  }

  /** A placeholder at the front is rendered and the pass goes on after it. */
  lemma {:induction false} PlaceholderAtFront(key: string, b: string, data: map<string, string>)
    requires |key| > 0 && forall i :: 0 <= i < |key| ==> IsWordChar(key[i])
    ensures RenderTemplate(Template.Placeholder(key) + b, data)
            == (if key in data then data[key] else Template.Placeholder(key)) + RenderTemplate(b, data)
  {
    var p := Template.Placeholder(key);
    var s := p + b;
    TagAtPlaceholder(key, b);
    assert |p| == |key| + 4;
    assert s[|key| + 4..] == b;
    assert s[..|key| + 4] == p;
  }

  /** A placeholder at the front is a match of its key. */
  lemma TagAtPlaceholder(key: string, b: string)
    requires |key| > 0 && forall i :: 0 <= i < |key| ==> IsWordChar(key[i])
    ensures TagAt(Template.Placeholder(key) + b) == Some(key)
  {
    var s := Template.Placeholder(key) + b;
    assert s[2..] == key + ("}}" + b);
    WordRunOf(key, "}}" + b);
    assert s[2..|key| + 2] == key;
    assert s[|key| + 2] == '}' && s[|key| + 3] == '}';
  }

  /** The word run of a word followed by a non-word character is the
      word. */
  lemma {:induction false} WordRunOf(w: string, rest: string)
    requires forall i :: 0 <= i < |w| ==> IsWordChar(w[i])
    requires rest == [] || !IsWordChar(rest[0])
    ensures WordRun(w + rest) == |w|
    decreases |w|
  {
    if w == [] {
      assert w + rest == rest;
    } else {
      assert (w + rest)[1..] == w[1..] + rest;
      WordRunOf(w[1..], rest);
    }
  }
}
