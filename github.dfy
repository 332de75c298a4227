/** The GitHub client of lib/github.php: response-header parsing and the
    error decision of `github_request`, the Link-header parser, the mapping
    of search results to issue records, and the paging loops of
    `github_fetch_issues` and `github_list_repos`.

    The HTTP transfer is an oracle: `github_request` is modelled from the
    point where curl has answered, with the status code, the raw header
    block, the decoded body and the `message` field of the decoded body as
    a value. A paging loop receives the results of its successive
    `github_request` calls as a sequence; a call past the end of that
    sequence gets what an empty 200 answer gives, a page without a next
    link. */
module GitHub {
  import opened Wrappers
  import opened Text
  import opened Store

  /** One HTTP exchange of `github_request`. */
  datatype Exchange<B> = Exchange(code: int, headerText: string, body: B, message: Option<string>)

  // ---------------------------------------------------------------------
  // Response headers

  /** A header line cut at position i, both halves trimmed. */
  function SplitAt(line: string, i: nat): (string, string)
    requires i < |line|
  {
    (Trim(line[..i], PhpWhitespace), Trim(line[i + 1..], PhpWhitespace))
  }

  /** One header line: lines without ':' are ignored, others are split at
      the first ':' and both halves trimmed. */
  function HeaderLine(line: string): (r: Option<(string, string)>)
    ensures r.None? <==> ':' !in line
  {
    match IndexOf(line, ':')
    case None => None
    case Some(i) => Some(SplitAt(line, i))
  }

  /** Entries written in order into an empty map, as a PHP loop assigning
      `$map[$key] = $value` does: a later entry overwrites an earlier one
      with the same key, and None entries write nothing. */
  function Assign<K(==), V>(es: seq<Option<(K, V)>>): map<K, V>
    decreases |es|
  {
    if es == [] then map[]
    else
      var m := Assign(es[..|es| - 1]);
      var e := es[|es| - 1];
      if e.Some? then m[e.value.0 := e.value.1] else m
  }

  /** A key is present exactly when some entry writes it. */
  lemma {:induction false} AssignKeys<K, V>(es: seq<Option<(K, V)>>, k: K)
    ensures k in Assign(es) <==> exists i :: 0 <= i < |es| && es[i].Some? && es[i].value.0 == k
    decreases |es|
  {
    if es != [] {
      var init := es[..|es| - 1];
      AssignKeys(init, k);
      assert forall i :: 0 <= i < |init| ==> init[i] == es[i];
    }
  }

  /** Every recorded pair was written by some entry. */
  lemma {:induction false} AssignSound<K, V>(es: seq<Option<(K, V)>>, k: K)
    requires k in Assign(es)
    ensures exists i :: 0 <= i < |es| && es[i] == Some((k, Assign(es)[k]))
    decreases |es|
  {
    var init := es[..|es| - 1];
    var e := es[|es| - 1];
    if !(e.Some? && e.value.0 == k) {
      AssignSound(init, k);
      var i :| 0 <= i < |init| && init[i] == Some((k, Assign(init)[k]));
      assert es[i] == init[i];
    }
  }

  /** The value of a key is the one of the last entry that writes it. */
  lemma {:induction false} AssignLastWins<K, V>(es: seq<Option<(K, V)>>, i: nat, k: K, v: V)
    requires i < |es| && es[i] == Some((k, v))
    requires forall j :: i < j < |es| ==> es[j].None? || es[j].value.0 != k
    ensures k in Assign(es) && Assign(es)[k] == v
    decreases |es|
  {
    if i < |es| - 1 {
      AssignLastWins(es[..|es| - 1], i, k, v);
    }
  }

  /** The parsed lines of a header block. */
  function HeaderEntries(lines: seq<string>): (es: seq<Option<(string, string)>>)
    ensures |es| == |lines| && forall i :: 0 <= i < |lines| ==> es[i] == HeaderLine(lines[i])
  {
    seq(|lines|, i requires 0 <= i < |lines| => HeaderLine(lines[i]))
  }

  /** The header map built line by line. */
  function HeaderMap(lines: seq<string>): map<string, string> {
    Assign(HeaderEntries(lines))
  }

  /** Some line of the block holds ':' and reads as this name and value. */
  predicate FromLine(lines: seq<string>, k: string, v: string) {
    exists i :: 0 <= i < |lines| && HeaderLine(lines[i]) == Some((k, v))
  }

  /** Every header read comes from a line holding ':' whose trimmed halves
      are its name and value. */
  lemma HeaderMapSound(lines: seq<string>, k: string)
    requires k in HeaderMap(lines)
    ensures FromLine(lines, k, HeaderMap(lines)[k])
  {
    var es := HeaderEntries(lines);
    AssignSound(es, k);
    var i :| 0 <= i < |es| && es[i] == Some((k, Assign(es)[k]));
    assert HeaderLine(lines[i]) == es[i];
  }

  /** The header block split on CRLF: every header read comes from one of
      its lines. */
  function ParseHeaders(text: string): (r: map<string, string>)
    ensures forall k :: k in r ==> FromLine(Split(text, "\r\n"), k, r[k])
  {
    var lines := Split(text, "\r\n");
    forall k | k in HeaderMap(lines)
      ensures FromLine(lines, k, HeaderMap(lines)[k])
    {
      HeaderMapSound(lines, k);
    }
    HeaderMap(lines)
  }

  /** A header key is present exactly when some line carries it, and its
      value is the one on the last such line. */
  lemma HeaderMapLastWins(lines: seq<string>, i: nat, k: string, v: string)
    requires i < |lines| && HeaderLine(lines[i]) == Some((k, v))
    requires forall j :: i < j < |lines| ==> HeaderLine(lines[j]).None? || HeaderLine(lines[j]).value.0 != k
    ensures k in HeaderMap(lines) && HeaderMap(lines)[k] == v
  {
    AssignLastWins(HeaderEntries(lines), i, k, v);
  }

  /** Lines without ':' contribute nothing. */
  lemma HeaderMapKeys(lines: seq<string>, k: string)
    ensures k in HeaderMap(lines) <==>
            exists i :: 0 <= i < |lines| && ':' in lines[i] && HeaderLine(lines[i]).value.0 == k
  {
    AssignKeys(HeaderEntries(lines), k);
  }


  // ---------------------------------------------------------------------
  // The Link header (the link-value list of RFC 8288 section 3, read by
  // two regular expressions)

  /** A recorded link: its URL and the page number taken from it. */
  datatype Link = Link(url: string, page: int)

  /** PHP_INT_MAX on a 64-bit build: `intval` saturates there. */
  const PhpIntMax: int := 0x7FFF_FFFF_FFFF_FFFF

  /** Drop leading `\s` characters. */
  function SkipSpaces(s: string): (r: string)
    ensures |r| <= |s| && r == s[|s| - |r|..]
    ensures r != [] ==> !IsPcreSpace(r[0])
  {
    if s != [] && IsPcreSpace(s[0]) then SkipSpaces(s[1..]) else s
  }

  /** `<([^>]+)>;\s*rel="([^"]+)"` anchored at the start of `s`: the URL
      runs to the first '>', the rel to the first '"', both non-empty. */
  function LinkAt(s: string): (r: Option<(string, string)>)
    ensures r.Some? ==> |r.value.0| > 0 && '>' !in r.value.0 && |r.value.1| > 0 && '"' !in r.value.1
  {
    if |s| == 0 || s[0] != '<' then None
    else match IndexOf(s[1..], '>')
      case None => None
      case Some(g) =>
        if g == 0 then None
        else
          var url := s[1..][..g];
          var rest := s[1..][g + 1..];
          if |rest| == 0 || rest[0] != ';' then None
          else
            var r2 := SkipSpaces(rest[1..]);
            if !StartsWith(r2, "rel=\"") then None
            else
              var r3 := r2[5..];
              match IndexOf(r3, '"')
              case None => None
              case Some(q) => if q == 0 then None else Some((url, r3[..q]))
  }

  /** An unanchored `preg_match`: the anchored matcher `m` tried at each
      position from the left, the first success winning. */
  function Search<T>(s: string, m: string -> Option<T>): Option<T>
    decreases |s|
  {
    if m(s).Some? then m(s)
    else if s == [] then None
    else Search(s[1..], m)
  }

  /** Search returns the match at the leftmost position that matches. */
  lemma {:induction false} SearchLeftmost<T>(s: string, m: string -> Option<T>)
    ensures Search(s, m).Some? ==> exists i :: 0 <= i <= |s| && m(s[i..]) == Search(s, m) &&
                                     forall j :: 0 <= j < i ==> m(s[j..]).None?
    ensures Search(s, m).None? ==> forall i :: 0 <= i <= |s| ==> m(s[i..]).None?
    decreases |s|
  {
    assert s[0..] == s;
    if m(s).None? && s != [] {
      var t := s[1..];
      SearchLeftmost(t, m);
      if Search(t, m).Some? {
        var i :| 0 <= i <= |t| && m(t[i..]) == Search(t, m) && forall j :: 0 <= j < i ==> m(t[j..]).None?;
        assert s[i + 1..] == t[i..];
        forall j | 0 <= j < i + 1
          ensures m(s[j..]).None?
        {
          if j > 0 { assert s[j..] == t[j - 1..]; }
        }
      } else {
        forall i | 0 <= i <= |s|
          ensures m(s[i..]).None?
        {
          if i > 0 { assert s[i..] == t[i - 1..]; }
        }
      }
    }
  }

  /** `preg_match('/<([^>]+)>;\s*rel="([^"]+)"/', ...)`. */
  function FirstLink(s: string): Option<(string, string)> {
    Search(s, LinkAt)
  }

  /** The longest prefix of decimal digits. */
  function LeadingDigits(s: string): (r: string)
    ensures AllDigits(r) && |r| <= |s| && r == s[..|r|]
    ensures |r| < |s| ==> !IsDigit(s[|r|])
  {
    if s != [] && IsDigit(s[0]) then [s[0]] + LeadingDigits(s[1..]) else []
  }

  /** `intval` of a digit string on a 64-bit build. */
  function IntVal(digits: string): (n: int)
    requires AllDigits(digits)
    ensures 0 <= n <= PhpIntMax
    ensures DigitsValue(digits) <= PhpIntMax ==> n == DigitsValue(digits)
  {
    if DigitsValue(digits) > PhpIntMax then PhpIntMax else DigitsValue(digits)
  }

  /** `[?&]page=\d` matches at the start of `s`. */
  predicate PageMarkAt(s: string) {
    |s| >= 7 && (s[0] == '?' || s[0] == '&') && s[1..6] == "page=" && IsDigit(s[6])
  }

  /** `[?&]page=(\d+)` anchored at the start of `s`. */
  function PageAt(s: string): (r: Option<int>)
    ensures r.Some? <==> PageMarkAt(s)
  {
    if PageMarkAt(s) then Some(IntVal(LeadingDigits(s[6..]))) else None
  }

  /** The page number after the first `?page=` or `&page=`. */
  function PageParam(url: string): Option<int> {
    Search(url, PageAt)
  }

  /** Position i holds the first `[?&]page=` followed by a digit. */
  predicate FirstPageMark(url: string, i: int) {
    && 0 <= i < |url| - 6
    && (url[i] == '?' || url[i] == '&') && url[i + 1..i + 6] == "page=" && IsDigit(url[i + 6])
    && forall j :: 0 <= j < i ==> !PageMarkAt(url[j..])
  }

  /** PageParam reads the leftmost `[?&]page=` followed by a digit: the
      number sits right after a '?' or '&', so a `per_page=` parameter is
      never read as the page, and no earlier position matches. */
  lemma PageParamLeftmost(url: string)
    ensures PageParam(url).Some? ==> exists i :: FirstPageMark(url, i) && PageParam(url) == PageAt(url[i..])
    ensures PageParam(url).None? ==> forall i :: 0 <= i <= |url| ==> !PageMarkAt(url[i..])
  {
    SearchLeftmost(url, PageAt);
    if PageParam(url).Some? {
      var i :| 0 <= i <= |url| && PageAt(url[i..]) == PageParam(url) && forall j :: 0 <= j < i ==> PageAt(url[j..]).None?;
      assert url[i..][1..6] == url[i + 1..i + 6];
      assert FirstPageMark(url, i);
    }
  }


  /** Positions where the matcher fails can be skipped. */
  lemma {:induction false} SearchSkip<T>(s: string, m: string -> Option<T>, k: nat)
    requires k <= |s|
    requires forall j :: 0 <= j < k ==> m(s[j..]).None?
    ensures Search(s, m) == Search(s[k..], m)
    decreases k
  {
    if k > 0 {
      assert s[0..] == s;
      SearchSkip(s[1..], m, k - 1);
      assert forall j :: 0 <= j < k - 1 ==> s[1..][j..] == s[j + 1..];
      assert s[1..][k - 1..] == s[k..];
    }
  }
  /** A digit string is its own longest digit prefix. */
  lemma {:induction false} AllDigitsLeading(d: string)
    requires AllDigits(d)
    ensures LeadingDigits(d) == d
    decreases |d|
  {
    if d != [] { AllDigitsLeading(d[1..]); }
  }
  /** A `per_page` parameter before the page parameter is not read as
      the page: the number after `&page=` is. */
  lemma PerPageThenPage(d1: string, d2: string)
    requires AllDigits(d1) && |d2| > 0 && AllDigits(d2)
    ensures PageParam("?per_page=" + d1 + "&page=" + d2) == Some(IntVal(d2))
  {
    var u := "?per_page=" + d1 + "&page=" + d2;
    var k := 10 + |d1|;
    forall j | 0 <= j < k
      ensures PageAt(u[j..]).None?
    {
      if j == 0 {
        assert u[0..] == u;
        assert u[2] == 'e' && u[1..6][1] == u[2];
      } else if j < 10 {
        assert u[j] == "?per_page="[j];
      } else {
        assert u[j] == d1[j - 10];
      }
    }
    SearchSkip(u, PageAt, k);
    assert u[k..] == "&page=" + d2;
    assert u[k..][1..6] == "page=";
    assert u[k..][6..] == d2;
    AllDigitsLeading(d2);
  }

  /** What the comma-separated parts contribute, in order. */
  function LinkEntries(parts: seq<string>): (es: seq<Option<(string, Link)>>)
    ensures |es| == |parts| && forall i :: 0 <= i < |parts| ==> es[i] == PartLink(parts[i])
  {
    seq(|parts|, i requires 0 <= i < |parts| => PartLink(parts[i]))
  }


  /** What one part contributes: nothing without a `<url>; rel="x"` match
      or without a page parameter in the URL. */
  function PartLink(part: string): Option<(string, Link)> {
    match FirstLink(Trim(part, PhpWhitespace))
    case None => None
    case Some((url, rel)) =>
      match PageParam(url)
      case None => None
      case Some(p) => Some((rel, Link(url, p)))
  }

  /** Some part yields this rel and link. */
  predicate FromPart(parts: seq<string>, rel: string, link: Link) {
    exists i :: 0 <= i < |parts| && PartLink(parts[i]) == Some((rel, link))
  }

  /** Every recorded link comes from a part that yields it. */
  lemma LinkEntriesSound(parts: seq<string>, rel: string)
    requires rel in Assign(LinkEntries(parts))
    ensures FromPart(parts, rel, Assign(LinkEntries(parts))[rel])
  {
    var es := LinkEntries(parts);
    AssignSound(es, rel);
    var i :| 0 <= i < |es| && es[i] == Some((rel, Assign(es)[rel]));
    assert PartLink(parts[i]) == es[i];
  }

  /** parse_link_header: every recorded link comes from a comma-separated
      part that yields its rel, url and page. */
  function ParseLinkHeader(header: string): (r: map<string, Link>)
    ensures forall rel :: rel in r ==> FromPart(Split(header, ","), rel, r[rel])
  {
    var parts := Split(header, ",");
    forall rel | rel in Assign(LinkEntries(parts))
      ensures FromPart(parts, rel, Assign(LinkEntries(parts))[rel])
    {
      LinkEntriesSound(parts, rel);
    }
    Assign(LinkEntries(parts))
  }

  /** A rel is recorded exactly when some part yields it. A repeated rel
      keeps the last part that yields it; the recorded URL is the matched
      one and the page is the number after its first `[?&]page=`. */
  lemma LinkHeaderLastWins(header: string, i: nat, rel: string, url: string)
    requires i < |Split(header, ",")|
    requires FirstLink(Trim(Split(header, ",")[i], PhpWhitespace)) == Some((url, rel)) && PageParam(url).Some?
    requires forall j :: i < j < |Split(header, ",")| ==> PartLink(Split(header, ",")[j]).None? || PartLink(Split(header, ",")[j]).value.0 != rel
    ensures rel in ParseLinkHeader(header) && ParseLinkHeader(header)[rel] == Link(url, PageParam(url).value)
  {
    AssignLastWins(LinkEntries(Split(header, ",")), i, rel, Link(url, PageParam(url).value));
  }

  /** Parts without a `<url>; rel="x"` match or without a page parameter
      record nothing. */
  lemma LinkHeaderKeys(header: string, parts: seq<string>, rel: string)
    requires parts == Split(header, ",")
    ensures rel in ParseLinkHeader(header) <==>
            exists i :: 0 <= i < |parts| && PartLink(parts[i]).Some? && PartLink(parts[i]).value.0 == rel
  {
    var es := LinkEntries(parts);
    AssignKeys(es, rel);
    assert rel in Assign(es) <==> exists i :: 0 <= i < |es| && es[i].Some? && es[i].value.0 == rel;
  }



  // ---------------------------------------------------------------------
  // github_request

  /** The decoded body with the `_pagination` entry the request adds when
      a Link header is present. */
  datatype Reply<B> = Reply(body: B, pagination: Option<map<string, Link>>)

  /** github_request after the transfer: a status of 400 or more throws
      with the status and the body's message; otherwise the body is
      returned with the parsed Link header, if any. */
  function GitHubRequest<B>(x: Exchange<B>): (r: Result<Reply<B>>)
    ensures r.Err? <==> x.code >= 400
    ensures r.Err? ==> r.error == "GitHub API error (" + IntToString(x.code) + "): " + x.message.GetOr("Unknown error")
    ensures r.Ok? ==> r.value.body == x.body
    ensures r.Ok? ==> (r.value.pagination.Some? <==> "Link" in ParseHeaders(x.headerText))
    ensures r.Ok? && r.value.pagination.Some? ==> r.value.pagination.value == ParseLinkHeader(ParseHeaders(x.headerText)["Link"])
  {
    var headers := ParseHeaders(x.headerText);
    if x.code >= 400 then Err("GitHub API error (" + IntToString(x.code) + "): " + x.message.GetOr("Unknown error"))
    else Ok(Reply(x.body, if "Link" in headers then Some(ParseLinkHeader(headers["Link"])) else None))
  }

  /** `isset($response['_pagination']['next'])`. */
  predicate HasNext<B>(r: Reply<B>) {
    r.pagination.Some? && "next" in r.pagination.value
  }

  /** The result of the k-th github_request call of a paging loop; past
      the recorded ones, what an empty 200 answer gives (see
      EmptyAnswerIsLastPage). */
  function ReplyAt<B>(rs: seq<Result<Reply<B>>>, k: nat, empty: B): Result<Reply<B>> {
    if k < |rs| then rs[k] else Ok(Reply(empty, None))
  }

  /** An answer without headers is a page without a next link. */
  lemma EmptyAnswerIsLastPage<B>(body: B)
    ensures GitHubRequest(Exchange(200, "", body, None)) == Ok(Reply(body, None))
  {
    assert Split("", "\r\n") == [""];
    assert HeaderLine("").None?;
    assert HeaderEntries([""]) == [None];
  }

  // ---------------------------------------------------------------------
  // Issue search results

  /** An item of the search API, with the fields the mapping reads. */
  datatype RawIssue = RawIssue(number: nat, htmlUrl: string, title: string, body: Option<string>,
                               labels: Option<seq<string>>, createdAt: string)

  /** The search body; `items` is None when the key is missing. */
  datatype SearchBody = SearchBody(items: Option<seq<RawIssue>>)

  /** The record an item becomes. */
  function MapIssue(raw: RawIssue): (r: FetchedIssue)
    ensures ParseInt(r.sourceId) == Some(raw.number as int)
    ensures r.status == "open" && r.priority.None?
    ensures r.description == raw.body.GetOr("") && r.labels == raw.labels.GetOr([])
    ensures r.sourceUrl == raw.htmlUrl && r.title == raw.title && r.createdAt == raw.createdAt
  {
    IntToStringRoundTrip(raw.number);
    FetchedIssue(IntToString(raw.number), raw.htmlUrl, raw.title, raw.body.GetOr(""),
                 raw.labels.GetOr([]), None, "open", raw.createdAt)
  }

  /** The records of one page, in the order of its items. */
  function MapItems(b: SearchBody): (r: seq<FetchedIssue>)
    ensures |r| == |b.items.GetOr([])|
    ensures forall i :: 0 <= i < |r| ==> r[i] == MapIssue(b.items.GetOr([])[i])
  {
    var items := b.items.GetOr([]);
    seq(|items|, i requires 0 <= i < |items| => MapIssue(items[i]))
  }

  /** What github_fetch_issues_page returns. */
  datatype IssuesPage = IssuesPage(issues: seq<FetchedIssue>, hasNext: bool, page: int)

  /** github_fetch_issues_page: has_next exactly when the Link header has a
      `next` rel; the requested page is echoed. */
  function FetchIssuesPage(x: Exchange<SearchBody>, page: int): (r: Result<IssuesPage>)
    ensures r.Err? <==> x.code >= 400
    ensures r.Ok? ==> r.value.page == page && r.value.issues == MapItems(x.body)
    ensures r.Ok? ==> (r.value.hasNext <==>
                         ("Link" in ParseHeaders(x.headerText) && "next" in ParseLinkHeader(ParseHeaders(x.headerText)["Link"])))
  {
    match GitHubRequest(x)
    case Err(e) => Err(e)
    case Ok(reply) => Ok(IssuesPage(MapItems(reply.body), HasNext(reply), page))
  }

  // ---------------------------------------------------------------------
  // Paging

  /** The safety limit of both paging loops. */
  const MaxItems: nat := 500

  /** What one request of a paging loop yields: the items taken from its
      page and whether the page had a next link. */
  datatype PageOutcome<T> = PageOutcome(items: seq<T>, hasNext: bool)

  /** The outcome of the k-th request; past the recorded ones, an empty
      last page. */
  function OutcomeAt<T>(outs: seq<Result<PageOutcome<T>>>, k: nat): Result<PageOutcome<T>> {
    if k < |outs| then outs[k] else Ok(PageOutcome([], false))
  }

  /** A paging loop from the k-th request on, with `count` items collected
      before it: an exception ends it, and so does a page without a next
      link or a count of 500 or more reached after a page. The items
      collected from request k on (or the exception) and the number of
      requests made. */
  function Collect<T>(outs: seq<Result<PageOutcome<T>>>, k: nat, count: nat): (r: (Result<seq<T>>, nat))
    ensures r.1 >= 1
    decreases |outs| - k
  {
    match OutcomeAt(outs, k)
    case Err(e) => (Err(e), 1)
    case Ok(p) =>
      if p.hasNext && count + |p.items| < MaxItems then
        var tail := Collect(outs, k + 1, count + |p.items|);
        (if tail.0.Err? then tail.0 else Ok(p.items + tail.0.value), tail.1 + 1)
      else (Ok(p.items), 1)
  }

  /** The count is checked only between pages: the loop never collects 500
      plus a whole page or more, and it may pass 500 by less than a page. */
  lemma {:induction false} CollectCap<T>(outs: seq<Result<PageOutcome<T>>>, k: nat, count: nat, pageSize: nat)
    requires count < MaxItems
    requires forall j :: 0 <= j < |outs| && outs[j].Ok? ==> |outs[j].value.items| <= pageSize
    ensures var r := Collect(outs, k, count).0; r.Ok? ==> count + |r.value| < MaxItems + pageSize
    decreases |outs| - k
  {
    var o := OutcomeAt(outs, k);
    if o.Ok? && o.value.hasNext && count + |o.value.items| < MaxItems {
      CollectCap(outs, k + 1, count + |o.value.items|, pageSize);
    }
  }

  /** A page of fewer than 500 items with a next link, then a last page:
      both are returned whole, whatever their total. */
  lemma CapCheckedBetweenPages<T>(a: seq<T>, b: seq<T>)
    requires |a| < MaxItems
    ensures Collect([Ok(PageOutcome(a, true)), Ok(PageOutcome(b, false))], 0, 0) == (Ok(a + b), 2)
  {
    var outs := [Ok(PageOutcome(a, true)), Ok(PageOutcome(b, false))];
    assert Collect(outs, 1, |a|) == (Ok(b), 1);
  }

  /** The items of pages k.. in order. */
  function Flatten<T>(ps: seq<PageOutcome<T>>, k: nat): seq<T>
    decreases |ps| - k
  {
    if k >= |ps| then [] else ps[k].items + Flatten(ps, k + 1)
  }

  /** Pages that all succeed. */
  function Oks<T>(ps: seq<PageOutcome<T>>): (outs: seq<Result<PageOutcome<T>>>)
    ensures |outs| == |ps| && forall i :: 0 <= i < |ps| ==> outs[i] == Ok(ps[i])
  {
    seq(|ps|, i requires 0 <= i < |ps| => Ok(ps[i]))
  }

  /** Pages that all succeed, all but the last with a next link, and fewer
      than 500 items in all: every page is requested once and every item is
      returned, in page order. */
  lemma {:induction false} CollectEveryPage<T>(ps: seq<PageOutcome<T>>, k: nat, count: nat)
    requires k < |ps| && !ps[|ps| - 1].hasNext
    requires forall j :: k <= j < |ps| - 1 ==> ps[j].hasNext
    requires count + |Flatten(ps, k)| < MaxItems
    ensures Collect(Oks(ps), k, count) == (Ok(Flatten(ps, k)), |ps| - k)
    decreases |ps| - k
  {
    var outs := Oks(ps);
    var p := ps[k];
    assert OutcomeAt(outs, k) == Ok(p);
    var rest := Flatten(ps, k + 1);
    assert Flatten(ps, k) == p.items + rest;
    if k < |ps| - 1 {
      CollectEveryPage(ps, k + 1, count + |p.items|);
      assert Collect(outs, k, count) == (Ok(p.items + rest), |ps| - k);
    } else {
      assert rest == [];
      assert p.items + rest == p.items;
      assert Collect(outs, k, count) == (Ok(p.items), 1);
    }
  }

  /** The whole result of a loop that has collected `acc` in `k` requests
      and whose remaining requests yield `tail`. */
  function Resume<T>(acc: seq<T>, k: nat, tail: (Result<seq<T>>, nat)): (Result<seq<T>>, nat) {
    (if tail.0.Err? then tail.0 else Ok(acc + tail.0.value), k + tail.1)
  }

  /** Before any request, the remaining requests are the whole loop. */
  lemma CollectStarts<T>(outs: seq<Result<PageOutcome<T>>>)
    ensures Collect(outs, 0, 0) == Resume([], 0, Collect(outs, 0, 0))
  {
    var c := Collect(outs, 0, 0);
    if c.0.Ok? {
      assert [] + c.0.value == c.0.value;
    }
  }

  /** A request that throws ends the loop. */
  lemma CollectFails<T>(outs: seq<Result<PageOutcome<T>>>, k: nat, count: nat)
    requires OutcomeAt(outs, k).Err?
    ensures Collect(outs, k, count) == (Err(OutcomeAt(outs, k).error), 1)
  {
  }

  /** A page without a next link, or one that brings the count to 500,
      ends the loop. */
  lemma CollectStops<T>(outs: seq<Result<PageOutcome<T>>>, k: nat, count: nat, p: PageOutcome<T>)
    requires OutcomeAt(outs, k) == Ok(p) && !(p.hasNext && count + |p.items| < MaxItems)
    ensures Collect(outs, k, count) == (Ok(p.items), 1)
  {
  }

  /** One step of a paging loop that goes on to the next request. */
  lemma CollectContinues<T>(outs: seq<Result<PageOutcome<T>>>, k: nat, before: seq<T>, p: PageOutcome<T>)
    requires OutcomeAt(outs, k) == Ok(p) && p.hasNext && |before| + |p.items| < MaxItems
    ensures Resume(before, k, Collect(outs, k, |before|)) == Resume(before + p.items, k + 1, Collect(outs, k + 1, |before + p.items|))
  {
    var next := Collect(outs, k + 1, |before + p.items|);
    if next.0.Ok? {
      assert before + (p.items + next.0.value) == (before + p.items) + next.0.value;
    }
  }

  // ---------------------------------------------------------------------
  // github_fetch_issues

  /** One request of github_fetch_issues: the mapped items and the next
      link, or the request's exception. */
  function IssuesOutcome(g: Result<Reply<SearchBody>>): (r: Result<PageOutcome<FetchedIssue>>)
    ensures r.Err? <==> g.Err?
    ensures r.Ok? ==> r.value.items == MapItems(g.value.body) && (r.value.hasNext <==> HasNext(g.value))
  {
    match g
    case Err(e) => Err(e)
    case Ok(reply) => Ok(PageOutcome(MapItems(reply.body), HasNext(reply)))
  }

  /** The outcomes of recorded exchanges. */
  function IssuesOutcomes(xs: seq<Result<Reply<SearchBody>>>): (outs: seq<Result<PageOutcome<FetchedIssue>>>)
    ensures |outs| == |xs| && forall i :: 0 <= i < |xs| ==> outs[i] == IssuesOutcome(xs[i])
  {
    seq(|xs|, i requires 0 <= i < |xs| => IssuesOutcome(xs[i]))
  }

  lemma IssuesOutcomeAt(xs: seq<Result<Reply<SearchBody>>>, k: nat)
    ensures IssuesOutcome(ReplyAt(xs, k, SearchBody(None))) == OutcomeAt(IssuesOutcomes(xs), k)
  {
  }

  /** github_fetch_issues: a do/while over pages from `startPage`, stopping
      after a page without a next link or once 500 issues are counted.
      `requested` lists the page numbers asked for. */
  method FetchIssues(xs: seq<Result<Reply<SearchBody>>>, startPage: int) returns (r: Result<seq<FetchedIssue>>, requested: seq<int>)
    ensures (r, |requested|) == Collect(IssuesOutcomes(xs), 0, 0)
    ensures forall i :: 0 <= i < |requested| ==> requested[i] == startPage + i
  {
    ghost var outs := IssuesOutcomes(xs);
    var all: seq<FetchedIssue> := [];
    var total: nat := 0;
    var page := startPage;
    var k: nat := 0;
    requested := [];
    CollectStarts(outs);
    while true
      invariant k <= |xs| && |requested| == k && page == startPage + k
      invariant forall i :: 0 <= i < k ==> requested[i] == startPage + i
      invariant total == |all| && total < MaxItems
      invariant Collect(outs, 0, 0) == Resume(all, k, Collect(outs, k, total))
      decreases |xs| - k
    {
      requested := requested + [page];
      var g := ReplyAt(xs, k, SearchBody(None));
      IssuesOutcomeAt(xs, k);
      if g.Err? {
        CollectFails(outs, k, total);
        return Err(g.error), requested;
      }
      var items := g.value.body.items.GetOr([]);
      var batch: seq<FetchedIssue> := [];
      var i := 0;
      while i < |items|
        invariant 0 <= i <= |items|
        invariant batch == MapItems(g.value.body)[..i]
      {
        batch := batch + [MapIssue(items[i])];
        i := i + 1;
      }
      assert batch == MapItems(g.value.body);
      var before := all;
      total := total + |batch|;
      all := all + batch;
      page := page + 1;
      if !(HasNext(g.value) && total < MaxItems) {
        CollectStops(outs, k, |before|, PageOutcome(batch, HasNext(g.value)));
        return Ok(all), requested;
      }
      CollectContinues(outs, k, before, PageOutcome(batch, true));
      k := k + 1;
    }
  }

  // ---------------------------------------------------------------------
  // github_list_repos

  /** An element of the `/user/repos` answer: whether it is an array and
      its `full_name`. The `_pagination` entry that the request adds is
      kept apart, in the reply, which is what the loop's skip achieves. */
  datatype RepoEntry = RepoEntry(isArray: bool, fullName: Option<string>)

  /** A repository offered for import. */
  datatype ListedRepo = ListedRepo(sourceId: string, name: string)

  /** An entry the loop keeps. */
  predicate Listable(e: RepoEntry) {
    e.isArray && e.fullName.Some?
  }

  /** What a kept entry becomes: both fields are its full name. */
  function Listed(e: RepoEntry): ListedRepo
    requires Listable(e)
  {
    ListedRepo(e.fullName.value, e.fullName.value)
  }

  /** The repositories of one page, in order. */
  function ReposOf(entries: seq<RepoEntry>): (r: seq<ListedRepo>)
    ensures |r| <= |entries|
    decreases |entries|
  {
    if entries == [] then []
    else
      var e := entries[|entries| - 1];
      ReposOf(entries[..|entries| - 1]) + (if Listable(e) then [Listed(e)] else [])
  }

  /** A page lists exactly its kept entries. */
  lemma {:induction false} ReposOfExact(entries: seq<RepoEntry>, x: ListedRepo)
    ensures x in ReposOf(entries) <==> exists j :: 0 <= j < |entries| && Listable(entries[j]) && Listed(entries[j]) == x
    decreases |entries|
  {
    if entries != [] {
      var init := entries[..|entries| - 1];
      ReposOfExact(init, x);
      assert forall j :: 0 <= j < |init| ==> init[j] == entries[j];
    }
  }

  /** One request of github_list_repos. */
  function ReposOutcome(g: Result<Reply<seq<RepoEntry>>>): (r: Result<PageOutcome<ListedRepo>>)
    ensures r.Err? <==> g.Err?
    ensures r.Ok? ==> r.value.items == ReposOf(g.value.body) && (r.value.hasNext <==> HasNext(g.value))
  {
    match g
    case Err(e) => Err(e)
    case Ok(reply) => Ok(PageOutcome(ReposOf(reply.body), HasNext(reply)))
  }

  /** The outcomes of recorded exchanges. */
  function ReposOutcomes(xs: seq<Result<Reply<seq<RepoEntry>>>>): (outs: seq<Result<PageOutcome<ListedRepo>>>)
    ensures |outs| == |xs| && forall i :: 0 <= i < |xs| ==> outs[i] == ReposOutcome(xs[i])
  {
    seq(|xs|, i requires 0 <= i < |xs| => ReposOutcome(xs[i]))
  }

  lemma ReposOutcomeAt(xs: seq<Result<Reply<seq<RepoEntry>>>>, k: nat)
    ensures ReposOutcome(ReplyAt(xs, k, [])) == OutcomeAt(ReposOutcomes(xs), k)
  {
  }

  /** github_list_repos: pages of 100 from page 1 while a next link exists
      and fewer than 500 repositories are collected. */
  method ListRepos(xs: seq<Result<Reply<seq<RepoEntry>>>>) returns (r: Result<seq<ListedRepo>>, requested: seq<int>)
    ensures (r, |requested|) == Collect(ReposOutcomes(xs), 0, 0)
    ensures forall i :: 0 <= i < |requested| ==> requested[i] == 1 + i
  {
    ghost var outs := ReposOutcomes(xs);
    var repos: seq<ListedRepo> := [];
    var page := 1;
    var k: nat := 0;
    requested := [];
    CollectStarts(outs);
    while true
      invariant k <= |xs| && |requested| == k && page == 1 + k
      invariant forall i :: 0 <= i < k ==> requested[i] == 1 + i
      invariant |repos| < MaxItems
      invariant Collect(outs, 0, 0) == Resume(repos, k, Collect(outs, k, |repos|))
      decreases |xs| - k
    {
      requested := requested + [page];
      var g := ReplyAt(xs, k, []);
      ReposOutcomeAt(xs, k);
      if g.Err? {
        CollectFails(outs, k, |repos|);
        return Err(g.error), requested;
      }
      var entries := g.value.body;
      var batch: seq<ListedRepo> := [];
      var i := 0;
      while i < |entries|
        invariant 0 <= i <= |entries|
        invariant batch == ReposOf(entries[..i])
      {
        assert entries[..i + 1][..i] == entries[..i];
        if Listable(entries[i]) {
          batch := batch + [Listed(entries[i])];
        }
        i := i + 1;
      }
      assert entries[..i] == entries;
      var before := repos;
      repos := repos + batch;
      page := page + 1;
      if !(HasNext(g.value) && |repos| < MaxItems) {
        CollectStops(outs, k, |before|, PageOutcome(batch, HasNext(g.value)));
        return Ok(repos), requested;
      }
      CollectContinues(outs, k, before, PageOutcome(batch, true));
      k := k + 1;
    }
  }

  // ---------------------------------------------------------------------
  // Pull requests

  /** github_get_pulls: the open pull requests, or the request's
      exception. */
  function GetPulls<P>(x: Exchange<seq<P>>): (r: Result<seq<P>>)
    ensures r.Ok? <==> x.code < 400
    ensures r.Ok? ==> r.value == x.body
  {
    match GitHubRequest(x)
    case Err(e) => Err(e)
    case Ok(reply) => Ok(reply.body)
  }

  // ---------------------------------------------------------------------
  // Token validation

  /** The `/user` body: its `login` field, None when absent or null. */
  datatype UserBody = UserBody(login: Option<string>)

  /** github_validate_token: a token is valid exactly when the request
      succeeds and the answer names a login; the request's exception reads
      as an invalid token. */
  function ValidateToken(x: Exchange<UserBody>): (valid: bool)
    ensures valid <==> x.code < 400 && x.body.login.Some?
  {
    match GitHubRequest(x)
    case Err(_) => false
    case Ok(reply) => reply.body.login.Some?
  }
}
