/** The browser helpers of public/js/utils.js that differ from those of
    public/js/common.js: the interval loop of relativeTime, the generic badge
    and the assessment badge, label lists and the priority colours. Its
    renderTemplate and createActionContent are the same code as in
    public/js/common.js and are modelled once, by CommonJs.RenderTemplate
    and CommonJs.ActionOf. */
module UtilsJs {
  import opened Wrappers
  import opened Text
  import opened Store
  import opened CommonJs

  // ---------------------------------------------------------------------
  // relativeTime

  /** The units relativeTime tries, largest first, with their length in
      seconds (a month is 30 days, a year 365). */
  const Intervals: seq<(string, nat)> := [("year", 31536000), ("month", 2592000), ("day", 86400), ("hour", 3600), ("minute", 60)]

  /** The first unit, from position `from` on, of which at least one whole
      length has elapsed. */
  function FirstInterval(seconds: int, from: nat): (r: Option<nat>)
    ensures r.Some? ==> from <= r.value < |Intervals| && seconds >= Intervals[r.value].1
    ensures r.Some? ==> forall j :: from <= j < r.value ==> seconds < Intervals[j].1
    ensures r.None? ==> forall j :: from <= j < |Intervals| ==> seconds < Intervals[j].1
    decreases |Intervals| - from
  {
    if from >= |Intervals| then None
    else if seconds / Intervals[from].1 >= 1 then Some(from)
    else FirstInterval(seconds, from + 1)
  }

  /** "n unit ago", with the unit in the plural unless n is 1. */
  function CountPhrase(count: int, unit: string): (r: string)
    ensures EndsWith(r, " ago")
  {
    var head := IntToString(count) + " " + unit + (if count == 1 then "" else "s");
    var r := head + " ago";
    assert r[|r| - 4..] == " ago";
    r
  }

  /** What relativeTime shows for an elapsed number of whole seconds (None
      for a date that does not parse, whose division yields NaN). */
  function RelativeText(seconds: Option<int>): (r: string)
    ensures r == "just now" <==> seconds.None? || seconds.value < 60
    ensures r != "just now" ==> EndsWith(r, " ago")
  {
    assert !EndsWith("just now", " ago") by {
      assert "just now"[7] == 'w' && " ago"[3] == 'o';
      assert "just now"[4..][3] == "just now"[7];
    }
    if seconds.None? then "just now"
    else match FirstInterval(seconds.value, 0)
      case None => "just now"
      case Some(i) => CountPhrase(seconds.value / Intervals[i].1, Intervals[i].0)
  }

  /** relativeTime: the first unit with a whole count of at least one
      gives the phrase; less than a minute, a negative age or an unparsable
      date is 'just now'. */
  method RelativeTime(seconds: Option<int>) returns (r: string)
    ensures r == RelativeText(seconds)
  {
    if seconds.None? {
      return "just now";
    }
    var s := seconds.value;
    for i := 0 to |Intervals|
      invariant FirstInterval(s, 0) == FirstInterval(s, i)
    {
      var count := s / Intervals[i].1;
      if count >= 1 {
        return CountPhrase(count, Intervals[i].0);
      }
    }
    return "just now";
  }

  /** The unit shown is the largest one that fits, and the count is the
      whole number of its lengths elapsed; nothing fits below a minute. */
  lemma {:induction false} RelativeUnitIsLargest(seconds: int)
    ensures FirstInterval(seconds, 0).None? <==> seconds < 60
    ensures FirstInterval(seconds, 0).Some? ==>
              var i := FirstInterval(seconds, 0).value;
              var n := seconds / Intervals[i].1;
              n >= 1 && n * Intervals[i].1 <= seconds < (n + 1) * Intervals[i].1 &&
              (i > 0 ==> seconds < Intervals[i - 1].1)
  {
    var r := FirstInterval(seconds, 0);
    if r.None? {
      assert seconds < Intervals[4].1;
    } else {
      assert Intervals[r.value].1 >= 60;
    }
  }

  /** Months are 30 days long, so 360 to 364 days show as twelve months. */
  lemma TwelveMonths(seconds: int)
    requires 360 * 86400 <= seconds < 365 * 86400
    ensures FirstInterval(seconds, 0) == Some(1) && seconds / Intervals[1].1 == 12
  {
  }

  // ---------------------------------------------------------------------
  // createBadge, createAssessmentBadge, formatLabels, formatPriority

  /** The opening markup of every badge, up to its kind class. */
  const BadgeOpen := "<span class=\"badge badge-"

  /** createBadge: a span whose class list is `badge badge-kind` and whose
      content is the text, inserted without escaping. */
  function CreateBadge(text: string, kind: string): (r: string)
    ensures StartsWith(r, BadgeOpen) && EndsWith(r, "</span>")
    ensures |r| >= |BadgeOpen| + 7 && r[|BadgeOpen|..|r| - 7] == kind + "\">" + text
    ensures '"' !in kind ==> ParseSpan(r) == Some(("badge badge-" + kind, text))
  {
    var r := Span("badge badge-" + kind, text);
    assert r == BadgeOpen + kind + "\">" + text + "</span>";
    assert r[..|BadgeOpen|] == BadgeOpen;
    assert r[|r| - 7..] == "</span>";
    assert r[|BadgeOpen|..|r| - 7] == kind + "\">" + text;
    SpanReadsBack("badge badge-" + kind, text);
    r
  }

  /** The text of a badge is inserted as it is, so it can be read back:
      two badges of one kind are equal only for equal texts, and with
      quote-free kinds the kind is recovered too. */
  lemma CreateBadgeInjective(t1: string, k1: string, t2: string, k2: string)
    requires CreateBadge(t1, k1) == CreateBadge(t2, k2)
    ensures k1 == k2 ==> t1 == t2
    ensures '"' !in k1 && '"' !in k2 ==> k1 == k2 && t1 == t2
  {
    var r := CreateBadge(t1, k1);
    if k1 == k2 {
      var m := r[|BadgeOpen|..|r| - 7];
      assert m[|k1| + 2..] == t1;
      assert m[|k2| + 2..] == t2;
    }
    if '"' !in k1 && '"' !in k2 {
      assert ("badge badge-" + k1)[12..] == k1;
      assert ("badge badge-" + k2)[12..] == k2;
    }
  }

  /** The text and colour of an assessment's badge; anything other than the
      three assessments, null included, is 'Unknown'. */
  function AssessmentBadgeParts(assessment: Option<string>): (r: (string, string))
    ensures assessment == Some("pending") ==> r == ("Pending", "gray")
    ensures assessment == Some("too_complex") ==> r == ("Too Complex", "red")
    ensures assessment == Some("agentic_pr_capable") ==> r == ("PR Capable", "green")
    ensures r.0 == "Unknown" <==> ParseAssessment(assessment.GetOr("")).None?
  {
    if assessment == Some("pending") then ("Pending", "gray")
    else if assessment == Some("too_complex") then ("Too Complex", "red")
    else if assessment == Some("agentic_pr_capable") then ("PR Capable", "green")
    else ("Unknown", "gray")
  }

  /** createAssessmentBadge: the assessment's badge, which reads back as
      its text and colour. */
  function CreateAssessmentBadge(assessment: Option<string>): (r: string)
    ensures assessment == Some("pending") ==> ParseSpan(r) == Some(("badge badge-gray", "Pending"))
    ensures assessment == Some("too_complex") ==> ParseSpan(r) == Some(("badge badge-red", "Too Complex"))
    ensures assessment == Some("agentic_pr_capable") ==> ParseSpan(r) == Some(("badge badge-green", "PR Capable"))
    ensures ParseAssessment(assessment.GetOr("")).None? ==> ParseSpan(r) == Some(("badge badge-gray", "Unknown"))
  {
    var parts := AssessmentBadgeParts(assessment);
    assert "badge badge-" + "gray" == "badge badge-gray";
    assert "badge badge-" + "red" == "badge badge-red";
    assert "badge badge-" + "green" == "badge badge-green";
    assert '"' !in parts.1;
    CreateBadge(parts.0, parts.1)
  }

  /** formatLabels: '' for a missing, non-array or empty list, otherwise
      one label badge per label joined by spaces. `labels` is None when the
      value is not an array. */
  function FormatLabels(labels: Option<seq<string>>): (r: string)
    ensures r == "" <==> labels.None? || labels.value == []
  {
    if labels.None? || labels.value == [] then ""
    else
      var ls := labels.value;
      JoinNonEmpty(seq(|ls|, i requires 0 <= i < |ls| => CreateBadge(ls[i], "label")), " ");
      Join(seq(|ls|, i requires 0 <= i < |ls| => CreateBadge(ls[i], "label")), " ")
  }

  /** Joining non-empty parts gives a non-empty text. */
  lemma JoinNonEmpty(parts: seq<string>, sep: string)
    requires |parts| > 0 && |parts[0]| > 0
    ensures Join(parts, sep) != ""
  {
  }

  /** Joining one more part appends the separator and the part. */
  lemma {:induction false} JoinSnoc(parts: seq<string>, x: string, sep: string)
    requires |parts| > 0
    ensures Join(parts + [x], sep) == Join(parts, sep) + sep + x
    decreases |parts|
  {
    if |parts| == 1 {
      assert (parts + [x])[1..] == [x];
    } else {
      assert (parts + [x])[1..] == parts[1..] + [x];
      JoinSnoc(parts[1..], x, sep);
    }
  }

  /** One more label appends one more badge, after a space. */
  lemma FormatLabelsSnoc(ls: seq<string>, l: string)
    requires ls != []
    ensures FormatLabels(Some(ls + [l])) == FormatLabels(Some(ls)) + " " + CreateBadge(l, "label")
  {
    var bs := seq(|ls|, i requires 0 <= i < |ls| => CreateBadge(ls[i], "label"));
    var ms := ls + [l];
    assert seq(|ms|, i requires 0 <= i < |ms| => CreateBadge(ms[i], "label")) == bs + [CreateBadge(l, "label")];
    JoinSnoc(bs, CreateBadge(l, "label"), " ");
  }

  const PriorityColours: map<string, string> := map[
    "Urgent" := "red",
    "High" := "orange",
    "Medium" := "yellow",
    "Low" := "gray",
    "None" := "gray"]

  /** formatPriority of public/js/utils.js: a dash for an absent or empty
      priority, otherwise a badge with the priority's colour, gray for any
      name outside the table. The lookup is case-sensitive. */
  function FormatPriority(priority: Option<string>): (r: string)
    ensures !JsTruthyOpt(priority) ==> r == "—"
    ensures JsTruthyOpt(priority) && priority.value in PriorityColours ==> r == CreateBadge(priority.value, PriorityColours[priority.value])
    ensures JsTruthyOpt(priority) && priority.value !in PriorityColours ==> r == CreateBadge(priority.value, "gray")
  {
    if !JsTruthyOpt(priority) then "—"
    else CreateBadge(priority.value, if priority.value in PriorityColours then PriorityColours[priority.value] else "gray")
  }

  /** The lower-case 'medium' that the issue upsert stores for a missing
      priority is outside the table and shows gray, where 'Medium' shows
      yellow. */
  lemma StoredDefaultPriorityShownGray()
    ensures FormatPriority(Some("medium")) == CreateBadge("medium", "gray")
    ensures FormatPriority(Some("Medium")) == CreateBadge("Medium", "yellow")
  {
  }
}
