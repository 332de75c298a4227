/** `process_template` of lib/utils.php: the mustache subset used for the
    analysis and launch prompts. Placeholders `{{key}}` are filled from the
    data first; then, for every flag key, `{{#key}}...{{/key}}` sections are
    kept or dropped and `{{^key}}...{{/key}}` sections the other way round. */
module Template {
  import opened Wrappers
  import opened Text

  /** A PHP value of the template data. */
  datatype Value = Str(s: string) | Int(i: int) | Bool(b: bool) | Arr(items: seq<Value>) | Null

  /** PHP truthiness of a value. */
  predicate ValueTruthy(v: Value) {
    match v
    case Str(s) => Truthy(s)
    case Int(i) => i != 0
    case Bool(b) => b
    case Arr(items) => items != []
    case Null => false
  }

  /** The text `str_replace` inserts for a scalar value. */
  function ValueText(v: Value): string {
    match v
    case Str(s) => s
    case Int(i) => IntToString(i)
    case Bool(b) => if b then "1" else ""
    case Arr(_) => "Array"
    case Null => ""
  }

  /** Keys whose sections are processed whatever their value's type. */
  const FlagNames: set<string> := {"is_github", "is_linear", "auto_pr", "has_context"}

  /** A key whose value takes part in the first loop. */
  predicate IsPlaceholderValue(v: Value) {
    !v.Arr? && !v.Bool?
  }

  /** A key that takes part in the second loop. */
  predicate IsFlag(key: string, v: Value) {
    v.Bool? || key in FlagNames
  }

  function Placeholder(key: string): string { "{{" + key + "}}" }
  function OpenShown(key: string): string { "{{#" + key + "}}" }
  function OpenHidden(key: string): string { "{{^" + key + "}}" }
  function Close(key: string): string { "{{/" + key + "}}" }

  /** `preg_replace('/open(.*?)close/s', keep ? '$1' : '', s)` for literal
      delimiters: scanning left to right, each opening delimiter that has a
      closing one after it starts a match ending at the first such closing
      delimiter; the match becomes its inner text or nothing. */
  function Sections(s: string, open: string, close: string, keep: bool): (r: string)
    requires |open| > 0
    ensures |r| <= |s|
    decreases |s|
  {
    if |s| == 0 then s
    else if StartsWith(s, open) && Find(s[|open|..], close).Some? then
      var inner := s[|open|..];
      var k := Find(inner, close).value;
      (if keep then inner[..k] else "") + Sections(inner[k + |close|..], open, close, keep)
    else [s[0]] + Sections(s[1..], open, close, keep)
  }

  /** The first loop, over a prefix of the data: booleans and arrays are
      skipped, so data holding only those leaves the template alone. */
  function Placeholders(t: string, data: seq<(string, Value)>): (r: string)
    ensures (forall i :: 0 <= i < |data| ==> !IsPlaceholderValue(data[i].1)) ==> r == t
    decreases |data|
  {
    if data == [] then t
    else
      var (key, v) := data[|data| - 1];
      var t' := Placeholders(t, data[..|data| - 1]);
      if IsPlaceholderValue(v) then ReplaceAll(t', Placeholder(key), ValueText(v)) else t'
  }

  /** Both section passes for one flag key. */
  function FlagStep(t: string, key: string, v: Value): string {
    var shown := Sections(t, OpenShown(key), Close(key), ValueTruthy(v));
    Sections(shown, OpenHidden(key), Close(key), !ValueTruthy(v))
  }

  /** The second loop, over a prefix of the data: sections are only ever
      removed or unwrapped, so the text never grows, and data without flags
      leaves it alone. */
  function Conditionals(t: string, data: seq<(string, Value)>): (r: string)
    ensures |r| <= |t|
    ensures (forall i :: 0 <= i < |data| ==> !IsFlag(data[i].0, data[i].1)) ==> r == t
    decreases |data|
  {
    if data == [] then t
    else
      var (key, v) := data[|data| - 1];
      var t' := Conditionals(t, data[..|data| - 1]);
      if IsFlag(key, v) then FlagStep(t', key, v) else t'
  }

  /** process_template: the two loops reassign the template in data order. */
  method ProcessTemplate(template: string, data: seq<(string, Value)>) returns (r: string)
    ensures r == Conditionals(Placeholders(template, data), data)
  {
    r := template;
    var i := 0;
    while i < |data|
      invariant 0 <= i <= |data|
      invariant r == Placeholders(template, data[..i])
    {
      var (key, v) := data[i];
      assert data[..i + 1][..i] == data[..i];
      if IsPlaceholderValue(v) {
        r := ReplaceAll(r, Placeholder(key), ValueText(v));
      }
      i := i + 1;
    }
    assert data[..i] == data;
    var filled := r;
    i := 0;
    while i < |data|
      invariant 0 <= i <= |data|
      invariant r == Conditionals(filled, data[..i])
    {
      var (key, v) := data[i];
      assert data[..i + 1][..i] == data[..i];
      if IsFlag(key, v) {
        r := Sections(r, OpenShown(key), Close(key), ValueTruthy(v));
        r := Sections(r, OpenHidden(key), Close(key), !ValueTruthy(v));
      }
      i := i + 1;
    }
    assert data[..i] == data;
  }

  // ---------------------------------------------------------------------
  // Properties of the section pass

  /** Without an opening delimiter the pass changes nothing. */
  lemma {:induction false} SectionsAbsent(s: string, open: string, close: string, keep: bool)
    requires |open| > 0 && !Contains(s, open)
    ensures Sections(s, open, close, keep) == s
    decreases |s|
  {
    if |s| > 0 {
      SectionsAbsent(s[1..], open, close, keep);
      assert s == [s[0]] + s[1..];
    }
  }

  /** Text without '{' is copied through when every delimiter starts
      with '{'. */
  lemma {:induction false} SectionsSkipLiteral(a: string, b: string, open: string, close: string, keep: bool)
    requires |open| > 0 && open[0] == '{' && '{' !in a
    ensures Sections(a + b, open, close, keep) == a + Sections(b, open, close, keep)
    decreases |a|
  {
    if a != [] {
      var s := a + b;
      assert s[0] == a[0];
      assert !StartsWith(s, open);
      assert s[1..] == a[1..] + b;
      SectionsSkipLiteral(a[1..], b, open, close, keep);
      assert a == [a[0]] + a[1..];
    } else {
      assert a + b == b;
    }
  }

  /** Inner text without '{' ends at the closing delimiter that follows it. */
  lemma FindAfterLiteral(x: string, close: string, b: string)
    requires |close| > 0 && close[0] == '{' && '{' !in x
    ensures Find(x + close + b, close) == Some(|x|)
  {
    var s := x + close + b;
    assert s[|x|..][..|close|] == close;
  }

  /** A section at the front becomes its inner text or nothing. */
  lemma SectionsFront(x: string, b: string, open: string, close: string, keep: bool)
    requires |open| > 0 && |close| > 0 && close[0] == '{' && '{' !in x
    ensures Sections(open + x + close + b, open, close, keep) == (if keep then x else "") + Sections(b, open, close, keep)
  {
    var s := open + x + close + b;
    assert s[..|open|] == open;
    var inner := s[|open|..];
    assert inner == x + close + b;
    FindAfterLiteral(x, close, b);
    assert inner[..|x|] == x;
    assert inner[|x| + |close|..] == b;
  }

  /** One section with '{'-free surroundings: it becomes its inner text
      when kept and disappears otherwise, and the text around it stays. */
  lemma SectionExpands(a: string, x: string, b: string, open: string, close: string, keep: bool)
    requires |open| > 0 && open[0] == '{' && |close| > 0 && close[0] == '{'
    requires '{' !in a && '{' !in x && '{' !in b
    ensures Sections(a + open + x + close + b, open, close, keep) == a + (if keep then x else "") + b
  {
    var s := open + x + close + b;
    assert a + open + x + close + b == a + s;
    SectionsSkipLiteral(a, s, open, close, keep);
    SectionsFront(x, b, open, close, keep);
    NoBraceNoOpen(b, open);
    SectionsAbsent(b, open, close, keep);
  }

  /** Two braces followed by a character that differs from the third
      character of the opening delimiter start no section. */
  lemma SectionsSkipBraces(r: string, open: string, close: string, keep: bool)
    requires |open| >= 3 && open[0] == '{' && open[1] == '{'
    requires |r| > 0 && r[0] != open[2] && r[0] != '{'
    ensures Sections("{{" + r, open, close, keep) == "{{" + Sections(r, open, close, keep)
  {
    var s := "{{" + r;
    assert s[2] == r[0];
    assert !StartsWith(s, open);
    assert s[1..] == "{" + r;
    assert s[1..][1] == r[0];
    assert !StartsWith(s[1..], open);
    assert s[1..][1..] == r;
  }

  lemma {:induction false} NoBraceNoOpen(b: string, open: string)
    requires |open| > 0 && open[0] == '{' && '{' !in b
    ensures !Contains(b, open)
    decreases |b|
  {
    if |b| > 0 {
      assert b[0] != open[0];
      NoBraceNoOpen(b[1..], open);
    }
  }

  // ---------------------------------------------------------------------
  // Properties of process_template

  /** Whether the template mentions any tag of the key. */
  predicate MentionsKey(t: string, key: string) {
    Contains(t, Placeholder(key)) || Contains(t, OpenShown(key)) || Contains(t, OpenHidden(key))
  }

  /** The first loop leaves a template alone when it holds no placeholder
      of any data key. */
  lemma {:induction false} PlaceholdersUnchanged(t: string, data: seq<(string, Value)>)
    requires forall i :: 0 <= i < |data| ==> !Contains(t, Placeholder(data[i].0))
    ensures Placeholders(t, data) == t
    decreases |data|
  {
    if data != [] {
      var (key, v) := data[|data| - 1];
      PlaceholdersUnchanged(t, data[..|data| - 1]);
      ReplaceAbsent(t, Placeholder(key), ValueText(v));
    }
  }

  /** The second loop leaves a template alone when it opens no section of
      any data key. */
  lemma {:induction false} ConditionalsUnchanged(t: string, data: seq<(string, Value)>)
    requires forall i :: 0 <= i < |data| ==> !Contains(t, OpenShown(data[i].0)) && !Contains(t, OpenHidden(data[i].0))
    ensures Conditionals(t, data) == t
    decreases |data|
  {
    if data != [] {
      var (key, v) := data[|data| - 1];
      ConditionalsUnchanged(t, data[..|data| - 1]);
      SectionsAbsent(t, OpenShown(key), Close(key), ValueTruthy(v));
      SectionsAbsent(t, OpenHidden(key), Close(key), !ValueTruthy(v));
    }
  }

  /** A template that mentions no tag of any data key comes back verbatim. */
  lemma UnmentionedUnchanged(t: string, data: seq<(string, Value)>)
    requires forall i :: 0 <= i < |data| ==> !MentionsKey(t, data[i].0)
    ensures Placeholders(t, data) == t
    ensures Conditionals(t, data) == t
  {
    PlaceholdersUnchanged(t, data);
    ConditionalsUnchanged(t, data);
  }

  /** A scalar value fills its placeholder: `a{{key}}b` becomes `avb` when
      the surrounding text has no '{' and the key is no flag name. */
  lemma PlaceholderFilled(a: string, key: string, v: Value, b: string)
    requires IsPlaceholderValue(v) && key !in FlagNames
    requires '{' !in a && '{' !in b
    ensures Conditionals(Placeholders(a + Placeholder(key) + b, [(key, v)]), [(key, v)]) == a + ValueText(v) + b
  {
    var data := [(key, v)];
    assert data[..0] == [];
    ReplaceSingle(a, key, b, ValueText(v));
  }

  /** Replacing `{{key}}` in `a{{key}}b` with '{'-free surroundings. */
  lemma ReplaceSingle(a: string, key: string, b: string, text: string)
    requires '{' !in a && '{' !in b
    ensures ReplaceAll(a + Placeholder(key) + b, Placeholder(key), text) == a + text + b
  {
    var p := Placeholder(key);
    ReplaceSkipsLiteral(a, p + b, p, text);
    ReplaceAtFront(p, b, text);
    NoBraceNoOpen(b, p);
    ReplaceAbsent(b, p, text);
    assert a + p + b == a + (p + b);
  }

  /** A boolean flag keeps a `{{#key}}` section exactly when it is true
      and drops it otherwise. */
  lemma ShownSectionFollowsFlag(a: string, key: string, flag: bool, x: string, b: string)
    requires '{' !in a && '{' !in x && '{' !in b
    ensures Conditionals(Placeholders(a + OpenShown(key) + x + Close(key) + b, [(key, Bool(flag))]), [(key, Bool(flag))])
         == a + (if flag then x else "") + b
  {
    var data := [(key, Bool(flag))];
    assert data[..0] == [];
    var t := a + OpenShown(key) + x + Close(key) + b;
    SectionExpands(a, x, b, OpenShown(key), Close(key), flag);
    var u := a + (if flag then x else "") + b;
    assert '{' !in u;
    NoBraceNoOpen(u, OpenHidden(key));
    SectionsAbsent(u, OpenHidden(key), Close(key), !flag);
  }

  /** A `{{^key}}` section with '{'-free surroundings holds no `{{#key}}`
      section, so the `{{#key}}` pass leaves it as it is. */
  lemma ShownPassSkipsHidden(a: string, key: string, x: string, b: string, keep: bool)
    requires '{' !in a && '{' !in key && '{' !in x && '{' !in b
    ensures var t := a + OpenHidden(key) + x + Close(key) + b;
      Sections(t, OpenShown(key), Close(key), keep) == t
  {
    var l1 := "^" + key + "}}" + x;
    var l2 := "/" + key + "}}" + b;
    assert '{' !in l1 && '{' !in l2;
    assert a + OpenHidden(key) + x + Close(key) + b == a + ("{{" + (l1 + ("{{" + l2)));
    BracedLiterals(a, l1, l2, OpenShown(key), Close(key), keep);
  }

  /** Two runs of '{'-free text, each after a pair of braces and starting
      with a character other than the third of the opening delimiter, hold
      no section. */
  lemma BracedLiterals(a: string, l1: string, l2: string, open: string, close: string, keep: bool)
    requires |open| >= 3 && open[0] == '{' && open[1] == '{'
    requires '{' !in a && '{' !in l1 && '{' !in l2
    requires |l1| > 0 && l1[0] != open[2] && |l2| > 0 && l2[0] != open[2]
    ensures Sections(a + ("{{" + (l1 + ("{{" + l2))), open, close, keep) == a + ("{{" + (l1 + ("{{" + l2)))
  {
    SectionsSkipLiteral(a, "{{" + (l1 + ("{{" + l2)), open, close, keep);
    SectionsSkipBraces(l1 + ("{{" + l2), open, close, keep);
    SectionsSkipLiteral(l1, "{{" + l2, open, close, keep);
    SectionsSkipBraces(l2, open, close, keep);
    NoBraceNoOpen(l2, open);
    SectionsAbsent(l2, open, close, keep);
  }

  /** A boolean flag keeps a `{{^key}}` section exactly when it is false
      and drops it otherwise. */
  lemma HiddenSectionFollowsFlag(a: string, key: string, flag: bool, x: string, b: string)
    requires '{' !in a && '{' !in key && '{' !in x && '{' !in b
    ensures Conditionals(Placeholders(a + OpenHidden(key) + x + Close(key) + b, [(key, Bool(flag))]), [(key, Bool(flag))])
         == a + (if flag then "" else x) + b
  {
    var data := [(key, Bool(flag))];
    assert data[..0] == [];
    ShownPassSkipsHidden(a, key, x, b, flag);
    SectionExpands(a, x, b, OpenHidden(key), Close(key), !flag);
  }
  // ---------------------------------------------------------------------
  // Templates whose data has several keys

  /** A data key as the prompts use them: a non-empty run of `\w`
      characters. */
  predicate IsTagName(k: string) {
    |k| > 0 && forall i :: 0 <= i < |k| ==> IsWordChar(k[i])
  }

  predicate WordKeys(data: seq<(string, Value)>) {
    forall i :: 0 <= i < |data| ==> IsTagName(data[i].0)
  }

  /** The marks that can follow the two opening braces of a tag. */
  predicate IsSigil(c: string) {
    c == "" || c == "#" || c == "^" || c == "/"
  }

  /** The tag `{{` sigil name `}}`. */
  function Tag(c: string, k: string): string { "{{" + (c + k + "}}") }

  lemma TagForms(k: string)
    ensures Placeholder(k) == Tag("", k)
    ensures OpenShown(k) == Tag("#", k) && OpenHidden(k) == Tag("^", k) && Close(k) == Tag("/", k)
  {
    assert "" + k == k;
  }

  lemma NameHasNoBrace(k: string)
    requires IsTagName(k)
    ensures '{' !in k && '}' !in k && k[0] != '#' && k[0] != '^' && k[0] != '/'
  {
    forall i | 0 <= i < |k|
      ensures k[i] != '{' && k[i] != '}'
    {
      assert IsWordChar(k[i]);
    }
    assert IsWordChar(k[0]);
  }

  /** After the braces, a tag matches another one exactly when both sigil
      and name agree: names are words, so neither can run into the other's
      closing braces. */
  lemma TagPrefix(c: string, w: string, rest: string, d: string, k: string)
    requires IsSigil(c) && IsSigil(d) && IsTagName(w) && IsTagName(k)
    ensures StartsWith(c + w + "}}" + rest, d + k + "}}") <==> c == d && k == w
  {
    var s := c + w + "}}" + rest;
    var q := d + k + "}}";
    if c == d && k == w {
      assert s[..|q|] == q;
    } else {
      NoTagPrefix(c, w, rest, d, k);
    }
  }

  lemma NoTagPrefix(c: string, w: string, rest: string, d: string, k: string)
    requires IsSigil(c) && IsSigil(d) && IsTagName(w) && IsTagName(k)
    ensures StartsWith(c + w + "}}" + rest, d + k + "}}") ==> c == d && k == w
  {
    if StartsWith(c + w + "}}" + rest, d + k + "}}") {
      SigilsAgree(c, w, rest, d, k);
      NamesAgree(c, w, rest, k);
    }
  }

  lemma SigilsAgree(c: string, w: string, rest: string, d: string, k: string)
    requires IsSigil(c) && IsSigil(d) && IsTagName(w) && IsTagName(k)
    requires StartsWith(c + w + "}}" + rest, d + k + "}}")
    ensures c == d
  {
    var s := c + w + "}}" + rest;
    var q := d + k + "}}";
    NameHasNoBrace(w);
    NameHasNoBrace(k);
    assert s[0] == s[..|q|][0] == q[0];
  }

  lemma NamesAgree(c: string, w: string, rest: string, k: string)
    requires IsTagName(w) && IsTagName(k)
    requires StartsWith(c + w + "}}" + rest, c + k + "}}")
    ensures k == w
  {
    var s := c + w + "}}" + rest;
    var q := c + k + "}}";
    NameHasNoBrace(w);
    NameHasNoBrace(k);
    var n := |c|;
    assert forall j :: 0 <= j < |q| ==> s[j] == q[j] by {
      assert s[..|q|] == q;
    }
    assert forall j :: 0 <= j < |w| ==> s[n + j] == w[j] && w[j] != '}';
    assert forall j :: 0 <= j < |k| ==> q[n + j] == k[j] && k[j] != '}';
    assert s[n + |w|] == '}' && q[n + |k|] == '}';
    assert |k| == |w|;
    assert k == w;
  }

  /** Literal text without the pattern's first character adds no
      occurrence. */
  lemma {:induction false} ContainsSkip(a: string, s: string, p: string)
    requires |p| > 0 && p[0] !in a
    ensures Contains(a + s, p) <==> Contains(s, p)
    decreases |a|
  {
    if a != [] {
      assert (a + s)[0] == a[0];
      assert !StartsWith(a + s, p);
      assert (a + s)[1..] == a[1..] + s;
      ContainsSkip(a[1..], s, p);
    } else {
      assert a + s == s;
    }
  }

  /** Two braces followed by something else than a brace: a pattern that
      starts with two braces occurs at the front or further on. */
  lemma ContainsAfterBraces(r: string, q: string)
    requires |r| > 0 && r[0] != '{'
    ensures Contains("{{" + r, "{{" + q) <==> StartsWith(r, q) || Contains(r, "{{" + q)
  {
    var s := "{{" + r;
    var p := "{{" + q;
    assert StartsWith(s, p) <==> StartsWith(r, q) by {
      if |p| <= |s| {
        assert s[..|p|] == "{{" + r[..|q|];
        if s[..|p|] == p {
          assert s[..|p|][2..] == r[..|q|] && p[2..] == q;
        }
      }
    }
    assert s[1..] == "{" + r;
    assert !StartsWith(s[1..], p) by {
      if |p| <= |s[1..]| {
        assert s[1..][1] == r[0];
      }
    }
    assert s[1..][1..] == r;
  }

  /** A tag in '{'-free text: a tag pattern occurs exactly when it is that
      tag or occurs after it. */
  lemma ScanTag(a: string, c: string, w: string, rest: string, d: string, k: string)
    requires '{' !in a && IsSigil(c) && IsSigil(d) && IsTagName(w) && IsTagName(k)
    ensures Contains(a + Tag(c, w) + rest, Tag(d, k)) <==> (c == d && k == w) || Contains(rest, Tag(d, k))
  {
    var r := c + w + "}}" + rest;
    assert a + Tag(c, w) + rest == a + ("{{" + r);
    ContainsSkip(a, "{{" + r, Tag(d, k));
    NameHasNoBrace(w);
    assert r[0] != '{';
    ContainsAfterBraces(r, d + k + "}}");
    TagPrefix(c, w, rest, d, k);
    var lit := c + w + "}}";
    assert '{' !in lit;
    assert r == lit + rest;
    ContainsSkip(lit, rest, Tag(d, k));
  }

  /** The tags of a template with one tag in '{'-free text. */
  lemma OneTag(a: string, c: string, w: string, b: string, d: string, k: string)
    requires '{' !in a && '{' !in b && IsSigil(c) && IsSigil(d) && IsTagName(w) && IsTagName(k)
    ensures Contains(a + Tag(c, w) + b, Tag(d, k)) <==> c == d && k == w
  {
    ScanTag(a, c, w, b, d, k);
    NoBraceNoOpen(b, Tag(d, k));
  }

  /** The tags of a template with two tags in '{'-free text. */
  lemma TwoTags(a: string, c1: string, w1: string, m: string, c2: string, w2: string, b: string, d: string, k: string)
    requires '{' !in a && '{' !in m && '{' !in b
    requires IsSigil(c1) && IsSigil(c2) && IsSigil(d) && IsTagName(w1) && IsTagName(w2) && IsTagName(k)
    ensures Contains(a + Tag(c1, w1) + m + Tag(c2, w2) + b, Tag(d, k)) <==> (c1 == d && k == w1) || (c2 == d && k == w2)
  {
    assert a + Tag(c1, w1) + m + Tag(c2, w2) + b == a + Tag(c1, w1) + (m + Tag(c2, w2) + b);
    ScanTag(a, c1, w1, m + Tag(c2, w2) + b, d, k);
    OneTag(m, c2, w2, b, d, k);
  }

  lemma {:induction false} PlaceholdersAppend(t: string, d1: seq<(string, Value)>, d2: seq<(string, Value)>)
    ensures Placeholders(t, d1 + d2) == Placeholders(Placeholders(t, d1), d2)
    decreases |d2|
  {
    if d2 == [] {
      assert d1 + d2 == d1;
    } else {
      assert (d1 + d2)[..|d1 + d2| - 1] == d1 + d2[..|d2| - 1];
      PlaceholdersAppend(t, d1, d2[..|d2| - 1]);
    }
  }

  lemma {:induction false} ConditionalsAppend(t: string, d1: seq<(string, Value)>, d2: seq<(string, Value)>)
    ensures Conditionals(t, d1 + d2) == Conditionals(Conditionals(t, d1), d2)
    decreases |d2|
  {
    if d2 == [] {
      assert d1 + d2 == d1;
    } else {
      assert (d1 + d2)[..|d1 + d2| - 1] == d1 + d2[..|d2| - 1];
      ConditionalsAppend(t, d1, d2[..|d2| - 1]);
    }
  }

  /** Text without '{' holds no tag, so neither loop changes it. */
  lemma BraceFreeFixed(u: string, data: seq<(string, Value)>)
    requires '{' !in u
    ensures Placeholders(u, data) == u && Conditionals(u, data) == u
  {
    forall i | 0 <= i < |data|
      ensures !MentionsKey(u, data[i].0)
    {
      NoBraceNoOpen(u, Placeholder(data[i].0));
      NoBraceNoOpen(u, OpenShown(data[i].0));
      NoBraceNoOpen(u, OpenHidden(data[i].0));
    }
    UnmentionedUnchanged(u, data);
  }

  /** The data around entry i: the entries before it, it, and those after. */
  lemma SplitAt(data: seq<(string, Value)>, i: nat)
    requires i < |data|
    ensures data == data[..i] + [data[i]] + data[i + 1..]
    ensures (data[..i] + [data[i]])[..i] == data[..i]
  {
  }

  /** A template whose only tag is a placeholder the data lacks mentions no
      data key. */
  lemma UnknownOnlyTag(a: string, key: string, b: string, data: seq<(string, Value)>)
    requires '{' !in a && '{' !in b && IsTagName(key) && WordKeys(data)
    requires forall j :: 0 <= j < |data| ==> data[j].0 != key
    ensures forall j :: 0 <= j < |data| ==> !MentionsKey(a + Placeholder(key) + b, data[j].0)
  {
    TagForms(key);
    forall j | 0 <= j < |data|
      ensures !MentionsKey(a + Placeholder(key) + b, data[j].0)
    {
      var k := data[j].0;
      TagForms(k);
      OneTag(a, "", key, b, "", k);
      OneTag(a, "", key, b, "#", k);
      OneTag(a, "", key, b, "^", k);
    }
  }

  /** A placeholder whose key the data lacks survives both loops, whatever
      the data holds. */
  lemma UnknownPlaceholderStays(a: string, key: string, b: string, data: seq<(string, Value)>)
    requires '{' !in a && '{' !in b && IsTagName(key) && WordKeys(data)
    requires forall j :: 0 <= j < |data| ==> data[j].0 != key
    ensures Conditionals(Placeholders(a + Placeholder(key) + b, data), data) == a + Placeholder(key) + b
  {
    UnknownOnlyTag(a, key, b, data);
    UnmentionedUnchanged(a + Placeholder(key) + b, data);
  }

  /** Beside a filled placeholder, a placeholder whose key the data lacks
      stays as it is: `a{{key}}m{{other}}b` becomes `avm{{other}}b`. */
  lemma UnknownBesideFilled(a: string, key: string, v: Value, m: string, other: string, b: string,
                            data: seq<(string, Value)>, i: nat)
    requires i < |data| && data[i] == (key, v) && IsPlaceholderValue(v)
    requires forall j :: 0 <= j < i ==> data[j].0 != key
    requires IsTagName(other) && forall j :: 0 <= j < |data| ==> data[j].0 != other
    requires WordKeys(data) && '{' !in a && '{' !in m && '{' !in b && '{' !in ValueText(v)
    ensures Conditionals(Placeholders(a + Placeholder(key) + m + Placeholder(other) + b, data), data)
         == a + ValueText(v) + m + Placeholder(other) + b
  {
    var t := a + Placeholder(key) + m + Placeholder(other) + b;
    var d1 := data[..i];
    var p := Placeholder(key);
    var po := Placeholder(other);
    TagForms(key);
    TagForms(other);
    forall j | 0 <= j < |d1|
      ensures !Contains(t, Placeholder(d1[j].0))
    {
      TagForms(d1[j].0);
      TwoTags(a, "", key, m, "", other, b, "", d1[j].0);
    }
    PlaceholdersUnchanged(t, d1);
    SplitAt(data, i);
    var text := ValueText(v);
    ReplaceBeside(a, key, m, other, b, text);
    var u := a + text + m + po + b;
    assert Placeholders(t, d1 + [data[i]]) == u;
    PlaceholdersAppend(t, d1 + [data[i]], data[i + 1..]);
    assert u == (a + text + m) + po + b;
    UnknownOnlyTag(a + text + m, other, b, data[i + 1..]);
    UnknownOnlyTag(a + text + m, other, b, data);
    UnmentionedUnchanged(u, data[i + 1..]);
    UnmentionedUnchanged(u, data);
  }

  /** Replacing `{{key}}` in `a{{key}}m{{other}}b` touches only the first
      tag. */
  lemma ReplaceBeside(a: string, key: string, m: string, other: string, b: string, text: string)
    requires IsTagName(key) && IsTagName(other) && key != other
    requires '{' !in a && '{' !in m && '{' !in b
    ensures ReplaceAll(a + Placeholder(key) + m + Placeholder(other) + b, Placeholder(key), text)
         == a + text + m + Placeholder(other) + b
  {
    var p := Placeholder(key);
    var tail := Placeholder(other) + b;
    OtherTagAbsent(key, other, b);
    ReplaceAbsent(tail, p, text);
    ReplaceSkipsLiteral(m, tail, p, text);
    ReplaceAtFront(p, m + tail, text);
    ReplaceSkipsLiteral(a, p + (m + tail), p, text);
    assert a + p + m + tail == a + (p + (m + tail));
    assert a + text + m + tail == a + (text + (m + tail));
    assert a + p + m + Placeholder(other) + b == a + p + m + tail;
    assert a + text + m + Placeholder(other) + b == a + text + m + tail;
  }

  lemma OtherTagAbsent(key: string, other: string, b: string)
    requires IsTagName(key) && IsTagName(other) && key != other && '{' !in b
    ensures !Contains(Placeholder(other) + b, Placeholder(key))
    ensures Placeholder(key)[0] == '{'
  {
    TagForms(key);
    TagForms(other);
    assert "" + Tag("", other) + b == Placeholder(other) + b;
    OneTag("", "", other, b, "", key);
  }

  /** `a{{key}}b` holds the placeholder of no other word key. */
  lemma OtherPlaceholdersAbsent(a: string, key: string, b: string, data: seq<(string, Value)>)
    requires IsTagName(key) && WordKeys(data) && '{' !in a && '{' !in b
    requires forall j :: 0 <= j < |data| ==> data[j].0 != key
    ensures forall j :: 0 <= j < |data| ==> !Contains(a + Placeholder(key) + b, Placeholder(data[j].0))
  {
    TagForms(key);
    forall j | 0 <= j < |data|
      ensures !Contains(a + Placeholder(key) + b, Placeholder(data[j].0))
    {
      TagForms(data[j].0);
      OneTag(a, "", key, b, "", data[j].0);
    }
  }

  /** A scalar value fills its placeholder within any data: `a{{key}}b`
      becomes `avb` when the text around and the value hold no '{', the
      data keys are words, and no earlier entry has the same key. */
  lemma PlaceholderFilledInData(a: string, key: string, v: Value, b: string, data: seq<(string, Value)>, i: nat)
    requires i < |data| && data[i] == (key, v) && IsPlaceholderValue(v)
    requires forall j :: 0 <= j < i ==> data[j].0 != key
    requires WordKeys(data) && '{' !in a && '{' !in b && '{' !in ValueText(v)
    ensures Conditionals(Placeholders(a + Placeholder(key) + b, data), data) == a + ValueText(v) + b
  {
    var t := a + Placeholder(key) + b;
    var d1 := data[..i];
    OtherPlaceholdersAbsent(a, key, b, d1);
    PlaceholdersUnchanged(t, d1);
    SplitAt(data, i);
    ReplaceSingle(a, key, b, ValueText(v));
    var u := a + ValueText(v) + b;
    assert Placeholders(t, d1 + [data[i]]) == u;
    PlaceholdersAppend(t, d1 + [data[i]], data[i + 1..]);
    BraceFreeFixed(u, data[i + 1..]);
    BraceFreeFixed(u, data);
  }

  /** A flag keeps a `{{#key}}` section exactly when its value is truthy,
      within any data: boolean values and values of the flag names alike. */
  lemma ShownSectionFollowsValue(a: string, key: string, v: Value, x: string, b: string, data: seq<(string, Value)>, i: nat)
    requires i < |data| && data[i] == (key, v) && IsFlag(key, v)
    requires forall j :: 0 <= j < i ==> data[j].0 != key
    requires WordKeys(data) && '{' !in a && '{' !in x && '{' !in b
    ensures Conditionals(Placeholders(a + OpenShown(key) + x + Close(key) + b, data), data)
         == a + (if ValueTruthy(v) then x else "") + b
  {
    var t := a + OpenShown(key) + x + Close(key) + b;
    var d1 := data[..i];
    TagForms(key);
    forall j | 0 <= j < |data|
      ensures !Contains(t, Placeholder(data[j].0))
      ensures j < i ==> !Contains(t, OpenShown(data[j].0)) && !Contains(t, OpenHidden(data[j].0))
    {
      var k := data[j].0;
      TagForms(k);
      TwoTags(a, "#", key, x, "/", key, b, "", k);
      TwoTags(a, "#", key, x, "/", key, b, "#", k);
      TwoTags(a, "#", key, x, "/", key, b, "^", k);
    }
    PlaceholdersUnchanged(t, data);
    ConditionalsUnchanged(t, d1);
    SplitAt(data, i);
    var flag := ValueTruthy(v);
    SectionExpands(a, x, b, OpenShown(key), Close(key), flag);
    var u := a + (if flag then x else "") + b;
    assert '{' !in u;
    NoBraceNoOpen(u, OpenHidden(key));
    SectionsAbsent(u, OpenHidden(key), Close(key), !flag);
    assert Conditionals(t, d1 + [data[i]]) == u;
    ConditionalsAppend(t, d1 + [data[i]], data[i + 1..]);
    BraceFreeFixed(u, data[i + 1..]);
  }

  /** A flag keeps a `{{^key}}` section exactly when its value is falsy,
      within any data. */
  lemma HiddenSectionFollowsValue(a: string, key: string, v: Value, x: string, b: string, data: seq<(string, Value)>, i: nat)
    requires i < |data| && data[i] == (key, v) && IsFlag(key, v)
    requires forall j :: 0 <= j < i ==> data[j].0 != key
    requires WordKeys(data) && '{' !in a && '{' !in x && '{' !in b
    ensures Conditionals(Placeholders(a + OpenHidden(key) + x + Close(key) + b, data), data)
         == a + (if ValueTruthy(v) then "" else x) + b
  {
    var t := a + OpenHidden(key) + x + Close(key) + b;
    var d1 := data[..i];
    TagForms(key);
    forall j | 0 <= j < |data|
      ensures !Contains(t, Placeholder(data[j].0))
      ensures j < i ==> !Contains(t, OpenShown(data[j].0)) && !Contains(t, OpenHidden(data[j].0))
    {
      var k := data[j].0;
      TagForms(k);
      TwoTags(a, "^", key, x, "/", key, b, "", k);
      TwoTags(a, "^", key, x, "/", key, b, "#", k);
      TwoTags(a, "^", key, x, "/", key, b, "^", k);
    }
    PlaceholdersUnchanged(t, data);
    ConditionalsUnchanged(t, d1);
    SplitAt(data, i);
    var flag := ValueTruthy(v);
    NameHasNoBrace(key);
    ShownPassSkipsHidden(a, key, x, b, flag);
    SectionExpands(a, x, b, OpenHidden(key), Close(key), !flag);
    var u := a + (if flag then "" else x) + b;
    assert '{' !in u;
    assert Conditionals(t, d1 + [data[i]]) == u;
    ConditionalsAppend(t, d1 + [data[i]], data[i + 1..]);
    BraceFreeFixed(u, data[i + 1..]);
  }
}
