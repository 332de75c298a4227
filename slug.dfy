/** `slugify` of lib/utils.php: the branch-name fragment made from an issue
    title. */
module Slug {
  import opened Text

  /** A character of the class [a-z0-9]. */
  predicate IsSlugChar(c: char) {
    ('a' <= c <= 'z') || IsDigit(c)
  }

  /** No two adjacent hyphens. */
  predicate NoDoubleDash(s: string) {
    forall i :: 0 <= i < |s| - 1 ==> !(s[i] == '-' && s[i + 1] == '-')
  }

  /** What slugify promises of its output: only [a-z0-9-], no hyphen at
      either end, no "--", at most 50 characters. */
  predicate IsSlug(s: string) {
    && (forall i :: 0 <= i < |s| ==> IsSlugChar(s[i]) || s[i] == '-')
    && (s != [] ==> s[0] != '-' && s[|s| - 1] != '-')
    && NoDoubleDash(s)
    && |s| <= 50
  }

  /** The text after a leading run of characters outside [a-z0-9]. */
  function DropRun(s: string): (r: string)
    ensures |r| <= |s|
    ensures r != [] ==> IsSlugChar(r[0])
    ensures (s == [] || IsSlugChar(s[0])) ==> r == s
  {
    if s != [] && !IsSlugChar(s[0]) then DropRun(s[1..]) else s
  }

  /** `preg_replace('/[^a-z0-9]+/', '-', s)`: every maximal run of
      characters outside [a-z0-9] becomes a single hyphen. */
  function CollapseRuns(s: string): (r: string)
    ensures forall i :: 0 <= i < |r| ==> IsSlugChar(r[i]) || r[i] == '-'
    ensures NoDoubleDash(r)
    ensures r != [] && r[0] == '-' ==> s != [] && !IsSlugChar(s[0])
    ensures s != [] ==> r != []
    decreases |s|
  {
    if s == [] then []
    else if IsSlugChar(s[0]) then [s[0]] + CollapseRuns(s[1..])
    else "-" + CollapseRuns(DropRun(s[1..]))
  }

  /** slugify: ASCII lower-casing, run collapsing, trimming hyphens and the
      length limit. */
  function Slugify(text: string): (r: string)
    ensures IsSlug(r)
  {
    var collapsed := CollapseRuns(Lower(text));
    assert SlugText(collapsed);
    TrimmedSlugText(collapsed);
    Shorten(Trim(collapsed, {'-'}))
  }

  /** The length limit of slugify: a text longer than 50 characters is cut
      to 50 and loses its trailing hyphens; a shorter one is kept. The
      result is a prefix of the text, and a slug when the text is a
      hyphen-trimmed SlugText. */
  function Shorten(t: string): (r: string)
    ensures |r| <= 50 && |r| <= |t| && r == t[..|r|]
    ensures |t| <= 50 ==> r == t
    ensures |t| > 50 ==> r == TrimRight(t[..50], {'-'})
    ensures SlugText(t) && (t != [] ==> t[0] != '-' && t[|t| - 1] != '-') ==> IsSlug(r)
  {
    if |t| > 50 then
      var c := TrimRight(t[..50], {'-'});
      assert c == t[..|c|] == t[0..|c|];
      assert SlugText(t) ==> SlugText(t[0..|c|]) by {
        if SlugText(t) { SliceSlug(t, 0, |c|); }
      }
      c
    else
      assert t[..|t|] == t;
      t
  }

  /** Text over [a-z0-9-] without two adjacent hyphens. */
  predicate SlugText(s: string) {
    (forall i :: 0 <= i < |s| ==> IsSlugChar(s[i]) || s[i] == '-') && NoDoubleDash(s)
  }

  /** A slice of a hyphen-run-free text over [a-z0-9-] is again one. */
  lemma SliceSlug(s: string, a: nat, b: nat)
    requires a <= b <= |s| && SlugText(s)
    ensures SlugText(s[a..b])
  {
    var t := s[a..b];
    forall i | 0 <= i < |t| - 1
      ensures !(t[i] == '-' && t[i + 1] == '-')
    {
      assert t[i] == s[a + i] && t[i + 1] == s[a + i + 1];
    }
  }

  /** Trimming hyphens keeps a hyphen-run-free text over [a-z0-9-] one. */
  lemma TrimmedSlugText(s: string)
    requires SlugText(s)
    ensures SlugText(Trim(s, {'-'}))
  {
    var l := TrimLeft(s, {'-'});
    SliceSlug(s, |s| - |l|, |s|);
    assert s[|s| - |l|..|s|] == l;
    var t := Trim(s, {'-'});
    assert t == l[..|t|] == l[0..|t|];
    SliceSlug(l, 0, |t|);
  }

  /** Run collapsing leaves a text without runs untouched. */
  lemma {:induction false} CollapseNoRuns(s: string)
    requires forall i :: 0 <= i < |s| ==> IsSlugChar(s[i]) || s[i] == '-'
    requires NoDoubleDash(s)
    ensures CollapseRuns(s) == s
    decreases |s|
  {
    if s != [] {
      CollapseNoRuns(s[1..]);
      if !IsSlugChar(s[0]) {
        assert |s| > 1 ==> s[1] != '-';
        assert DropRun(s[1..]) == s[1..];
        assert s == "-" + s[1..];
      } else {
        assert s == [s[0]] + s[1..];
      }
    }
  }

  lemma LowerSlug(s: string)
    requires forall i :: 0 <= i < |s| ==> IsSlugChar(s[i]) || s[i] == '-'
    ensures Lower(s) == s
  {
  }

  /** A slug is a fixed point of slugify. */
  lemma SlugFixpoint(s: string)
    requires IsSlug(s)
    ensures Slugify(s) == s
  {
    LowerSlug(s);
    CollapseNoRuns(s);
    assert CollapseRuns(Lower(s)) == s;
    TrimKeeps(s, {'-'});
  }

  /** slugify is idempotent. */
  lemma SlugifyIdempotent(text: string)
    ensures Slugify(Slugify(text)) == Slugify(text)
  {
    SlugFixpoint(Slugify(text));
  }
}
