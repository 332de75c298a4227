/** String primitives of PHP and JavaScript that the system relies on,
    written out over `seq<char>`: truthiness, prefix tests, `str_replace`,
    `trim`, `explode`/`implode` and integer formatting. */
module Text {
  import opened Wrappers

  /** PHP's truthiness of a string: "" and "0" are falsy, all else truthy. */
  predicate Truthy(s: string) {
    s != "" && s != "0"
  }

  /** Truthiness of a value that may be null (absent). */
  predicate TruthyOpt(o: Option<string>) {
    o.Some? && Truthy(o.value)
  }

  predicate StartsWith(s: string, p: string) {
    |p| <= |s| && s[..|p|] == p
  }

  predicate EndsWith(s: string, p: string) {
    |p| <= |s| && s[|s| - |p|..] == p
  }

  /** A text does not end with p when the character of p just before the
      last |t| ones differs from the last character in front of t. */
  lemma SuffixMismatch(h: string, t: string, p: string)
    requires 0 < |h| && |t| < |p|
    requires p[|p| - |t| - 1] != h[|h| - 1]
    ensures !EndsWith(h + t, p)
  {
  }

  /** `p` occurs somewhere in `s`. */
  predicate Contains(s: string, p: string)
    decreases |s|
  {
    StartsWith(s, p) || (|s| > 0 && Contains(s[1..], p))
  }

  predicate IsDigit(c: char) {
    '0' <= c <= '9'
  }

  predicate AllDigits(s: string) {
    forall i :: 0 <= i < |s| ==> IsDigit(s[i])
  }

  /** A character of the class `\w` of PCRE and JavaScript: [A-Za-z0-9_]. */
  predicate IsWordChar(c: char) {
    ('a' <= c <= 'z') || ('A' <= c <= 'Z') || IsDigit(c) || c == '_'
  }

  /** A character of the class `\s` of PCRE: space, \t, \n, \v, \f, \r. */
  predicate IsPcreSpace(c: char) {
    c == ' ' || c == '\t' || c == '\n' || c == '\U{B}' || c == '\U{C}' || c == '\r'
  }

  /** The characters PHP's `trim` removes when given no character list. */
  const PhpWhitespace: set<char> := {' ', '\t', '\n', '\r', '\0', '\U{B}'}

  /** ASCII lower-casing, as PHP 8's `strtolower` does. */
  function LowerChar(c: char): char {
    if 'A' <= c <= 'Z' then (c as int + 32) as char else c
  }

  function Lower(s: string): (r: string)
    ensures |r| == |s|
    ensures forall i :: 0 <= i < |s| ==> r[i] == LowerChar(s[i])
  {
    seq(|s|, i requires 0 <= i < |s| => LowerChar(s[i]))
  }

  /** PHP `str_replace(p, v, s)` for one search string: every
      non-overlapping occurrence of `p`, scanned left to right, becomes `v`;
      the inserted text is not scanned again. An empty `p` changes nothing. */
  function ReplaceAll(s: string, p: string, v: string): string
    decreases |s|
  {
    if |p| == 0 || |s| < |p| then s
    else if s[..|p|] == p then v + ReplaceAll(s[|p|..], p, v)
    else [s[0]] + ReplaceAll(s[1..], p, v)
  }

  /** The position of the first occurrence of `p` in `s` (PHP `strpos`). */
  function Find(s: string, p: string): (r: Option<nat>)
    ensures r.Some? ==> r.value + |p| <= |s| && s[r.value..r.value + |p|] == p
    ensures r.Some? ==> forall k :: 0 <= k < r.value ==> !StartsWith(s[k..], p)
    ensures r.None? ==> forall k :: 0 <= k <= |s| ==> !StartsWith(s[k..], p)
    decreases |s|
  {
    if StartsWith(s, p) then Some(0)
    else if |s| == 0 then None
    else match Find(s[1..], p)
      case None => assert forall k :: 1 <= k <= |s| ==> s[k..] == s[1..][k - 1..]; None
      case Some(k) => assert forall j :: 1 <= j <= |s| ==> s[j..] == s[1..][j - 1..]; Some(k + 1)
  }

  /** A search string that is absent leaves the subject as it is. */
  lemma {:induction false} ReplaceAbsent(s: string, p: string, v: string)
    requires !Contains(s, p)
    ensures ReplaceAll(s, p, v) == s
    decreases |s|
  {
    if |p| == 0 || |s| < |p| {
    } else {
      assert s[..|p|] != p;
      ReplaceAbsent(s[1..], p, v);
    }
  }

  /** Literal text that cannot begin an occurrence is copied through. */
  lemma {:induction false} ReplaceSkipsLiteral(a: string, b: string, p: string, v: string)
    requires |p| > 0 && p[0] !in a
    ensures ReplaceAll(a + b, p, v) == a + ReplaceAll(b, p, v)
    decreases |a|
  {
    if a != [] {
      var s := a + b;
      if |s| >= |p| {
        assert s[..|p|][0] == a[0];
        assert s[1..] == a[1..] + b;
        ReplaceSkipsLiteral(a[1..], b, p, v);
        calc {
          ReplaceAll(s, p, v);
          [a[0]] + ReplaceAll(a[1..] + b, p, v);
          [a[0]] + (a[1..] + ReplaceAll(b, p, v));
          { assert [a[0]] + a[1..] == a; }
          a + ReplaceAll(b, p, v);
        }
      } else {
        assert ReplaceAll(b, p, v) == b;
      }
    } else {
      assert a + b == b;
    }
  }

  /** An occurrence at the front is replaced by the value. */
  lemma ReplaceAtFront(p: string, b: string, v: string)
    requires |p| > 0
    ensures ReplaceAll(p + b, p, v) == v + ReplaceAll(b, p, v)
  {
    assert (p + b)[..|p|] == p;
    assert (p + b)[|p|..] == b;
  }

  /** PHP `ltrim(s, cs)`. */
  function TrimLeft(s: string, cs: set<char>): (r: string)
    ensures |r| <= |s| && r == s[|s| - |r|..]
    ensures r != [] ==> r[0] !in cs
    ensures forall i :: 0 <= i < |s| - |r| ==> s[i] in cs
  {
    if s != [] && s[0] in cs then TrimLeft(s[1..], cs) else s
  }

  /** PHP `rtrim(s, cs)`. */
  function TrimRight(s: string, cs: set<char>): (r: string)
    ensures |r| <= |s| && r == s[..|r|]
    ensures r != [] ==> r[|r| - 1] !in cs
    ensures forall i :: |r| <= i < |s| ==> s[i] in cs
  {
    if s != [] && s[|s| - 1] in cs then TrimRight(s[..|s| - 1], cs) else s
  }

  /** PHP `trim(s, cs)`. */
  function Trim(s: string, cs: set<char>): (r: string)
    ensures r != [] ==> r[0] !in cs && r[|r| - 1] !in cs
  {
    TrimRight(TrimLeft(s, cs), cs)
  }

  /** Text that neither starts nor ends with a trimmed character is left as
      it is. */
  lemma TrimKeeps(s: string, cs: set<char>)
    requires s != [] ==> s[0] !in cs && s[|s| - 1] !in cs
    ensures Trim(s, cs) == s
  {
    assert TrimLeft(s, cs) == s;
  }

  /** The position of the first occurrence of `c` in `s`, if any. */
  function IndexOf(s: string, c: char): (r: Option<nat>)
    ensures r.Some? ==> r.value < |s| && s[r.value] == c && c !in s[..r.value]
    ensures r.None? ==> c !in s
  {
    if s == [] then None
    else if s[0] == c then Some(0)
    else match IndexOf(s[1..], c)
      case None => None
      case Some(k) => assert s[..k + 1] == [s[0]] + s[1..][..k]; Some(k + 1)
  }

  /** The first `c` of `a + [c] + b` is the one after `a` when `a` has none. */
  lemma {:induction false} IndexOfAfter(a: string, c: char, b: string)
    requires c !in a
    ensures IndexOf(a + [c] + b, c) == Some(|a|)
  {
    if a != [] {
      assert (a + [c] + b)[1..] == a[1..] + [c] + b;
      IndexOfAfter(a[1..], c, b);
    }
  }

  /** PHP `explode(sep, s)` for a non-empty separator. */
  function Split(s: string, sep: string): (parts: seq<string>)
    requires |sep| > 0
    ensures |parts| >= 1
    decreases |s|
  {
    if |s| < |sep| then [s]
    else if s[..|sep|] == sep then [[]] + Split(s[|sep|..], sep)
    else
      var rest := Split(s[1..], sep);
      [[s[0]] + rest[0]] + rest[1..]
  }

  /** PHP `implode(sep, parts)`. */
  function Join(parts: seq<string>, sep: string): string
    decreases |parts|
  {
    if |parts| == 0 then ""
    else if |parts| == 1 then parts[0]
    else parts[0] + sep + Join(parts[1..], sep)
  }

  lemma JoinConsHead(c: char, parts: seq<string>, sep: string)
    requires |parts| >= 1
    ensures Join([[c] + parts[0]] + parts[1..], sep) == [c] + Join(parts, sep)
  {
    var q := [[c] + parts[0]] + parts[1..];
    if |parts| > 1 {
      assert q[1..] == parts[1..];
    }
  }

  /** Joining the pieces of a split with the same separator gives back the
      original text: `explode` loses nothing. */
  lemma {:induction false} JoinSplit(s: string, sep: string)
    requires |sep| > 0
    ensures Join(Split(s, sep), sep) == s
    decreases |s|
  {
    if |s| < |sep| {
    } else if s[..|sep|] == sep {
      JoinSplit(s[|sep|..], sep);
      var rest := Split(s[|sep|..], sep);
      assert ([[]] + rest)[1..] == rest;
      assert s == s[..|sep|] + s[|sep|..];
    } else {
      JoinSplit(s[1..], sep);
      JoinConsHead(s[0], Split(s[1..], sep), sep);
      assert s == [s[0]] + s[1..];
    }
  }

  function DigitChar(d: nat): char
    requires d < 10
  {
    (d + '0' as int) as char
  }

  function DigitValue(c: char): nat
    requires IsDigit(c)
  {
    c as int - '0' as int
  }

  /** PHP `strval` / JavaScript template formatting of a natural number. */
  function NatToString(n: nat): string
    decreases n
  {
    if n < 10 then [DigitChar(n)] else NatToString(n / 10) + [DigitChar(n % 10)]
  }

  /** The value of a string of decimal digits (PHP `intval` on digits). */
  function DigitsValue(s: string): nat
    requires AllDigits(s)
  {
    if s == [] then 0 else DigitsValue(s[..|s| - 1]) * 10 + DigitValue(s[|s| - 1])
  }

  /** Formatting a natural number yields digits without a leading zero that
      read back as the same number. */
  lemma {:induction false} NatToStringRoundTrip(n: nat)
    ensures AllDigits(NatToString(n)) && |NatToString(n)| > 0
    ensures DigitsValue(NatToString(n)) == n
    ensures |NatToString(n)| > 1 ==> NatToString(n)[0] != '0'
    decreases n
  {
    if n >= 10 {
      NatToStringRoundTrip(n / 10);
      var s := NatToString(n);
      assert s[..|s| - 1] == NatToString(n / 10);
    }
  }

  /** PHP `strval` of an integer. */
  function IntToString(i: int): string {
    if i < 0 then "-" + NatToString(-i) else NatToString(i)
  }

  /** PHP `intval` of an optionally signed decimal string. */
  function ParseInt(s: string): Option<int> {
    if |s| > 0 && s[0] == '-' && |s| > 1 && AllDigits(s[1..]) then Some(-(DigitsValue(s[1..]) as int))
    else if |s| > 0 && AllDigits(s) then Some(DigitsValue(s))
    else None
  }

  lemma IntToStringRoundTrip(i: int)
    ensures ParseInt(IntToString(i)) == Some(i)
  {
    var s := IntToString(i);
    if i < 0 {
      NatToStringRoundTrip(-i);
      assert s[0] == '-' && s[1..] == NatToString(-i);
      assert ParseInt(s) == Some(-(DigitsValue(s[1..]) as int));
    } else {
      NatToStringRoundTrip(i);
      assert s == NatToString(i) && IsDigit(s[0]);
      assert ParseInt(s) == Some(DigitsValue(s));
    }
  }
}
