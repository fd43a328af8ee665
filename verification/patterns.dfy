/** The three regular expressions of `extract_intelligence`, as explicit
    scanners over ASCII text:
      phone numbers    `\+?\d{10,13}`
      payment handles  `\b[\w.\-]{2,}@\w+\b`
      links            `https?://\S+`
    `MatchAt` is the pattern anchored at one position; `Scan` is
    `re.findall`, which tries positions left to right and resumes after the
    end of each match. For these three patterns the backtracking matcher
    always ends at the longest span of the token's shape, and the lemmas
    below prove `MatchAt` returns exactly that span. */
module Patterns {

  import opened Wrappers
  import opened Text

  /** `\d` on ASCII. */
  predicate IsDigit(c: char) {
    '0' <= c <= '9'
  }

  /** `\w` on ASCII: letters, digits and the underscore. */
  predicate IsWordChar(c: char) {
    'a' <= c <= 'z' || 'A' <= c <= 'Z' || IsDigit(c) || c == '_'
  }

  /** The local-part class `[\w.\-]` of the handle pattern. */
  predicate IsLocalChar(c: char) {
    IsWordChar(c) || c == '.' || c == '-'
  }

  /** `\s` on ASCII: space, tab, line feed, vertical tab, form feed,
      carriage return and the four separator controls 0x1C-0x1F. */
  predicate IsSpace(c: char) {
    c == ' ' || '\U{0009}' <= c <= '\U{000D}' || '\U{001C}' <= c <= '\U{001F}'
  }

  predicate IsNonSpace(c: char) {
    !IsSpace(c)
  }

  function Min(a: nat, b: nat): nat {
    if a <= b then a else b
  }

  /** Length of the longest run of characters satisfying `p` that starts at
      index `i` of `s` (what a greedy `p*` consumes). */
  function Span(s: String, i: nat, p: char -> bool): (n: nat)
    requires i <= |s|
    ensures i + n <= |s|
    ensures forall k :: i <= k < i + n ==> p(s[k])
    ensures i + n == |s| || !p(s[i + n])
    decreases |s| - i
  {
    if i == |s| || !p(s[i]) then 0 else 1 + Span(s, i + 1, p)
  }

  // ---------------------------------------------------------------------
  // Token shapes

  /** Ten to thirteen ASCII digits, optionally preceded by one `+`. */
  predicate IsPhone(m: String) {
    && |m| > 0
    && var k := if m[0] == '+' then 1 else 0;
       && 10 <= |m| - k <= 13
       && forall i :: k <= i < |m| ==> IsDigit(m[i])
  }

  /** `http://` or `https://` followed by at least one character, and no
      whitespace anywhere. */
  predicate IsLink(m: String) {
    && (("http://" <= m && |m| > 7) || ("https://" <= m && |m| > 8))
    && forall i :: 0 <= i < |m| ==> !IsSpace(m[i])
  }

  /** `m[a]` is the `@` of a handle: at least two local-part characters
      before it and at least one word character after it, nothing else. */
  predicate HandleSplit(m: String, a: int) {
    && 2 <= a < |m| - 1
    && m[a] == '@'
    && (forall i :: 0 <= i < a ==> IsLocalChar(m[i]))
    && (forall i :: a < i < |m| ==> IsWordChar(m[i]))
  }

  ghost predicate IsHandle(m: String) {
    exists a :: HandleSplit(m, a)
  }

  /** Python's `\b` at index `i`: a word character on exactly one side. */
  predicate WordBoundary(s: String, i: int) {
    (0 < i <= |s| && IsWordChar(s[i - 1])) != (0 <= i < |s| && IsWordChar(s[i]))
  }

  datatype Token = Phone | Handle | Link

  ghost predicate HasShape(t: Token, m: String) {
    match t
    case Phone => IsPhone(m)
    case Handle => IsHandle(m)
    case Link => IsLink(m)
  }

  /** `s[j..e]` is a token of kind `t` as the pattern sees it in context:
      of the right shape and, for handles, between word boundaries. */
  ghost predicate Accepts(t: Token, s: String, j: int, e: int) {
    && 0 <= j < e <= |s|
    && HasShape(t, s[j..e])
    && (t == Handle ==> WordBoundary(s, j) && WordBoundary(s, e))
  }

  /** `MatchAt` finds the longest accepted span starting at `j`, or reports
      that there is none. */
  ghost predicate IsLongestMatch(t: Token, s: String, j: int, r: Option<nat>) {
    match r
    case Some(e) => Accepts(t, s, j, e) && forall e' :: e < e' <= |s| ==> !Accepts(t, s, j, e')
    case None => forall e :: j < e <= |s| ==> !Accepts(t, s, j, e)
  }

  // ---------------------------------------------------------------------
  // Anchored matchers

  /** `\+?\d{10,13}` anchored at `j`: the optional `+` is taken when
      present, then up to thirteen digits; fewer than ten is no match. */
  function PhoneAt(s: String, j: nat): (r: Option<nat>)
    requires j < |s|
    ensures r.Some? ==> j < r.value <= |s|
  {
    var start := if s[j] == '+' then j + 1 else j;
    var n := Min(Span(s, start, IsDigit), 13);
    if n >= 10 then Some(start + n) else None
  }

  /** A non-empty `\S+` starting at `b`. */
  function NonSpaceRun(s: String, b: nat): (r: Option<nat>)
    requires b <= |s|
    ensures r.Some? ==> b < r.value <= |s|
  {
    var n := Span(s, b, IsNonSpace);
    if n > 0 then Some(b + n) else None
  }

  /** `https?://\S+` anchored at `j`. */
  function LinkAt(s: String, j: nat): (r: Option<nat>)
    requires j < |s|
    ensures r.Some? ==> j < r.value <= |s|
  {
    if "https://" <= s[j..] then NonSpaceRun(s, j + 8)
    else if "http://" <= s[j..] then NonSpaceRun(s, j + 7)
    else None
  }

  /** `\b[\w.\-]{2,}@\w+\b` anchored at `j`. The local part can only end
      where its class does, because `@` is not in the class; the domain can
      only end where the word run does, because of the closing `\b`. */
  function HandleAt(s: String, j: nat): (r: Option<nat>)
    requires j < |s|
    ensures r.Some? ==> j < r.value <= |s|
  {
    if !WordBoundary(s, j) then None
    else
      var a := j + Span(s, j, IsLocalChar);
      if a - j < 2 || a == |s| || s[a] != '@' then None
      else
        var e := a + 1 + Span(s, a + 1, IsWordChar);
        if e == a + 1 then None else Some(e)
  }

  function MatchAt(t: Token, s: String, j: nat): (r: Option<nat>)
    requires j < |s|
    ensures r.Some? ==> j < r.value <= |s|
  {
    match t
    case Phone => PhoneAt(s, j)
    case Handle => HandleAt(s, j)
    case Link => LinkAt(s, j)
  }

  // ---------------------------------------------------------------------
  // The anchored matchers are the longest accepted spans

  /** Every phone span at `j` has its digits start right after the optional
      `+`, and has no more digits than the run there. */
  lemma PhoneSpanBound(s: String, j: nat, e: int)
    requires j < |s| && Accepts(Phone, s, j, e)
    ensures var start := if s[j] == '+' then j + 1 else j;
      10 <= e - start <= 13 && e - start <= Span(s, start, IsDigit)
  {
    var start := if s[j] == '+' then j + 1 else j;
    var run := Span(s, start, IsDigit);
    var m := s[j..e];
    assert m[0] == s[j];
    if e - start > run {
      assert m[start + run - j] == s[start + run];
    }
  }

  lemma {:induction false} PhoneAtIsLongest(s: String, j: nat)
    requires j < |s|
    ensures IsLongestMatch(Phone, s, j, PhoneAt(s, j))
  {
    var start := if s[j] == '+' then j + 1 else j;
    var run := Span(s, start, IsDigit);
    var n := Min(run, 13);
    forall e | j < e <= |s| && Accepts(Phone, s, j, e)
      ensures e <= start + n && n >= 10
    {
      PhoneSpanBound(s, j, e);
    }
    if n >= 10 {
      var m := s[j..start + n];
      assert m[0] == s[j];
      forall i | start - j <= i < |m|
        ensures IsDigit(m[i])
      {
        assert m[i] == s[j + i];
      }
      assert IsPhone(m);
    }
  }

  /** A prefix `p` no longer than `m` is a prefix of `m` exactly when it is a
      prefix of any extension `x` of `m`. */
  lemma PrefixThrough(p: String, m: String, x: String)
    requires m <= x && |p| <= |m|
    ensures p <= m <==> p <= x
  {
    assert x[..|p|] == m[..|p|];
  }

  lemma SchemesExclusive(x: String)
    requires "https://" <= x
    ensures !("http://" <= x)
  {
    assert x[4] == 's';
  }

  /** Length of the scheme a link spelled from `x` would start with. */
  function SchemeLen(x: String): nat {
    if "https://" <= x then 8 else if "http://" <= x then 7 else 0
  }

  /** A link at `j` keeps the scheme `s` has at `j`, and its body lies in
      the non-space run after the scheme. */
  lemma LinkSpanBound(s: String, j: nat, e: int)
    requires j < |s| && Accepts(Link, s, j, e)
    ensures SchemeLen(s[j..]) > 0
    ensures var b := j + SchemeLen(s[j..]);
      b < e <= b + Span(s, b, IsNonSpace)
  {
    var m := s[j..e];
    assert m <= s[j..];
    assert SchemeLen(m) > 0 && SchemeLen(m) < |m| by {
      if "https://" <= m { SchemesExclusive(m); }
    }
    PrefixThrough("https://", m, s[j..]);
    PrefixThrough("http://", m, s[j..]);
    if "https://" <= m { SchemesExclusive(m); }
    if "https://" <= s[j..] { SchemesExclusive(s[j..]); }
    assert SchemeLen(s[j..]) == SchemeLen(m);
  }

  lemma {:induction false} LinkAtIsLongest(s: String, j: nat)
    requires j < |s|
    ensures IsLongestMatch(Link, s, j, LinkAt(s, j))
  {
    forall e | j < e <= |s| && Accepts(Link, s, j, e)
      ensures LinkAt(s, j).Some? && e <= LinkAt(s, j).value
    {
      LinkSpanBound(s, j, e);
    }
    if LinkAt(s, j).Some? {
      var b := j + SchemeLen(s[j..]);
      var e := LinkAt(s, j).value;
      var m := s[j..e];
      assert m[..b - j] == s[j..][..b - j];
      forall i | 0 <= i < |m|
        ensures !IsSpace(m[i])
      {
        assert m[i] == s[j + i];
      }
      assert IsLink(m);
    }
  }

  /** A handle accepted at `j` is unique: its `@` is where the local-part
      run from `j` stops, and its end is where the word run after the `@`
      stops. */
  lemma HandleSpanIsMatch(s: String, j: nat, e: int)
    requires j < |s| && Accepts(Handle, s, j, e)
    ensures HandleAt(s, j) == Some(e)
  {
    var m := s[j..e];
    var a' :| HandleSplit(m, a');
    var run := Span(s, j, IsLocalChar);
    var a := j + run;
    assert s[a] == m[a'];
  }

  lemma {:induction false} HandleAtIsLongest(s: String, j: nat)
    requires j < |s|
    ensures IsLongestMatch(Handle, s, j, HandleAt(s, j))
  {
    forall e | j < e <= |s| && Accepts(Handle, s, j, e)
      ensures HandleAt(s, j) == Some(e)
    {
      HandleSpanIsMatch(s, j, e);
    }
    if HandleAt(s, j).Some? {
      var a := j + Span(s, j, IsLocalChar);
      var e := HandleAt(s, j).value;
      var m := s[j..e];
      forall i | 0 <= i < |m|
        ensures m[i] == s[j + i]
      {
      }
      assert HandleSplit(m, a - j);
      assert WordBoundary(s, e) by {
        assert IsWordChar(s[e - 1]);
      }
    }
  }

  /** The anchored match of any pattern is its longest accepted span. */
  lemma MatchAtIsLongest(t: Token, s: String, j: nat)
    requires j < |s|
    ensures IsLongestMatch(t, s, j, MatchAt(t, s, j))
  {
    match t
    case Phone => PhoneAtIsLongest(s, j);
    case Handle => HandleAtIsLongest(s, j);
    case Link => LinkAtIsLongest(s, j);
  }

  // ---------------------------------------------------------------------
  // re.findall

  /** Some span of `r` covers index `j`. */
  ghost predicate Covered(r: seq<(nat, nat)>, j: int) {
    exists k :: 0 <= k < |r| && r[k].0 <= j < r[k].1
  }

  lemma CoveredByTail(r: seq<(nat, nat)>, x: (nat, nat), j: int)
    requires Covered(r, j)
    ensures Covered([x] + r, j)
  {
    var k :| 0 <= k < |r| && r[k].0 <= j < r[k].1;
    assert ([x] + r)[k + 1] == r[k];
  }

  /** The anchored match of pattern `t` at every position of `s`. */
  function Matches(t: Token, s: String): (ms: seq<Option<nat>>)
    ensures |ms| == |s|
    ensures forall j :: 0 <= j < |s| ==> ms[j] == MatchAt(t, s, j)
    ensures WellFormedTable(ms)
  {
    seq(|s|, j requires 0 <= j < |s| => MatchAt(t, s, j))
  }

  /** A table of anchored matches: every match ends after its start and
      inside the text. */
  predicate WellFormedTable(ms: seq<Option<nat>>) {
    forall j :: 0 <= j < |ms| && ms[j].Some? ==> j < ms[j].value <= |ms|
  }

  /** The spans `re.findall` reports when it starts searching at `pos`, given
      the anchored match at each position: try each position from the left,
      and after a match resume at its end. */
  function FindSpans(ms: seq<Option<nat>>, pos: nat): (r: seq<(nat, nat)>)
    requires pos <= |ms| && WellFormedTable(ms)
    ensures forall k :: 0 <= k < |r| ==>
      pos <= r[k].0 < r[k].1 <= |ms| && ms[r[k].0] == Some(r[k].1)
    decreases |ms| - pos
  {
    if pos == |ms| then []
    else if ms[pos].Some? then [(pos, ms[pos].value)] + FindSpans(ms, ms[pos].value)
    else FindSpans(ms, pos + 1)
  }

  /** The spans of `FindSpans` come in order and do not overlap. */
  lemma {:induction false} FindSpansOrdered(ms: seq<Option<nat>>, pos: nat)
    requires pos <= |ms| && WellFormedTable(ms)
    ensures forall a, b :: 0 <= a < b < |FindSpans(ms, pos)| ==>
      FindSpans(ms, pos)[a].1 <= FindSpans(ms, pos)[b].0
    decreases |ms| - pos
  {
    if pos < |ms| {
      if ms[pos].Some? {
        var e := ms[pos].value;
        var rest := FindSpans(ms, e);
        FindSpansOrdered(ms, e);
        var r := FindSpans(ms, pos);
        assert r == [(pos, e)] + rest;
        forall a, b | 0 <= a < b < |r|
          ensures r[a].1 <= r[b].0
        {
          assert r[b] == rest[b - 1];
          if a > 0 {
            assert r[a] == rest[a - 1];
          }
        }
      } else {
        FindSpansOrdered(ms, pos + 1);
      }
    }
  }

  /** Every position from `pos` on where something matches lies inside a
      span of `FindSpans`: each span starts at the leftmost match after the
      previous one, and nothing matches after the last. */
  lemma {:induction false} FindSpansLeftmost(ms: seq<Option<nat>>, pos: nat, j: nat)
    requires pos <= j < |ms| && WellFormedTable(ms) && ms[j].Some?
    ensures Covered(FindSpans(ms, pos), j)
    decreases |ms| - pos
  {
    var r := FindSpans(ms, pos);
    if ms[pos].Some? {
      var e := ms[pos].value;
      var rest := FindSpans(ms, e);
      assert r == [(pos, e)] + rest;
      if j < e {
        assert r[0].0 <= j < r[0].1;
      } else {
        FindSpansLeftmost(ms, e, j);
        CoveredByTail(rest, (pos, e), j);
      }
    } else {
      assert r == FindSpans(ms, pos + 1);
      FindSpansLeftmost(ms, pos + 1, j);
    }
  }

  /** `re.findall` of pattern `t` over `s`, as spans. */
  function Scan(t: Token, s: String): (r: seq<(nat, nat)>)
    ensures forall k :: 0 <= k < |r| ==>
      r[k].0 < r[k].1 <= |s| && MatchAt(t, s, r[k].0) == Some(r[k].1)
  {
    FindSpans(Matches(t, s), 0)
  }

  /** The spans of `Scan` come in order, do not overlap, and every position
      where the pattern matches lies inside one of them. */
  lemma ScanIsFindall(t: Token, s: String)
    ensures forall a, b :: 0 <= a < b < |Scan(t, s)| ==> Scan(t, s)[a].1 <= Scan(t, s)[b].0
    ensures forall j :: 0 <= j < |s| && MatchAt(t, s, j).Some? ==> Covered(Scan(t, s), j)
  {
    var ms := Matches(t, s);
    FindSpansOrdered(ms, 0);
    forall j | 0 <= j < |s| && MatchAt(t, s, j).Some?
      ensures Covered(Scan(t, s), j)
    {
      FindSpansLeftmost(ms, 0, j);
    }
  }

  /** Every span `Scan` reports is a token of the pattern's shape. */
  lemma ScanShapes(t: Token, s: String)
    ensures forall k :: 0 <= k < |Scan(t, s)| ==>
      var sp := Scan(t, s)[k]; HasShape(t, s[sp.0..sp.1])
  {
    var r := Scan(t, s);
    forall k | 0 <= k < |r|
      ensures HasShape(t, s[r[k].0..r[k].1])
    {
      MatchAtIsLongest(t, s, r[k].0);
    }
  }

  /** `ms` lists the substrings of `s` at `spans`, in the same order. */
  predicate TextsAt(ms: seq<String>, spans: seq<(nat, nat)>, s: String) {
    && |ms| == |spans|
    && forall i :: 0 <= i < |ms| ==>
      spans[i].0 <= spans[i].1 <= |s| && ms[i] == s[spans[i].0..spans[i].1]
  }

  /** `re.findall(pattern, s)`: the substrings at the spans `Scan` reports,
      left to right. Each is a substring of `s` and has the pattern's shape. */
  function FindAll(t: Token, s: String): (ms: seq<String>)
    ensures TextsAt(ms, Scan(t, s), s)
    ensures forall i :: 0 <= i < |ms| ==> HasShape(t, ms[i]) && Occurs(ms[i], s)
  {
    var r := Scan(t, s);
    ScanShapes(t, s);
    var ms := seq(|r|, k requires 0 <= k < |r| => s[r[k].0..r[k].1]);
    assert forall i :: 0 <= i < |ms| ==> OccursAt(ms[i], s, r[i].0);
    ms
  }
}
