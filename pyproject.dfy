/** The `version = "..."` line of a pyproject.toml text.  Both scripts find it with the
    regular expression `^\s*version\s*=\s*["']([^"']+)["']`, searched in multi-line mode,
    and the release script rewrites the quoted value in place with the same expression.

    Every piece of that expression is followed by a character the piece cannot consume
    (a `v`, an `=`, a quote), so a greedy run never has to give anything back: the match
    tried at a position is unique and is computed here piece by piece. */
module Pyproject {
  import opened Wrappers
  import opened Text

  predicate IsQuote(c: char) {
    c == '"' || c == '\''
  }

  /** `^` in multi-line mode: the start of the text or just after a newline. */
  predicate LineStart(s: string, p: nat) {
    p <= |s| && (p == 0 || s[p - 1] == '\n')
  }

  predicate AllSpace(s: string, a: nat, b: nat)
    requires a <= b <= |s|
  {
    forall x :: a <= x < b ==> IsSpace(s[x])
  }

  predicate NoQuote(s: string, a: nat, b: nat)
    requires a <= b <= |s|
  {
    forall x :: a <= x < b ==> !IsQuote(s[x])
  }

  /** Where a greedy `\s*` started at `p` stops. */
  function SkipSpaces(s: string, p: nat): (q: nat)
    requires p <= |s|
    ensures p <= q <= |s|
    ensures q == |s| || !IsSpace(s[q])
    decreases |s| - p
  {
    if p < |s| && IsSpace(s[p]) then SkipSpaces(s, p + 1) else p
  }

  /** Everything `SkipSpaces` passes over is whitespace. */
  lemma {:induction false} SkipSpacesAll(s: string, p: nat)
    requires p <= |s|
    ensures AllSpace(s, p, SkipSpaces(s, p))
    decreases |s| - p
  {
    if p < |s| && IsSpace(s[p]) {
      SkipSpacesAll(s, p + 1);
    }
  }

  /** Where a greedy `[^"']*` started at `p` stops. */
  function SkipNonQuotes(s: string, p: nat): (q: nat)
    requires p <= |s|
    ensures p <= q <= |s| && NoQuote(s, p, q)
    ensures q == |s| || IsQuote(s[q])
    decreases |s| - p
  {
    if p < |s| && !IsQuote(s[p]) then SkipNonQuotes(s, p + 1) else p
  }

  /** The positions of the captured value: `s[start..end]`. */
  datatype Span = Span(start: nat, end: nat)

  /** The word `version` at `i`, letter by letter. */
  predicate KeywordAt(s: string, i: nat) {
    && i + 7 <= |s|
    && s[i] == 'v' && s[i + 1] == 'e' && s[i + 2] == 'r' && s[i + 3] == 's'
    && s[i + 4] == 'i' && s[i + 5] == 'o' && s[i + 6] == 'n'
  }

  /** `\s*version` tried at `p`: the position after the keyword. */
  function Keyword(s: string, p: nat): (r: Option<nat>)
    requires p <= |s|
    ensures r.Some? ==> p + 7 <= r.value <= |s|
  {
    var i := SkipSpaces(s, p);
    if KeywordAt(s, i) then Some(i + 7) else None
  }

  /** `\s*version\s*=` tried at `p`: the position after the `=`. */
  function Equals(s: string, p: nat): (r: Option<nat>)
    requires p <= |s|
    ensures r.Some? ==> p < r.value <= |s| && s[r.value - 1] == '='
  {
    match Keyword(s, p)
    case None => None
    case Some(m) =>
      var j := SkipSpaces(s, m);
      if j < |s| && s[j] == '=' then Some(j + 1) else None
  }

  /** The part of the expression before the value, `\s*version\s*=\s*["']`, tried at `p`:
      the position of the opening quote. */
  function OpenQuote(s: string, p: nat): (r: Option<nat>)
    requires p <= |s|
    ensures r.Some? ==> p <= r.value < |s| && IsQuote(s[r.value])
  {
    match Equals(s, p)
    case None => None
    case Some(m) =>
      var k := SkipSpaces(s, m);
      if k < |s| && IsQuote(s[k]) then Some(k) else None
  }

  /** The whole expression tried at position `p` (without the `^`): the span of group 1. */
  function MatchAt(s: string, p: nat): (r: Option<Span>)
    requires p <= |s|
    ensures r.Some? ==> p < r.value.start < r.value.end < |s|
    ensures r.Some? ==> IsQuote(s[r.value.start - 1]) && IsQuote(s[r.value.end])
    ensures r.Some? ==> NoQuote(s, r.value.start, r.value.end)
  {
    match OpenQuote(s, p)
    case None => None
    case Some(k) => ValueAfter(s, k)
  }

  /** `([^"']+)["']` after the opening quote at `k`. */
  function ValueAfter(s: string, k: nat): Option<Span>
    requires k < |s|
  {
    var e := SkipNonQuotes(s, k + 1);
    if e == k + 1 || e == |s| then None else Some(Span(k + 1, e))
  }

  /** What the part before the value means, with the boundaries of its pieces named:
      whitespace on `[p, i)`, `version` at `i`, whitespace up to the `=` at `j`, and
      whitespace up to the opening quote at `k`. */
  predicate Opens(s: string, p: nat, i: nat, j: nat, k: nat) {
    && p <= i && i + 7 <= j && j < k < |s|
    && AllSpace(s, p, i) && KeywordAt(s, i)
    && AllSpace(s, i + 7, j) && s[j] == '='
    && AllSpace(s, j + 1, k) && IsQuote(s[k])
  }

  /** What the whole expression means: the part before the value, then a non-empty value
      without quotes on `[k + 1, e)` and a closing quote at `e`. */
  predicate Matches(s: string, p: nat, i: nat, j: nat, k: nat, e: nat) {
    && Opens(s, p, i, j, k)
    && k + 1 < e < |s| && NoQuote(s, k + 1, e) && IsQuote(s[e])
  }

  ghost predicate MatchesAt(s: string, p: nat) {
    exists i, j, k, e :: Matches(s, p, i, j, k, e)
  }

  lemma {:induction false} SkipSpacesTo(s: string, p: nat, q: nat)
    requires p <= q <= |s| && AllSpace(s, p, q)
    requires q == |s| || !IsSpace(s[q])
    ensures SkipSpaces(s, p) == q
    decreases q - p
  {
    if p < q {
      SkipSpacesTo(s, p + 1, q);
    }
  }

  lemma SkipNonQuotesTo(s: string, p: nat, q: nat)
    requires p <= q <= |s| && NoQuote(s, p, q)
    requires q == |s| || IsQuote(s[q])
    ensures SkipNonQuotes(s, p) == q
  {
  }

  lemma OpenQuoteComplete(s: string, p: nat, i: nat, j: nat, k: nat)
    requires Opens(s, p, i, j, k)
    ensures OpenQuote(s, p) == Some(k)
  {
    SkipSpacesTo(s, p, i);
    SkipSpacesTo(s, i + 7, j);
    SkipSpacesTo(s, j + 1, k);
  }

  /** Every match of the expression at `p` is the one `MatchAt` finds: the match is unique. */
  lemma MatchAtComplete(s: string, p: nat, i: nat, j: nat, k: nat, e: nat)
    requires Matches(s, p, i, j, k, e)
    ensures MatchAt(s, p) == Some(Span(k + 1, e))
  {
    OpenQuoteComplete(s, p, i, j, k);
    SkipNonQuotesTo(s, k + 1, e);
  }

  lemma MatchAtIff(s: string, p: nat)
    requires p <= |s|
    ensures MatchAt(s, p).Some? <==> MatchesAt(s, p)
  {
    if MatchAt(s, p).Some? {
      var i, j, k, e := Witnesses(s, p);
    }
    if MatchesAt(s, p) {
      var i, j, k, e :| Matches(s, p, i, j, k, e);
      MatchAtComplete(s, p, i, j, k, e);
    }
  }

  /** `re.search` in multi-line mode: the first line start at or after `from` where the
      expression matches. */
  function FirstMatchFrom(s: string, from: nat): (r: Option<nat>)
    requires from <= |s|
    ensures r.Some? ==> from <= r.value <= |s| && LineStart(s, r.value) && MatchAt(s, r.value).Some?
    ensures forall q :: from <= q <= |s| && LineStart(s, q) && (r.None? || q < r.value) ==> MatchAt(s, q).None?
    decreases |s| - from
  {
    if LineStart(s, from) && MatchAt(s, from).Some? then Some(from)
    else if from == |s| then None
    else FirstMatchFrom(s, from + 1)
  }

  /** A matching line start with no matching line start before it is the one found. */
  lemma FirstMatchIs(s: string, q: nat)
    requires q <= |s| && LineStart(s, q) && MatchAt(s, q).Some?
    requires forall q' :: 0 <= q' < q && LineStart(s, q') ==> MatchAt(s, q').None?
    ensures FirstMatchFrom(s, 0) == Some(q)
  {
  }

  /** `match.group(1)` of the search, if it succeeds. */
  function FindVersion(s: string): (r: Option<string>)
    ensures r.Some? ==> r.value != [] && forall x :: 0 <= x < |r.value| ==> !IsQuote(r.value[x])
  {
    match FirstMatchFrom(s, 0)
    case None => None
    case Some(q) =>
      var sp := MatchAt(s, q).value;
      Some(s[sp.start..sp.end])
  }

  /** Nothing is found exactly when no line start matches the expression. */
  lemma FindVersionNone(s: string)
    ensures FindVersion(s).None? <==> forall q :: 0 <= q <= |s| && LineStart(s, q) ==> !MatchesAt(s, q)
  {
    if FindVersion(s).None? {
      forall q | 0 <= q <= |s| && LineStart(s, q)
        ensures !MatchesAt(s, q)
      {
        MatchAtIff(s, q);
      }
    } else {
      MatchAtIff(s, FirstMatchFrom(s, 0).value);
    }
  }

  /** The value found is that of the first line that matches the expression. */
  lemma FindVersionFirst(s: string)
    requires FindVersion(s).Some?
    ensures exists q: nat, i: nat, j: nat, k: nat, e: nat ::
              && LineStart(s, q) && Matches(s, q, i, j, k, e) && FindVersion(s).value == s[k + 1..e]
              && forall q' :: 0 <= q' < q && LineStart(s, q') ==> !MatchesAt(s, q')
  {
    var q, i, j, k, e := FirstWitnesses(s);
  }

  lemma FirstWitnesses(s: string) returns (q: nat, i: nat, j: nat, k: nat, e: nat)
    requires FindVersion(s).Some?
    ensures && LineStart(s, q) && Matches(s, q, i, j, k, e) && FindVersion(s).value == s[k + 1..e]
            && forall q' :: 0 <= q' < q && LineStart(s, q') ==> !MatchesAt(s, q')
  {
    q := FirstMatchFrom(s, 0).value;
    i, j, k, e := Witnesses(s, q);
    FindVersionAt(s, q, k + 1, e);
    NoEarlierMatch(s, q);
  }

  /** The positions of the pieces of the match `MatchAt` finds. */
  lemma Witnesses(s: string, p: nat) returns (i: nat, j: nat, k: nat, e: nat)
    requires p <= |s| && MatchAt(s, p).Some?
    ensures Matches(s, p, i, j, k, e) && MatchAt(s, p) == Some(Span(k + 1, e))
  {
    i := SkipSpaces(s, p);
    j := SkipSpaces(s, i + 7);
    SkipSpacesAll(s, p);
    SkipSpacesAll(s, i + 7);
    SkipSpacesAll(s, j + 1);
    k := OpenQuote(s, p).value;
    e := MatchAt(s, p).value.end;
  }

  lemma NoEarlierMatch(s: string, q: nat)
    requires forall q' :: 0 <= q' < q && LineStart(s, q') ==> MatchAt(s, q').None?
    ensures forall q' :: 0 <= q' < q && LineStart(s, q') ==> !MatchesAt(s, q')
  {
    forall q' | 0 <= q' < q && LineStart(s, q')
      ensures !MatchesAt(s, q')
    {
      MatchAtIff(s, q');
    }
  }

  lemma FindVersionAt(s: string, q: nat, a: nat, e: nat)
    requires FirstMatchFrom(s, 0) == Some(q) && MatchAt(s, q) == Some(Span(a, e))
    ensures FindVersion(s) == Some(s[a..e])
  {
  }

  /** `re.sub(..., count=1)` keeping groups 1 and 3: the first match's value replaced by
      `v`.  `None` when nothing matches or the text comes out unchanged, the two cases
      `write_pyproject_version` reports as a failure. */
  function ReplaceVersion(s: string, v: string): (r: Option<string>)
  {
    match FirstMatchFrom(s, 0)
    case None => None
    case Some(q) =>
      var sp := MatchAt(s, q).value;
      var t := s[..sp.start] + v + s[sp.end..];
      if t == s then None else Some(t)
  }

  /** Replacing the value fails exactly when there is no value or it is already `v`. */
  lemma ReplaceVersionFails(s: string, v: string)
    ensures ReplaceVersion(s, v).None? <==> FindVersion(s).None? || FindVersion(s) == Some(v)
  {
    if FirstMatchFrom(s, 0).Some? {
      var sp := MatchAt(s, FirstMatchFrom(s, 0).value).value;
      var t := s[..sp.start] + v + s[sp.end..];
      var prev := s[sp.start..sp.end];
      ThreeParts(s, sp.start, sp.end);
      assert t == s ==> v == prev by {
        if t == s {
          assert t[sp.start..sp.start + |v|] == v;
        }
      }
    }
  }

  /** `s` and `t` agree on their first `a` characters. */
  predicate Agree(s: string, t: string, a: nat) {
    a <= |s| && a <= |t| && forall x :: 0 <= x < a ==> s[x] == t[x]
  }

  lemma SkipSpacesAgree(s: string, t: string, p: nat, a: nat)
    requires p < a && Agree(s, t, a) && !IsSpace(s[a - 1])
    ensures SkipSpaces(s, p) == SkipSpaces(t, p) < a
  {
    var q := SkipSpaces(s, p);
    SkipSpacesAll(s, p);
    assert q < a;
    assert s[q] == t[q];
    SkipSpacesTo(t, p, q);
  }

  lemma SkipNonQuotesAgree(s: string, t: string, p: nat, a: nat)
    requires p < a && Agree(s, t, a) && IsQuote(s[a - 1])
    ensures SkipNonQuotes(s, p) == SkipNonQuotes(t, p) < a
  {
    var q := SkipNonQuotes(s, p);
    assert q < a;
    assert s[q] == t[q];
    SkipNonQuotesTo(t, p, q);
  }

  lemma VersionAgree(s: string, t: string, i: nat, a: nat)
    requires i < a && Agree(s, t, a) && IsQuote(s[a - 1])
    ensures KeywordAt(s, i) == KeywordAt(t, i)
    ensures KeywordAt(s, i) ==> i + 7 < a
  {
    if i + 7 >= a {
      assert !KeywordAt(s, i) && !KeywordAt(t, i) by {
        assert a - 1 - i < 7 && s[a - 1] == t[a - 1];
      }
    }
  }

  lemma KeywordAgree(s: string, t: string, p: nat, a: nat)
    requires p < a && Agree(s, t, a) && IsQuote(s[a - 1])
    ensures Keyword(s, p) == Keyword(t, p)
    ensures Keyword(s, p).Some? ==> Keyword(s, p).value < a
  {
    SkipSpacesAgree(s, t, p, a);
    VersionAgree(s, t, SkipSpaces(s, p), a);
  }

  lemma EqualsAgree(s: string, t: string, p: nat, a: nat)
    requires p < a && Agree(s, t, a) && IsQuote(s[a - 1])
    ensures Equals(s, p) == Equals(t, p)
    ensures Equals(s, p).Some? ==> Equals(s, p).value < a
  {
    KeywordAgree(s, t, p, a);
    if Keyword(s, p).Some? {
      var m := Keyword(s, p).value;
      SkipSpacesAgree(s, t, m, a);
      var j := SkipSpaces(s, m);
      assert s[j] == t[j];
    }
  }

  /** The part before the value only reads the text up to the first quote it meets. */
  lemma OpenQuoteAgree(s: string, t: string, p: nat, a: nat)
    requires p < a && Agree(s, t, a) && IsQuote(s[a - 1])
    ensures OpenQuote(s, p) == OpenQuote(t, p)
    ensures OpenQuote(s, p).Some? ==> OpenQuote(s, p).value < a
  {
    EqualsAgree(s, t, p, a);
    if Equals(s, p).Some? {
      var m := Equals(s, p).value;
      SkipSpacesAgree(s, t, m, a);
      var k := SkipSpaces(s, m);
      assert s[k] == t[k];
    }
  }

  /** An attempt at `p` reads the text only up to the first quote at or after `p`, unless
      its opening quote is the one at `a - 1`. */
  lemma MatchAtAgree(s: string, t: string, p: nat, a: nat)
    requires p < a && Agree(s, t, a) && IsQuote(s[a - 1])
    ensures MatchAt(s, p) == MatchAt(t, p) || OpenQuote(s, p) == Some(a - 1)
  {
    OpenQuoteAgree(s, t, p, a);
    match OpenQuote(s, p)
    case None =>
    case Some(k) =>
      if k + 1 < a {
        ValueAfterAgree(s, t, k, a);
      }
  }

  lemma ValueAfterAgree(s: string, t: string, k: nat, a: nat)
    requires k + 1 < a && Agree(s, t, a) && IsQuote(s[a - 1])
    ensures ValueAfter(s, k) == ValueAfter(t, k)
  {
    SkipNonQuotesAgree(s, t, k + 1, a);
  }

  /** An attempt whose opening quote is at `a - 1` finds the value that starts at `a`. */
  lemma OpenQuoteAtValue(s: string, p: nat, a: nat, e: nat)
    requires p <= |s| && 0 < a < e < |s| && NoQuote(s, a, e) && IsQuote(s[e])
    ensures OpenQuote(s, p) == Some(a - 1) ==> MatchAt(s, p) == Some(Span(a, e))
  {
    SkipNonQuotesTo(s, a, e);
  }

  lemma SpliceFacts(s: string, a: nat, v: string, e: nat, t: string)
    requires a <= e < |s| && t == s[..a] + v + s[e..]
    ensures Agree(s, t, a)
    ensures |t| == a + |v| + |s| - e
    ensures forall x :: a <= x < a + |v| ==> t[x] == v[x - a]
    ensures t[a + |v|] == s[e]
    ensures t[..a] == s[..a] && t[a..a + |v|] == v && t[a + |v|..] == s[e..]
  {
  }

  lemma ThreeParts(s: string, a: nat, e: nat)
    requires a <= e <= |s|
    ensures s == s[..a] + s[a..e] + s[e..]
  {
    assert s[..a] + s[a..e] == s[..e];
  }

  lemma OpensAgree(s: string, t: string, p: nat, i: nat, j: nat, k: nat)
    requires Opens(s, p, i, j, k) && Agree(s, t, k + 1)
    ensures Opens(t, p, i, j, k)
  {
  }

  /** The value of a match can be replaced by any non-empty text without quotes. */
  lemma ValueReplaced(s: string, t: string, q: nat, i: nat, j: nat, k: nat, e: nat, v: string)
    requires Matches(s, q, i, j, k, e)
    requires v != [] && forall x :: 0 <= x < |v| ==> !IsQuote(v[x])
    requires Agree(s, t, k + 1) && k + 1 + |v| < |t|
    requires forall x :: k + 1 <= x < k + 1 + |v| ==> t[x] == v[x - (k + 1)]
    requires t[k + 1 + |v|] == s[e]
    ensures MatchAt(t, q) == Some(Span(k + 1, k + 1 + |v|))
  {
    OpensAgree(s, t, q, i, j, k);
    MatchAtComplete(t, q, i, j, k, k + 1 + |v|);
  }

  lemma ValueReplacedAt(s: string, t: string, q: nat, a: nat, e: nat, v: string)
    requires q <= |s| && MatchAt(s, q) == Some(Span(a, e))
    requires v != [] && forall x :: 0 <= x < |v| ==> !IsQuote(v[x])
    requires Agree(s, t, a) && a + |v| < |t|
    requires forall x :: a <= x < a + |v| ==> t[x] == v[x - a]
    requires t[a + |v|] == s[e]
    ensures MatchAt(t, q) == Some(Span(a, a + |v|))
  {
    var i, j, k, e' := Witnesses(s, q);
    ValueReplaced(s, t, q, i, j, k, e, v);
  }

  /** Attempts before a match fail in `t` too when `t` keeps the text up to the match's
      opening quote. */
  lemma EarlierStillFail(s: string, t: string, q: nat, a: nat, e: nat)
    requires q < a < e < |s| && Agree(s, t, a) && IsQuote(s[a - 1]) && NoQuote(s, a, e) && IsQuote(s[e])
    requires forall q' :: 0 <= q' < q && LineStart(s, q') ==> MatchAt(s, q').None?
    ensures forall q' :: 0 <= q' < q && LineStart(t, q') ==> MatchAt(t, q').None?
  {
    forall q' | 0 <= q' < q && LineStart(t, q')
      ensures MatchAt(t, q').None?
    {
      assert q' == 0 || s[q' - 1] == t[q' - 1];
      MatchAtAgree(s, t, q', a);
      OpenQuoteAtValue(s, q', a, e);
    }
  }

  /** After the replacement, the same line is still the first to match, and its value
      is now `v`. */
  lemma ReplacedMatch(s: string, v: string) returns (q: nat, a: nat, e: nat, t: string)
    requires FirstMatchFrom(s, 0).Some?
    requires v != [] && forall x :: 0 <= x < |v| ==> !IsQuote(v[x])
    ensures FirstMatchFrom(s, 0) == Some(q) && MatchAt(s, q) == Some(Span(a, e))
    ensures t == s[..a] + v + s[e..]
    ensures FirstMatchFrom(t, 0) == Some(q) && MatchAt(t, q) == Some(Span(a, a + |v|))
  {
    q := FirstMatchFrom(s, 0).value;
    a := MatchAt(s, q).value.start;
    e := MatchAt(s, q).value.end;
    assert q < a < e < |s| && IsQuote(s[a - 1]) && NoQuote(s, a, e) && IsQuote(s[e]);
    assert forall q' :: 0 <= q' < q && LineStart(s, q') ==> MatchAt(s, q').None?;
    t := s[..a] + v + s[e..];
    SpliceFacts(s, a, v, e, t);
    ValueReplacedAt(s, t, q, a, e, v);
    EarlierStillFail(s, t, q, a, e);
    assert q == 0 || s[q - 1] == t[q - 1];
    FirstMatchIs(t, q);
  }

  /** Writing a version and reading it back gives that version. */
  lemma ReplaceThenFind(s: string, v: string)
    requires v != [] && forall x :: 0 <= x < |v| ==> !IsQuote(v[x])
    requires ReplaceVersion(s, v).Some?
    ensures FindVersion(ReplaceVersion(s, v).value) == Some(v)
  {
    var q, a, e, t := ReplacedMatch(s, v);
    FindVersionAt(t, q, a, a + |v|);
    ReplaceAt(s, q, a, e, v);
    SpliceFacts(s, a, v, e, t);
  }

  /** Putting the old value back undoes a replacement. */
  lemma ReplaceVersionUndo(s: string, v: string)
    requires v != [] && forall x :: 0 <= x < |v| ==> !IsQuote(v[x])
    requires ReplaceVersion(s, v).Some?
    ensures ReplaceVersion(ReplaceVersion(s, v).value, FindVersion(s).value) == Some(s)
  {
    var q, a, e, t := ReplacedMatch(s, v);
    var prev := s[a..e];
    ReplaceAt(t, q, a, a + |v|, prev);
    FindVersionAt(s, q, a, e);
    ReplaceAt(s, q, a, e, v);
    SpliceFacts(s, a, v, e, t);
    ThreeParts(s, a, e);
    assert t[..a] + prev + t[a + |v|..] == s;
  }

  /** The replacement made at a known first match. */
  lemma ReplaceAt(s: string, q: nat, a: nat, e: nat, v: string)
    requires FirstMatchFrom(s, 0) == Some(q) && MatchAt(s, q) == Some(Span(a, e))
    ensures ReplaceVersion(s, v) == if s[..a] + v + s[e..] == s then None else Some(s[..a] + v + s[e..])
  {
  }
}
