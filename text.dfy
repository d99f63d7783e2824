/** The parts of Python's `str` that the scripts rely on, over `seq<char>`:
    `isspace`, `lower`, `strip`/`lstrip`/`rstrip` with and without an argument,
    `startswith`/`endswith`, `find`, `split(sep)`, `split(sep, 1)`, `join`, `int()`
    of a digit string and `str()` of an integer, and string comparison.
    Character classes are the ASCII ones (see README, "Left out"). */
module Text {
  import opened Wrappers

  /** Python's `str.isspace()` on ASCII characters: space, \t \n \v \f \r and the
      separators \x1c-\x1f.  It is also what `\s` matches in the scripts' regexes. */
  const Whitespace: set<char> :=
    {' ', '\t', '\n', '\U{0b}', '\U{0c}', '\r', '\U{1c}', '\U{1d}', '\U{1e}', '\U{1f}'}

  predicate IsSpace(c: char) {
    c == ' ' || '\t' <= c <= '\r' || '\U{1c}' <= c <= '\U{1f}'
  }

  lemma WhitespaceIsSpace(c: char)
    ensures c in Whitespace <==> IsSpace(c)
  {
  }

  /** `\d` and the characters `int()` accepts, restricted to ASCII. */
  predicate IsDigit(c: char) {
    '0' <= c <= '9'
  }

  predicate AllDigits(s: string) {
    forall i :: 0 <= i < |s| ==> IsDigit(s[i])
  }

  predicate IsUpper(c: char) {
    'A' <= c <= 'Z'
  }

  function LowerChar(c: char): (r: char)
    ensures !IsUpper(r)
    ensures IsUpper(c) ==> r as int == c as int + 32
    ensures !IsUpper(c) ==> r == c
  {
    if IsUpper(c) then (c as int + 32) as char else c
  }

  /** `str.lower()` on ASCII letters. */
  function Lower(s: string): (r: string)
    ensures |r| == |s|
    ensures forall i :: 0 <= i < |s| ==> r[i] == LowerChar(s[i])
  {
    seq(|s|, i requires 0 <= i < |s| => LowerChar(s[i]))
  }

  /** `str.replace(old, new)` for one-character `old` and `new`. */
  function ReplaceChar(s: string, from: char, to: char): (r: string)
    ensures |r| == |s|
    ensures forall i :: 0 <= i < |s| ==> r[i] == (if s[i] == from then to else s[i])
  {
    seq(|s|, i requires 0 <= i < |s| => if s[i] == from then to else s[i])
  }

  // ---------------------------------------------------------------- stripping

  /** `s.lstrip(cs)`: drop the longest prefix made of characters of `cs`. */
  function TrimStartOf(s: string, cs: set<char>): (r: string)
    ensures |r| <= |s| && r == s[|s| - |r|..]
    ensures forall k :: 0 <= k < |s| - |r| ==> s[k] in cs
    ensures r == [] || r[0] !in cs
    decreases |s|
  {
    if s != [] && s[0] in cs then TrimStartOf(s[1..], cs) else s
  }

  /** `s.rstrip(cs)`: drop the longest suffix made of characters of `cs`. */
  function TrimEndOf(s: string, cs: set<char>): (r: string)
    ensures |r| <= |s| && r == s[..|r|]
    ensures forall k :: |r| <= k < |s| ==> s[k] in cs
    ensures r == [] || r[|r| - 1] !in cs
    decreases |s|
  {
    if s != [] && s[|s| - 1] in cs then TrimEndOf(s[..|s| - 1], cs) else s
  }

  /** `s.strip(cs)`. */
  function StripOf(s: string, cs: set<char>): (r: string)
    ensures |r| <= |s|
    ensures r == [] || (r[0] !in cs && r[|r| - 1] !in cs)
  {
    TrimEndOf(TrimStartOf(s, cs), cs)
  }

  /** `s.strip()` with no argument. */
  function Strip(s: string): (r: string)
    ensures |r| <= |s|
    ensures r == [] || (!IsSpace(r[0]) && !IsSpace(r[|r| - 1]))
  {
    var r := StripOf(s, Whitespace);
    if r == [] then r
    else
      WhitespaceIsSpace(r[0]);
      WhitespaceIsSpace(r[|r| - 1]);
      r
  }

  /** A character outside `cs` survives `lstrip`, at its place counted from the end. */
  lemma TrimStartOfKeeps(s: string, cs: set<char>, k: nat)
    requires k < |s| && s[k] !in cs
    ensures var r := TrimStartOf(s, cs); |s| - |r| <= k && r[k - (|s| - |r|)] == s[k]
  {
  }

  /** A character outside `cs` survives `rstrip`, at its place. */
  lemma TrimEndOfKeeps(s: string, cs: set<char>, k: nat)
    requires k < |s| && s[k] !in cs
    ensures var r := TrimEndOf(s, cs); k < |r| && r[k] == s[k]
  {
  }

  /** A character missing from `s` is missing from what `lstrip` leaves. */
  lemma TrimStartOfAbsent(s: string, cs: set<char>, c: char)
    requires c !in s
    ensures c !in TrimStartOf(s, cs)
  {
    var l := TrimStartOf(s, cs);
    forall i | 0 <= i < |l| ensures l[i] != c {
      assert l[i] == s[|s| - |l| + i];
    }
  }

  /** A character missing from `s` is missing from what `rstrip` leaves. */
  lemma TrimEndOfAbsent(s: string, cs: set<char>, c: char)
    requires c !in s
    ensures c !in TrimEndOf(s, cs)
  {
    var r := TrimEndOf(s, cs);
    forall i | 0 <= i < |r| ensures r[i] != c {
      assert r[i] == s[i];
    }
  }

  /** A string whose `strip()` is not empty has a non-blank character: the first one. */
  lemma SolidIndex(s: string) returns (k: nat)
    requires Strip(s) != []
    ensures k < |s| && s[k] !in Whitespace
  {
    var l := TrimStartOf(s, Whitespace);
    k := |s| - |l|;
    assert l[0] == s[k];
  }

  /** A non-blank character keeps `strip()` from being empty. */
  lemma SolidStrip(s: string, k: nat)
    requires k < |s| && s[k] !in Whitespace
    ensures Strip(s) != []
  {
    TrimStartOfKeeps(s, Whitespace, k);
    var l := TrimStartOf(s, Whitespace);
    TrimEndOfKeeps(l, Whitespace, k - (|s| - |l|));
  }

  /** `lstrip` stops inside `a` when `a` is not all stripped away. */
  lemma {:induction false} TrimStartOfAppend(a: string, b: string, cs: set<char>)
    requires TrimStartOf(a, cs) != []
    ensures TrimStartOf(a + b, cs) == TrimStartOf(a, cs) + b
    decreases |a|
  {
    assert (a + b)[0] == a[0];
    if a[0] in cs {
      assert (a + b)[1..] == a[1..] + b;
      TrimStartOfAppend(a[1..], b, cs);
    }
  }

  /** `lstrip` goes on into `b` when `a` is all stripped away. */
  lemma {:induction false} TrimStartOfGone(a: string, b: string, cs: set<char>)
    requires TrimStartOf(a, cs) == []
    ensures TrimStartOf(a + b, cs) == TrimStartOf(b, cs)
    decreases |a|
  {
    if a != [] {
      assert (a + b)[0] == a[0];
      assert (a + b)[1..] == a[1..] + b;
      TrimStartOfGone(a[1..], b, cs);
    } else {
      assert a + b == b;
    }
  }

  /** `rstrip` stops inside `b` when `b` is not all stripped away. */
  lemma {:induction false} TrimEndOfAppend(a: string, b: string, cs: set<char>)
    requires TrimEndOf(b, cs) != []
    ensures TrimEndOf(a + b, cs) == a + TrimEndOf(b, cs)
    decreases |b|
  {
    var s := a + b;
    assert s[|s| - 1] == b[|b| - 1];
    if b[|b| - 1] in cs {
      assert s[..|s| - 1] == a + b[..|b| - 1];
      TrimEndOfAppend(a, b[..|b| - 1], cs);
    }
  }

  /** A last character of `cs` is the first thing `rstrip` drops. */
  lemma TrimEndOfLast(a: string, c: char, cs: set<char>)
    requires c in cs
    ensures TrimEndOf(a + [c], cs) == TrimEndOf(a, cs)
  {
    assert (a + [c])[..|a|] == a;
  }

  /** A line break after a text changes nothing to its `strip()`. */
  lemma StripBreakAfter(s: string)
    ensures Strip(s + "\n") == Strip(s)
  {
    var t := TrimStartOf(s, Whitespace);
    if t != [] {
      TrimStartOfAppend(s, "\n", Whitespace);
      TrimEndOfLast(t, '\n', Whitespace);
    } else {
      TrimStartOfGone(s, "\n", Whitespace);
    }
  }

  lemma TrimStartOfNoop(s: string, cs: set<char>)
    requires s == [] || s[0] !in cs
    ensures TrimStartOf(s, cs) == s
  {
  }

  lemma TrimEndOfNoop(s: string, cs: set<char>)
    requires s == [] || s[|s| - 1] !in cs
    ensures TrimEndOf(s, cs) == s
  {
  }

  /** No blank at either end. */
  predicate Unpadded(s: string) {
    s != [] ==> !IsSpace(s[0]) && !IsSpace(s[|s| - 1])
  }

  /** An unpadded string loses nothing to `lstrip()` or `rstrip()`. */
  lemma UnpaddedTrim(s: string)
    requires Unpadded(s)
    ensures TrimStartOf(s, Whitespace) == s && TrimEndOf(s, Whitespace) == s
  {
    if s != [] {
      WhitespaceIsSpace(s[0]);
      WhitespaceIsSpace(s[|s| - 1]);
    }
    TrimStartOfNoop(s, Whitespace);
    TrimEndOfNoop(s, Whitespace);
  }

  /** Stripping a string that has nothing to strip leaves it unchanged. */
  lemma StripOfNoop(s: string, cs: set<char>)
    requires s == [] || (s[0] !in cs && s[|s| - 1] !in cs)
    ensures StripOf(s, cs) == s
  {
    TrimStartOfNoop(s, cs);
    TrimEndOfNoop(s, cs);
  }

  /** `strip(cs)` of a text wrapped in one character of `cs` leaves the text inside, when
      that text neither starts nor ends with a character of `cs`. */
  lemma StripOfWrapped(v: string, c: char, cs: set<char>)
    requires c in cs && v != [] && v[0] !in cs && v[|v| - 1] !in cs
    ensures StripOf([c] + v + [c], cs) == v
  {
    var w := [c] + v + [c];
    assert w[1..] == v + [c];
    assert (v + [c])[0] == v[0];
    TrimStartOfNoop(v + [c], cs);
    TrimEndOfLast(v, c, cs);
    TrimEndOfNoop(v, cs);
  }

  // ---------------------------------------------------------------- searching

  predicate StartsWith(s: string, prefix: string) {
    |prefix| <= |s| && s[..|prefix|] == prefix
  }

  predicate EndsWith(s: string, suffix: string) {
    |suffix| <= |s| && s[|s| - |suffix|..] == suffix
  }

  predicate OccursAt(s: string, pat: string, i: int) {
    0 <= i && i + |pat| <= |s| && s[i..i + |pat|] == pat
  }

  /** `s.find(pat, from)`: the lowest index at or after `from` where `pat` occurs, or -1. */
  function FindFrom(s: string, pat: string, from: nat): (r: int)
    ensures r == -1 || (from <= r && OccursAt(s, pat, r))
    ensures r == -1 ==> forall i :: from <= i ==> !OccursAt(s, pat, i)
    ensures r != -1 ==> forall i :: from <= i < r ==> !OccursAt(s, pat, i)
    decreases |s| + 1 - from
  {
    if from > |s| then -1
    else if OccursAt(s, pat, from) then from
    else FindFrom(s, pat, from + 1)
  }

  /** `s.find(pat)`. */
  function Find(s: string, pat: string): (r: int)
    ensures r == -1 || OccursAt(s, pat, r)
    ensures r == -1 ==> forall i :: !OccursAt(s, pat, i)
    ensures r != -1 ==> forall i :: 0 <= i < r ==> !OccursAt(s, pat, i)
  {
    FindFrom(s, pat, 0)
  }

  /** `s.index(c)` for a character known to occur. */
  function IndexOf(s: string, c: char): (i: nat)
    requires c in s
    ensures i < |s| && s[i] == c && c !in s[..i]
  {
    if s[0] == c then 0 else 1 + IndexOf(s[1..], c)
  }

  // ---------------------------------------------------------------- split and join

  /** `s.split(sep)` for a one-character separator: never empty, and no piece holds `sep`. */
  function Split(s: string, sep: char): (parts: seq<string>)
    ensures |parts| >= 1
    ensures forall k :: 0 <= k < |parts| ==> sep !in parts[k]
    decreases |s|
  {
    if sep in s then
      var i := IndexOf(s, sep);
      [s[..i]] + Split(s[i + 1..], sep)
    else
      [s]
  }

  /** `sep.join(parts)`. */
  function Join(parts: seq<string>, sep: string): string
  {
    if |parts| == 0 then ""
    else if |parts| == 1 then parts[0]
    else parts[0] + sep + Join(parts[1..], sep)
  }

  /** `s.split(sep, 1)`: the text before and after the first `sep`, when there is one. */
  function Partition(s: string, sep: char): (r: Option<(string, string)>)
    ensures r.None? <==> sep !in s
    ensures r.Some? ==> sep !in r.value.0 && s == r.value.0 + [sep] + r.value.1
  {
    if sep in s then
      var i := IndexOf(s, sep);
      assert s == s[..i] + [sep] + s[i + 1..];
      Some((s[..i], s[i + 1..]))
    else
      None
  }

  /** Splitting `a + sep + b` where `a` holds no separator cuts off exactly `a`. */
  lemma SplitCons(a: string, sep: char, b: string)
    requires sep !in a
    ensures Split(a + [sep] + b, sep) == [a] + Split(b, sep)
  {
    var s := a + [sep] + b;
    assert s[|a|] == sep;
    assert s[..|a|] == a;
    var i := IndexOf(s, sep);
    assert i == |a|;
    assert s[i + 1..] == b;
  }

  /** Joining pieces and splitting at the same separator gives the pieces back,
      when no piece holds the separator. */
  lemma {:induction false} SplitJoin(parts: seq<string>, sep: char)
    requires |parts| >= 1
    requires forall k :: 0 <= k < |parts| ==> sep !in parts[k]
    ensures Split(Join(parts, [sep]), sep) == parts
    decreases |parts|
  {
    if |parts| > 1 {
      var rest := Join(parts[1..], [sep]);
      JoinCons(parts[0], parts[1..], [sep]);
      assert [parts[0]] + parts[1..] == parts;
      SplitJoin(parts[1..], sep);
      SplitCons(parts[0], sep, rest);
    }
  }

  /** Splitting and joining back at the same separator restores the text. */
  lemma {:induction false} JoinSplit(s: string, sep: char)
    ensures Join(Split(s, sep), [sep]) == s
    decreases |s|
  {
    if sep in s {
      var i := IndexOf(s, sep);
      var rest := Split(s[i + 1..], sep);
      assert Split(s, sep) == [s[..i]] + rest;
      JoinSplit(s[i + 1..], sep);
      JoinCons(s[..i], rest, [sep]);
      assert s == s[..i] + [sep] + s[i + 1..];
    }
  }

  lemma JoinCons(a: string, parts: seq<string>, sep: string)
    requires |parts| >= 1
    ensures Join([a] + parts, sep) == a + sep + Join(parts, sep)
  {
    assert ([a] + parts)[1..] == parts;
  }

  /** Joining one more piece adds a separator and that piece. */
  lemma {:induction false} JoinSnoc(parts: seq<string>, x: string, sep: string)
    requires |parts| >= 1
    ensures Join(parts + [x], sep) == Join(parts, sep) + sep + x
    decreases |parts|
  {
    if |parts| == 1 {
      assert (parts + [x])[1..] == [x];
    } else {
      var rest := Join(parts[1..], sep);
      assert (parts + [x])[1..] == parts[1..] + [x];
      JoinSnoc(parts[1..], x, sep);
      assert parts[0] + sep + (rest + sep + x) == parts[0] + sep + rest + sep + x;
    }
  }

  /** The joined text starts with the first piece, then what an empty first piece gives. */
  lemma JoinFront(a: string, parts: seq<string>, sep: string)
    ensures Join([a] + parts, sep) == a + Join([""] + parts, sep)
  {
    if parts != [] {
      JoinCons(a, parts, sep);
      JoinCons("", parts, sep);
    }
  }

  /** The joined text ends with the last piece, after what an empty last piece gives. */
  lemma JoinBack(parts: seq<string>, b: string, sep: string)
    ensures Join(parts + [b], sep) == Join(parts + [""], sep) + b
  {
    if parts != [] {
      JoinSnoc(parts, b, sep);
      JoinSnoc(parts, "", sep);
    } else {
      assert parts + [b] == [b];
      assert parts + [""] == [""];
    }
  }

  /** Losing leading blanks keeps a single line so. */
  lemma TrimmedStart(c: string)
    requires SingleLine(c)
    ensures SingleLine(TrimStartOf(c, Whitespace))
  {
    TrimStartOfAbsent(c, Whitespace, '\n');
    var k := SolidIndex(c);
    TrimStartOfKeeps(c, Whitespace, k);
    var l := TrimStartOf(c, Whitespace);
    SolidStrip(l, k - (|c| - |l|));
  }

  /** Losing trailing blanks keeps a single line so. */
  lemma TrimmedEnd(c: string)
    requires SingleLine(c)
    ensures SingleLine(TrimEndOf(c, Whitespace))
  {
    TrimEndOfAbsent(c, Whitespace, '\n');
    var k := SolidIndex(c);
    TrimEndOfKeeps(c, Whitespace, k);
    SolidStrip(TrimEndOf(c, Whitespace), k);
  }

  /** Lines joined and ended by a line break: the first line, then the rest. */
  lemma JoinFrontEnded(a: string, parts: seq<string>)
    ensures Join([a] + parts, "\n") + "\n" == a + (Join([""] + parts, "\n") + "\n")
  {
    JoinFront(a, parts, "\n");
  }

  /** Lines joined and ended by a line break: the rest, then the last line and the break. */
  lemma JoinBackEnded(parts: seq<string>, b: string)
    ensures Join(parts + [b], "\n") + "\n" == Join(parts + [""], "\n") + (b + ['\n'])
  {
    JoinBack(parts, b, "\n");
  }

  /** `lstrip` of lines joined and ended by line breaks trims the first line. */
  lemma JoinLineTrimStart(parts: seq<string>)
    requires parts != [] && Strip(parts[0]) != []
    ensures TrimStartOf(Join(parts, "\n") + "\n", Whitespace)
      == Join(parts[0 := TrimStartOf(parts[0], Whitespace)], "\n") + "\n"
  {
    var c0, t := parts[0], parts[1..];
    var x := TrimStartOf(c0, Whitespace);
    assert parts == [c0] + t;
    assert parts[0 := x] == [x] + t;
    JoinFrontEnded(c0, t);
    JoinFrontEnded(x, t);
    TrimStartOfAppend(c0, Join([""] + t, "\n") + "\n", Whitespace);
  }

  /** `rstrip` of a text, a non-blank last line and a line break is the text and that line
      trimmed. */
  lemma TrimEndLastLine(front: string, z: string)
    requires Strip(z) != []
    ensures TrimEndOf(front + (z + ['\n']), Whitespace) == front + TrimEndOf(z, Whitespace)
  {
    var k := SolidIndex(z);
    TrimEndOfKeeps(z, Whitespace, k);
    TrimEndOfLast(z, '\n', Whitespace);
    TrimEndOfAppend(front, z + ['\n'], Whitespace);
  }

  /** `rstrip` of the same text drops the final break and trims the last line. */
  lemma JoinLineTrimEnd(parts: seq<string>)
    requires parts != [] && Strip(parts[|parts| - 1]) != []
    ensures TrimEndOf(Join(parts, "\n") + "\n", Whitespace)
      == Join(parts[|parts| - 1 := TrimEndOf(parts[|parts| - 1], Whitespace)], "\n")
  {
    var n := |parts|;
    var q, z := parts[..n - 1], parts[n - 1];
    var y := TrimEndOf(z, Whitespace);
    assert parts == q + [z];
    assert parts[n - 1 := y] == q + [y];
    JoinBackEnded(q, z);
    JoinBack(q, y, "\n");
    TrimEndLastLine(Join(q + [""], "\n"), z);
  }

  // ---------------------------------------------------------------- stripped lines

  /** The lines once the text around them is stripped: the first loses its leading
      blanks and the last its trailing ones. */
  function StrippedEnds(lines: seq<string>): (r: seq<string>)
    requires lines != []
    ensures |r| == |lines|
    ensures forall k :: 0 < k < |r| - 1 ==> r[k] == lines[k]
    ensures |r| > 1 ==> r[0] == TrimStartOf(lines[0], Whitespace)
    ensures |r| > 1 ==> r[|r| - 1] == TrimEndOf(lines[|r| - 1], Whitespace)
    ensures |r| == 1 ==> r[0] == TrimEndOf(TrimStartOf(lines[0], Whitespace), Whitespace)
  {
    var c := lines[0 := TrimStartOf(lines[0], Whitespace)];
    assert |c| > 1 ==> c[|c| - 1] == lines[|c| - 1];
    c[|c| - 1 := TrimEndOf(c[|c| - 1], Whitespace)]
  }

  /** One line of text: no line break inside, and more than blanks. */
  predicate SingleLine(c: string) {
    '\n' !in c && Strip(c) != []
  }

  /** The first line of `StrippedEnds` is still a single line. */
  lemma StrippedEndsFirst(lines: seq<string>)
    requires lines != [] && SingleLine(lines[0])
    ensures SingleLine(StrippedEnds(lines)[0])
  {
    var x := TrimStartOf(lines[0], Whitespace);
    TrimmedStart(lines[0]);
    if |lines| == 1 {
      TrimmedEnd(x);
    }
  }

  /** The last line of `StrippedEnds` is still a single line. */
  lemma StrippedEndsLast(lines: seq<string>)
    requires lines != [] && SingleLine(lines[0]) && SingleLine(lines[|lines| - 1])
    ensures SingleLine(StrippedEnds(lines)[|lines| - 1])
  {
    if |lines| == 1 {
      StrippedEndsFirst(lines);
    } else {
      TrimmedEnd(lines[|lines| - 1]);
    }
  }

  /** Every line of `StrippedEnds` is still a single line. */
  lemma StrippedEndsLines(lines: seq<string>)
    requires lines != [] && forall k :: 0 <= k < |lines| ==> SingleLine(lines[k])
    ensures forall k :: 0 <= k < |lines| ==> SingleLine(StrippedEnds(lines)[k])
  {
    var r := StrippedEnds(lines);
    forall k | 0 <= k < |r| ensures SingleLine(r[k]) {
      if k == 0 {
        StrippedEndsFirst(lines);
      } else if k == |r| - 1 {
        StrippedEndsLast(lines);
      } else {
        assert r[k] == lines[k];
      }
    }
  }

  /** Lines joined and ended by line breaks, then stripped: the stripped-ends lines
      joined by line breaks. */
  lemma StripJoined(lines: seq<string>)
    requires lines != [] && forall k :: 0 <= k < |lines| ==> SingleLine(lines[k])
    ensures Strip(Join(lines, "\n") + "\n") == Join(StrippedEnds(lines), "\n")
  {
    var s1 := lines[0 := TrimStartOf(lines[0], Whitespace)];
    assert SingleLine(lines[0]) && SingleLine(lines[|lines| - 1]);
    TrimmedStart(lines[0]);
    JoinLineTrimStart(lines);
    assert Strip(s1[|s1| - 1]) != [];
    JoinLineTrimEnd(s1);
  }

  /** Splitting that text at line breaks gives the stripped-ends lines. */
  lemma SplitStripJoined(lines: seq<string>)
    requires lines != [] && forall k :: 0 <= k < |lines| ==> SingleLine(lines[k])
    ensures Split(Strip(Join(lines, "\n") + "\n"), '\n') == StrippedEnds(lines)
  {
    var r := StrippedEnds(lines);
    StripJoined(lines);
    StrippedEndsLines(lines);
    SingleLinesNoBreak(r);
    assert "\n" == ['\n'];
    SplitJoin(r, '\n');
  }

  /** Single lines hold no line break. */
  lemma SingleLinesNoBreak(lines: seq<string>)
    requires forall k :: 0 <= k < |lines| ==> SingleLine(lines[k])
    ensures forall k :: 0 <= k < |lines| ==> '\n' !in lines[k]
  {
  }

  /** Lines with no blank at the outer ends keep them. */
  lemma StrippedEndsUnpadded(lines: seq<string>)
    requires lines != [] && Unpadded(lines[0]) && Unpadded(lines[|lines| - 1])
    ensures StrippedEnds(lines) == lines
  {
    UnpaddedTrim(lines[0]);
    UnpaddedTrim(lines[|lines| - 1]);
  }

  // ---------------------------------------------------------------- numbers

  function DigitChar(d: nat): (c: char)
    requires d < 10
    ensures IsDigit(c)
  {
    ('0' as int + d) as char
  }

  function DigitValue(c: char): (d: nat)
    requires IsDigit(c)
    ensures d < 10 && DigitChar(d) == c
  {
    c as int - '0' as int
  }

  /** `str(n)` for a non-negative integer: its decimal digits, without leading zeros. */
  function NatToString(n: nat): (s: string)
    ensures |s| >= 1 && AllDigits(s)
    ensures s[0] == '0' ==> n == 0 && s == "0"
  {
    if n < 10 then [DigitChar(n)] else NatToString(n / 10) + [DigitChar(n % 10)]
  }

  /** Where a greedy `\d*` started at `p` stops. */
  function SkipDigits(s: string, p: nat): (q: nat)
    requires p <= |s|
    ensures p <= q <= |s|
    ensures q == |s| || !IsDigit(s[q])
    decreases |s| - p
  {
    if p < |s| && IsDigit(s[p]) then SkipDigits(s, p + 1) else p
  }

  /** Everything `SkipDigits` passes over is a digit. */
  lemma {:induction false} SkipDigitsAll(s: string, p: nat)
    requires p <= |s|
    ensures forall x :: p <= x < SkipDigits(s, p) ==> IsDigit(s[x])
    decreases |s| - p
  {
    if p < |s| && IsDigit(s[p]) {
      SkipDigitsAll(s, p + 1);
    }
  }

  /** A run of digits ended by a non-digit or by the end is what `SkipDigits` passes over. */
  lemma {:induction false} SkipDigitsTo(s: string, p: nat, q: nat)
    requires p <= q <= |s| && forall x :: p <= x < q ==> IsDigit(s[x])
    requires q == |s| || !IsDigit(s[q])
    ensures SkipDigits(s, p) == q
    decreases q - p
  {
    if p < q {
      SkipDigitsTo(s, p + 1, q);
    }
  }

  /** `int(s)` for a non-empty string of ASCII digits (leading zeros are allowed). */
  function DigitsToNat(s: string): nat
    requires AllDigits(s)
    decreases |s|
  {
    if s == [] then 0 else 10 * DigitsToNat(s[..|s| - 1]) + DigitValue(s[|s| - 1])
  }

  /** `int(str(n)) == n`. */
  lemma {:induction false} DigitsToNatOfNatToString(n: nat)
    ensures DigitsToNat(NatToString(n)) == n
  {
    if n >= 10 {
      var s := NatToString(n);
      assert s[..|s| - 1] == NatToString(n / 10);
      DigitsToNatOfNatToString(n / 10);
    }
  }

  /** `str(int(s)) == s` for a digit string without a superfluous leading zero. */
  lemma {:induction false} NatToStringOfDigitsToNat(s: string)
    requires |s| >= 1 && AllDigits(s)
    requires s[0] == '0' ==> |s| == 1
    ensures NatToString(DigitsToNat(s)) == s
    decreases |s|
  {
    if |s| > 1 {
      var init := s[..|s| - 1];
      NatToStringOfDigitsToNat(init);
      assert DigitsToNat(init) >= 1;
      assert s == init + [s[|s| - 1]];
    }
  }

  /** `str(i)` for any integer. */
  function IntToString(i: int): (s: string)
    ensures |s| >= 1
  {
    if i < 0 then "-" + NatToString(-i) else NatToString(i)
  }

  // ---------------------------------------------------------------- ordering

  /** Python's `a <= b` on strings: lexicographic order by code point. */
  predicate StrLe(a: string, b: string)
    decreases |a|
  {
    if a == [] then true
    else if b == [] then false
    else if a[0] != b[0] then a[0] < b[0]
    else StrLe(a[1..], b[1..])
  }

  lemma {:induction false} StrLeTotal(a: string, b: string)
    ensures StrLe(a, b) || StrLe(b, a)
    decreases |a|
  {
    if a != [] && b != [] && a[0] == b[0] {
      StrLeTotal(a[1..], b[1..]);
    }
  }

  lemma {:induction false} StrLeTransitive(a: string, b: string, c: string)
    requires StrLe(a, b) && StrLe(b, c)
    ensures StrLe(a, c)
    decreases |a|
  {
    if a != [] && b != [] && c != [] && a[0] == b[0] && b[0] == c[0] {
      StrLeTransitive(a[1..], b[1..], c[1..]);
    }
  }

  lemma {:induction false} StrLeAntisymmetric(a: string, b: string)
    requires StrLe(a, b) && StrLe(b, a)
    ensures a == b
    decreases |a|
  {
    if a != [] && b != [] {
      StrLeAntisymmetric(a[1..], b[1..]);
      assert a == [a[0]] + a[1..];
      assert b == [b[0]] + b[1..];
    }
  }
}
