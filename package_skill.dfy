/** The packaging rules of the skill: the SKILL.md frontmatter and its validation, the
    archive's version, and which files of the skill directory go into the archive.
    File contents and the directory listing are parameters. */
module PackageSkill {
  import opened Wrappers
  import opened Text
  import opened Pyproject

  /** The failures raised as `ValidationError`, with what the message names. */
  datatype ValidationError =
    | NoFrontmatter
    | NotClosed
    | SkillMdNotFound
    | TooManyLines(maxLines: int, count: nat)
    | MissingName
    | MissingDescription

  // ---------------------------------------------------------------- frontmatter

  /** `\n---\s*\n` at `i`: the fence, then blanks that hold a newline (the greedy `\s*`
      gives back characters until a newline follows it). */
  predicate ClosingAt(t: string, i: nat)
    requires i <= |t|
  {
    i + 4 <= |t| && t[i..i + 4] == "\n---" && '\n' in t[i + 4..SkipSpaces(t, i + 4)]
  }

  /** `re.search(r"\n---\s*\n", t)` from `i`: where the first match starts. */
  function ClosingFrom(t: string, i: nat): (r: Option<nat>)
    requires i <= |t|
    ensures r.Some? ==> i <= r.value && r.value + 4 <= |t| && ClosingAt(t, r.value)
    ensures forall j :: i <= j <= |t| && (r.None? || j < r.value) ==> !ClosingAt(t, j)
    decreases |t| - i
  {
    if ClosingAt(t, i) then Some(i)
    else if i == |t| then None
    else ClosingFrom(t, i + 1)
  }

  /** Python's `s[a:b]` for `0 <= a` and `b <= |s|`: empty when `b <= a`. */
  function Slice(s: string, a: nat, b: nat): (r: string)
    requires b <= |s|
    ensures a < b ==> r == s[a..b]
    ensures b <= a ==> r == []
  {
    if a < b then s[a..b] else []
  }

  /** The text between the opening `---` and the closing fence, as sliced by
      `content[4 : end_match.start() + 3]`. */
  function FrontmatterText(content: string): (r: Result<string, ValidationError>)
    ensures r.Err? ==> r.error == (if StartsWith(content, "---") then NotClosed else NoFrontmatter)
  {
    if !StartsWith(content, "---") then Err(NoFrontmatter)
    else
      match ClosingFrom(content[3..], 0)
      case None => Err(NotClosed)
      case Some(i) => Ok(Slice(content, 4, i + 3))
  }

  /** `value.strip().strip('"').strip("'")`. */
  function Unquote(v: string): (r: string)
    ensures r == [] || (r[0] != '\'' && r[|r| - 1] != '\'')
  {
    StripOf(StripOf(Strip(v), {'"'}), {'\''})
  }

  /** One frontmatter line: `None` for a blank line, a comment or a line without `:`, and
      otherwise the trimmed key and the unquoted value. */
  function ParseLine(line: string): Option<(string, string)> {
    var l := Strip(line);
    if l == [] || l[0] == '#' then None
    else
      match Partition(l, ':')
      case None => None
      case Some((key, value)) => Some((Strip(key), Unquote(value)))
  }

  /** Each line, parsed. */
  function ParsedLines(lines: seq<string>): (parsed: seq<Option<(string, string)>>)
    ensures |parsed| == |lines|
    ensures forall i :: 0 <= i < |lines| ==> parsed[i] == ParseLine(lines[i])
  {
    seq(|lines|, i requires 0 <= i < |lines| => ParseLine(lines[i]))
  }

  /** One step of the loop of `parse_yaml_frontmatter`: a parsed line sets its key. */
  function AddEntry(m: map<string, string>, entry: Option<(string, string)>): (r: map<string, string>)
    ensures entry.None? ==> r == m
    ensures entry.Some? ==> r == m[entry.value.0 := entry.value.1]
  {
    match entry
    case None => m
    case Some((key, value)) => m[key := value]
  }

  /** The dictionary the loop of `parse_yaml_frontmatter` builds from the parsed lines:
      a later key overwrites an earlier one. */
  function Entries(parsed: seq<Option<(string, string)>>): map<string, string>
    decreases |parsed|
  {
    if parsed == [] then map[]
    else AddEntry(Entries(parsed[..|parsed| - 1]), parsed[|parsed| - 1])
  }

  function FrontmatterLines(text: string): seq<string> {
    Split(Strip(text), '\n')
  }

  /** What `parse_yaml_frontmatter` returns or raises. */
  function Frontmatter(content: string): Result<map<string, string>, ValidationError> {
    var text :- FrontmatterText(content);
    Ok(Entries(ParsedLines(FrontmatterLines(text))))
  }

  /** `parse_yaml_frontmatter`. */
  method ParseYamlFrontmatter(content: string) returns (r: Result<map<string, string>, ValidationError>)
    ensures r == Frontmatter(content)
  {
    var text :- FrontmatterText(content);
    var result := CollectEntries(FrontmatterLines(text));
    return Ok(result);
  }

  /** The loop of `parse_yaml_frontmatter` over the lines of the frontmatter. */
  method CollectEntries(lines: seq<string>) returns (result: map<string, string>)
    ensures result == Entries(ParsedLines(lines))
  {
    ghost var parsed := ParsedLines(lines);
    result := map[];
    for i := 0 to |lines|
      invariant result == Entries(parsed[..i])
    {
      assert parsed[..i + 1][..i] == parsed[..i];
      result := AddEntry(result, ParseLine(lines[i]));
    }
    assert parsed[..|lines|] == parsed;
  }

  /** A key is in the dictionary exactly when some line sets it. */
  lemma {:induction false} EntriesKeys(parsed: seq<Option<(string, string)>>, k: string)
    ensures k in Entries(parsed) <==> exists i :: 0 <= i < |parsed| && parsed[i].Some? && parsed[i].value.0 == k
    decreases |parsed|
  {
    if parsed != [] {
      var init := parsed[..|parsed| - 1];
      EntriesKeys(init, k);
      assert forall i :: 0 <= i < |init| ==> init[i] == parsed[i];
    }
  }

  /** The value of a key is the one on its last line. */
  lemma {:induction false} EntriesLast(parsed: seq<Option<(string, string)>>, j: nat)
    requires j < |parsed| && parsed[j].Some?
    requires forall i :: j < i < |parsed| && parsed[i].Some? ==> parsed[i].value.0 != parsed[j].value.0
    ensures parsed[j].value.0 in Entries(parsed) && Entries(parsed)[parsed[j].value.0] == parsed[j].value.1
    decreases |parsed|
  {
    var init := parsed[..|parsed| - 1];
    if j < |parsed| - 1 {
      assert forall i :: j < i < |init| ==> init[i] == parsed[i];
      EntriesLast(init, j);
    }
  }

  /** A `key: value` line reads back as that key and value, when the key is trimmed, holds
      no `:` and is no comment, and the value is neither padded nor quoted. */
  lemma ParseLineOf(key: string, value: string)
    requires key != [] && !IsSpace(key[0]) && !IsSpace(key[|key| - 1]) && key[0] != '#' && ':' !in key
    requires value != [] && !IsSpace(value[0]) && !IsSpace(value[|value| - 1])
    requires !IsQuote(value[0]) && !IsQuote(value[|value| - 1])
    ensures ParseLine(key + ": " + value) == Some((key, value))
  {
    var line := key + [':'] + (" " + value);
    assert key + ": " + value == line;
    StripPlain(key);
    StripPlain(line);
    PartitionAt(key, ':', " " + value);
    UnquotePadded(value);
  }

  /** A string with no blank at either end is its own `strip()`. */
  lemma StripPlain(s: string)
    requires s != [] && !IsSpace(s[0]) && !IsSpace(s[|s| - 1])
    ensures Strip(s) == s
  {
    WhitespaceIsSpace(s[0]);
    WhitespaceIsSpace(s[|s| - 1]);
    StripOfNoop(s, Whitespace);
  }

  /** The value after `key:` loses its one leading blank and nothing else. */
  lemma UnquotePadded(value: string)
    requires value != [] && !IsSpace(value[0]) && !IsSpace(value[|value| - 1])
    requires !IsQuote(value[0]) && !IsQuote(value[|value| - 1])
    ensures Unquote(" " + value) == value
  {
    var padded := " " + value;
    assert padded[1..] == value;
    TrimStartOfStep(padded);
    StripPlain(value);
    StripOfNoop(value, {'"'});
    StripOfNoop(value, {'\''});
  }

  /** A value in double or single quotes after `key:` loses its leading blank and the
      quotes. */
  lemma UnquoteQuoted(value: string, q: char)
    requires IsQuote(q)
    requires value != [] && !IsSpace(value[0]) && !IsSpace(value[|value| - 1])
    requires !IsQuote(value[0]) && !IsQuote(value[|value| - 1])
    ensures Unquote(" " + [q] + value + [q]) == value
  {
    var w := [q] + value + [q];
    assert " " + [q] + value + [q] == " " + w;
    StripLeadingBlank(w);
    if q == '"' {
      StripOfWrapped(value, q, {'"'});
      StripOfNoop(value, {'\''});
    } else {
      StripOfNoop(w, {'"'});
      StripOfWrapped(value, q, {'\''});
    }
  }

  /** One blank before a quoted text goes with `strip()`, and nothing else does. */
  lemma StripLeadingBlank(w: string)
    requires |w| >= 2 && IsQuote(w[0]) && IsQuote(w[|w| - 1])
    ensures Strip(" " + w) == w
  {
    var padded := " " + w;
    assert padded[1..] == w;
    TrimStartOfStep(padded);
    StripPlain(w);
  }

  /** A `key: "value"` or `key: 'value'` line reads back as that key and the value without
      its quotes. */
  lemma ParseLineQuoted(key: string, value: string, q: char)
    requires key != [] && !IsSpace(key[0]) && !IsSpace(key[|key| - 1]) && key[0] != '#' && ':' !in key
    requires IsQuote(q)
    requires value != [] && !IsSpace(value[0]) && !IsSpace(value[|value| - 1])
    requires !IsQuote(value[0]) && !IsQuote(value[|value| - 1])
    ensures ParseLine(key + ": " + [q] + value + [q]) == Some((key, value))
  {
    var rest := " " + [q] + value + [q];
    var line := key + [':'] + rest;
    assert key + ": " + [q] + value + [q] == line;
    StripPlain(key);
    StripPlain(line);
    PartitionAt(key, ':', rest);
    UnquoteQuoted(value, q);
  }

  /** `split(sep, 1)` of `a + sep + b`, where `a` has no `sep`, is `a` and `b`. */
  lemma PartitionAt(a: string, sep: char, b: string)
    requires sep !in a
    ensures Partition(a + [sep] + b, sep) == Some((a, b))
  {
    var s := a + [sep] + b;
    assert s[|a|] == sep;
    var p := Partition(s, sep).value;
    assert p.0 == s[..|a|] == a;
    assert p.1 == s[|a| + 1..] == b;
  }

  /** A leading blank goes with `lstrip`. */
  lemma TrimStartOfStep(s: string)
    requires s != [] && s[0] == ' '
    ensures TrimStartOf(s, Whitespace) == TrimStartOf(s[1..], Whitespace)
  {
  }

  // ---------------------------------------------------------------- SKILL.md validation

  /** The characters `str.splitlines` breaks at. */
  predicate IsLineBreak(c: char) {
    c == '\n' || c == '\r' || c == '\U{0B}' || c == '\U{0C}' || c == '\U{1C}' || c == '\U{1D}'
    || c == '\U{1E}' || c == '\U{85}' || c == '\U{2028}' || c == '\U{2029}'
  }

  /** The first line break at or after `i`, or `|s|`. */
  function LineEnd(s: string, i: nat): (e: nat)
    requires i <= |s|
    ensures i <= e <= |s| && (e == |s| || IsLineBreak(s[e]))
    ensures forall k :: i <= k < e ==> !IsLineBreak(s[k])
    decreases |s| - i
  {
    if i == |s| || IsLineBreak(s[i]) then i else LineEnd(s, i + 1)
  }

  /** `s.splitlines()`: the lines without their breaks, `\r\n` counting as one break and
      no empty line after a final break. */
  function SplitLines(s: string): (lines: seq<string>)
    decreases |s|
  {
    if s == [] then []
    else
      var e := LineEnd(s, 0);
      if e == |s| then [s]
      else
        var next := if s[e] == '\r' && e + 1 < |s| && s[e + 1] == '\n' then e + 2 else e + 1;
        [s[..e]] + SplitLines(s[next..])
  }

  /** Each line followed by `\n`, as a file is written line by line. */
  function Terminated(lines: seq<string>): string {
    if lines == [] then "" else lines[0] + "\n" + Terminated(lines[1..])
  }

  predicate NoLineBreak(line: string) {
    forall k :: 0 <= k < |line| ==> !IsLineBreak(line[k])
  }

  /** No line `splitlines` returns holds a break. */
  lemma {:induction false} SplitLinesNoBreak(s: string)
    ensures forall i :: 0 <= i < |SplitLines(s)| ==> NoLineBreak(SplitLines(s)[i])
    decreases |s|
  {
    if s != [] {
      var e := LineEnd(s, 0);
      if e < |s| {
        var next := if s[e] == '\r' && e + 1 < |s| && s[e + 1] == '\n' then e + 2 else e + 1;
        SplitLinesNoBreak(s[next..]);
      }
    }
  }

  /** Lines written one per `\n` split back into the same lines. */
  lemma {:induction false} SplitLinesTerminated(lines: seq<string>)
    requires forall i :: 0 <= i < |lines| ==> NoLineBreak(lines[i])
    ensures SplitLines(Terminated(lines)) == lines
    decreases |lines|
  {
    if lines != [] {
      TerminatedFirst(lines[0], Terminated(lines[1..]));
      SplitLinesTerminated(lines[1..]);
    }
  }

  /** A line without breaks, a newline and the rest: the line is cut off first. */
  lemma TerminatedFirst(l: string, rest: string)
    requires NoLineBreak(l)
    ensures var s := l + "\n" + rest; LineEnd(s, 0) == |l| && s[..|l|] == l && s[|l| + 1..] == rest
  {
    var s := l + "\n" + rest;
    assert s[|l|] == '\n';
    assert forall k :: 0 <= k < |l| ==> s[k] == l[k];
    LineEndAt(s, 0, |l|);
    assert s[..|l|] == l;
    assert s[|l| + 1..] == rest;
  }

  /** `LineEnd` stops at the first break. */
  lemma LineEndAt(s: string, i: nat, e: nat)
    requires i <= e < |s| && IsLineBreak(s[e])
    requires forall k :: i <= k < e ==> !IsLineBreak(s[k])
    ensures LineEnd(s, i) == e
    decreases e - i
  {
    if i < e {
      LineEndAt(s, i + 1, e);
    }
  }

  /** `validate_skill_md` over the content of SKILL.md (`None` when the file does not
      exist): the checks in the order the source makes them. */
  function ValidateSkillMd(skillMd: Option<string>, maxLines: int): (r: Result<map<string, string>, ValidationError>)
    ensures skillMd.None? ==> r == Err(SkillMdNotFound)
    ensures skillMd.Some? && |SplitLines(skillMd.value)| > maxLines
            ==> r == Err(TooManyLines(maxLines, |SplitLines(skillMd.value)|))
    ensures skillMd.Some? && |SplitLines(skillMd.value)| <= maxLines && Frontmatter(skillMd.value).Err?
            ==> r == Err(Frontmatter(skillMd.value).error)
    ensures r.Ok? <==> skillMd.Some? && |SplitLines(skillMd.value)| <= maxLines && Frontmatter(skillMd.value).Ok?
                       && "name" in Frontmatter(skillMd.value).value
                       && "description" in Frontmatter(skillMd.value).value
    ensures r.Ok? ==> r.value == Frontmatter(skillMd.value).value
  {
    match skillMd
    case None => Err(SkillMdNotFound)
    case Some(content) =>
      var count := |SplitLines(content)|;
      if count > maxLines then Err(TooManyLines(maxLines, count))
      else
        var frontmatter :- Frontmatter(content);
        if "name" !in frontmatter then Err(MissingName)
        else if "description" !in frontmatter then Err(MissingDescription)
        else Ok(frontmatter)
  }

  /** The default `max_lines` of `validate_skill_md`. */
  const MaxLines := 500

  /** A larger line limit never turns an accepted SKILL.md into a rejected one. */
  lemma ValidateMonotone(skillMd: Option<string>, m: int, n: int)
    requires m <= n && ValidateSkillMd(skillMd, m).Ok?
    ensures ValidateSkillMd(skillMd, n) == ValidateSkillMd(skillMd, m)
  {
  }

  // ---------------------------------------------------------------- version

  /** `get_version_from_pyproject` over the content of pyproject.toml (`None` when the file
      does not exist): the first `version = "..."` value, or `dev`. */
  function GetVersionFromPyproject(pyproject: Option<string>): (r: string)
    ensures r != []
    ensures pyproject.Some? && FindVersion(pyproject.value).Some? ==> r == FindVersion(pyproject.value).value
    ensures pyproject.None? || FindVersion(pyproject.value).None? ==> r == "dev"
  {
    match pyproject
    case None => "dev"
    case Some(content) =>
      match FindVersion(content)
      case None => "dev"
      case Some(v) => v
  }

  // ---------------------------------------------------------------- exclusions

  /** The patterns left out of an archive unless the caller gives its own. */
  const DefaultExclusions: seq<string> := [
    ".git/", ".git", ".gitignore",
    ".venv/", "__pycache__/", ".pytest_cache/", "*.egg-info/", "*.pyc", "*.pyo",
    "tests/",
    "uv.lock",
    ".claude/", ".cursor/", ".agent/", ".opencode/", ".github/", ".vscode/", ".idea/",
    ".ruff_cache/", ".mypy_cache/", ".markdownlint.json",
    ".DS_Store",
    "openspec/",
    "docs/", "AGENTS.md", "CLAUDE.md",
    "benchmark/"
  ]

  /** A relative path is the sequence of its components; its text joins them with `/`. */
  function PathStr(parts: seq<string>): string {
    Join(parts, "/")
  }

  /** The components of a relative path are nonempty and hold no `/`. */
  predicate ValidParts(parts: seq<string>) {
    |parts| >= 1 && forall i :: 0 <= i < |parts| ==> parts[i] != [] && '/' !in parts[i]
  }

  /** One pattern of `should_exclude` against one path, the four kinds tried in order:
      `*X/` matches a component ending in `X`; `D/` matches the component `D` or a path
      text starting with `D/`; `*S` matches a path text ending in `S`; anything else
      matches an equal component or an equal path text. */
  predicate Matches(pattern: string, parts: seq<string>) {
    if StartsWith(pattern, "*") && EndsWith(pattern, "/") then
      var suffix := Slice(pattern, 1, |pattern| - 1);
      exists j :: 0 <= j < |parts| && EndsWith(parts[j], suffix)
    else if EndsWith(pattern, "/") then
      var dirName := TrimEndOf(pattern, {'/'});
      dirName in parts || StartsWith(PathStr(parts), dirName + "/")
    else if StartsWith(pattern, "*") then
      EndsWith(PathStr(parts), pattern[1..])
    else
      pattern in parts || PathStr(parts) == pattern
  }

  /** Some pattern matches the path. */
  predicate Excluded(parts: seq<string>, exclusions: seq<string>) {
    exists k :: 0 <= k < |exclusions| && Matches(exclusions[k], parts)
  }

  /** `should_exclude`: the patterns in order, returning at the first that matches. */
  method ShouldExclude(parts: seq<string>, exclusions: seq<string>) returns (r: bool)
    ensures r == Excluded(parts, exclusions)
  {
    var pathStr := PathStr(parts);
    for i := 0 to |exclusions|
      invariant forall k :: 0 <= k < i ==> !Matches(exclusions[k], parts)
    {
      var pattern := exclusions[i];
      if StartsWith(pattern, "*") && EndsWith(pattern, "/") {
        var suffix := Slice(pattern, 1, |pattern| - 1);
        for j := 0 to |parts|
          invariant forall m :: 0 <= m < j ==> !EndsWith(parts[m], suffix)
        {
          if EndsWith(parts[j], suffix) {
            return true;
          }
        }
      } else if EndsWith(pattern, "/") {
        var dirName := TrimEndOf(pattern, {'/'});
        if dirName in parts || StartsWith(pathStr, dirName + "/") {
          return true;
        }
      } else if StartsWith(pattern, "*") {
        if EndsWith(pathStr, pattern[1..]) {
          return true;
        }
      } else if pattern in parts || pathStr == pattern {
        return true;
      }
    }
    return false;
  }

  /** `*X/` excludes exactly the paths with a component ending in `X`. */
  lemma GlobDirMatches(x: string, parts: seq<string>)
    ensures Matches("*" + x + "/", parts) <==> exists j :: 0 <= j < |parts| && EndsWith(parts[j], x)
  {
    var p := "*" + x + "/";
    assert p[..1] == "*" && p[|p| - 1..] == "/";
    assert Slice(p, 1, |p| - 1) == x;
  }

  /** `D/`, for a name `D` without `/` that does not start with `*`, excludes exactly the paths with the component `D`. */
  lemma DirMatches(d: string, parts: seq<string>)
    requires ValidParts(parts) && '/' !in d && (d == [] || d[0] != '*')
    ensures Matches(d + "/", parts) <==> d in parts
  {
    var p := d + "/";
    assert p[|p| - 1..] == "/";
    assert p[..|p| - 1] == d;
    assert TrimEndOf(p, {'/'}) == TrimEndOf(d, {'/'});
    TrimEndOfNoop(d, {'/'});
    if StartsWith(PathStr(parts), d + "/") {
      JoinPrefix(parts, d);
    }
  }

  /** A path text that starts with `D/` starts with the component `D`. */
  lemma JoinPrefix(parts: seq<string>, d: string)
    requires ValidParts(parts) && '/' !in d && StartsWith(PathStr(parts), d + "/")
    ensures parts[0] == d
  {
    var t := PathStr(parts);
    var p := parts[0];
    assert t[|d|] == '/';
    assert |parts| >= 2;
    assert t == p + "/" + Join(parts[1..], "/");
    assert forall k :: 0 <= k < |p| ==> t[k] == p[k];
    assert forall k :: 0 <= k < |d| ==> t[k] == d[k];
    assert t[|p|] == '/' && t[|d|] == '/';
    assert |p| == |d|;
    assert p == t[..|p|] == d;
  }

  /** `*S`, where `S` does not end in `/`, excludes exactly the path texts ending in `S`. */
  lemma GlobFileMatches(suffix: string, parts: seq<string>)
    requires suffix == [] || suffix[|suffix| - 1] != '/'
    ensures Matches("*" + suffix, parts) <==> EndsWith(PathStr(parts), suffix)
  {
    var p := "*" + suffix;
    assert p[..1] == "*" && p[1..] == suffix;
    assert p[|p| - 1..] == [p[|p| - 1]];
  }

  /** With no patterns nothing is excluded. */
  lemma ExcludedNone(parts: seq<string>)
    ensures !Excluded(parts, [])
  {
  }

  /** More patterns never take an excluded path back in. */
  lemma ExcludedMonotone(parts: seq<string>, exclusions: seq<string>, more: seq<string>)
    requires forall k :: 0 <= k < |exclusions| ==> exclusions[k] in more
    requires Excluded(parts, exclusions)
    ensures Excluded(parts, more)
  {
    var k :| 0 <= k < |exclusions| && Matches(exclusions[k], parts);
    var m :| 0 <= m < |more| && more[m] == exclusions[k];
  }

  /** A pattern that matches excludes. */
  lemma ExcludedBy(parts: seq<string>, exclusions: seq<string>, k: nat)
    requires k < |exclusions| && Matches(exclusions[k], parts)
    ensures Excluded(parts, exclusions)
  {
  }

  /** An illustration on one concrete path, not a general property: `.git/config` is
      left out by `.git/`, as the packaging tests expect.  DirMatches is the general rule. */
  lemma GitExample()
    ensures Excluded([".git", "config"], [".git/"])
  {
    var parts := [".git", "config"];
    var p := ".git/";
    assert p[|p| - 1..] == "/" && p[..1] == ['.'];
    assert TrimEndOf(p, {'/'}) == ".git";
    assert parts[0] == ".git";
    ExcludedBy(parts, [p], 0);
  }

  /** An illustration on one concrete path, not a general property: `src/module.pyc` is
      left out by `*.pyc`, as the packaging tests expect.  GlobFileMatches is the general
      rule. */
  lemma PycExample()
    ensures Excluded(["src", "module.pyc"], ["*.pyc"])
  {
    var parts := ["src", "module.pyc"];
    var p := "*.pyc";
    assert p[|p| - 1..] == "c" && p[..1] == "*" && p[1..] == ".pyc";
    var t := PathStr(parts);
    assert t == "src/module.pyc";
    assert t[|t| - 4..] == ".pyc";
    ExcludedBy(parts, [p], 0);
  }

  /** An illustration on one concrete path, not a general property: `scripts/main.py` is
      kept by `.git/` and `*.pyc`, as the packaging tests expect. */
  lemma KeptExample()
    ensures !Excluded(["scripts", "main.py"], [".git/", "*.pyc"])
  {
    var parts := ["scripts", "main.py"];
    var t := PathStr(parts);
    assert t == "scripts/main.py";
    var p := ".git/";
    assert p[|p| - 1..] == "/" && p[..1] == ['.'];
    assert TrimEndOf(p, {'/'}) == ".git";
    assert t[..5] != ".git/" by { assert t[0] == 's'; }
    assert !Matches(p, parts);
    var q := "*.pyc";
    assert q[|q| - 1..] == "c" && q[..1] == "*" && q[1..] == ".pyc";
    assert t[|t| - 4..] != ".pyc" by { assert t[|t| - 1] == 'y'; }
    assert !Matches(q, parts);
  }

  // ---------------------------------------------------------------- collecting files

  /** One entry of the recursive listing of the skill directory: its path relative to the
      directory and whether it is a directory. */
  datatype Entry = Entry(parts: seq<string>, isDir: bool)

  /** The paths `collect_files` appends, in listing order: files no pattern excludes. */
  function Kept(listing: seq<Entry>, exclusions: seq<string>): seq<seq<string>>
    decreases |listing|
  {
    if listing == [] then []
    else
      var e := listing[|listing| - 1];
      Kept(listing[..|listing| - 1], exclusions)
      + (if !e.isDir && !Excluded(e.parts, exclusions) then [e.parts] else [])
  }

  /** A path is kept exactly when the listing holds it as a file no pattern excludes. */
  lemma {:induction false} KeptMembers(listing: seq<Entry>, exclusions: seq<string>, p: seq<string>)
    ensures p in Kept(listing, exclusions)
            <==> exists i :: 0 <= i < |listing| && listing[i] == Entry(p, false) && !Excluded(p, exclusions)
    decreases |listing|
  {
    if listing != [] {
      var init := listing[..|listing| - 1];
      KeptMembers(init, exclusions, p);
      assert forall i :: 0 <= i < |init| ==> init[i] == listing[i];
    }
  }

  /** Python's order on relative paths: component by component, each compared as a string. */
  predicate PathLe(a: seq<string>, b: seq<string>)
    decreases |a|
  {
    if a == [] then true
    else if b == [] then false
    else if a[0] != b[0] then StrLe(a[0], b[0])
    else PathLe(a[1..], b[1..])
  }

  lemma {:induction false} PathLeTotal(a: seq<string>, b: seq<string>)
    ensures PathLe(a, b) || PathLe(b, a)
    decreases |a|
  {
    if a != [] && b != [] {
      if a[0] == b[0] {
        PathLeTotal(a[1..], b[1..]);
      } else {
        StrLeTotal(a[0], b[0]);
      }
    }
  }

  lemma {:induction false} PathLeTransitive(a: seq<string>, b: seq<string>, c: seq<string>)
    requires PathLe(a, b) && PathLe(b, c)
    ensures PathLe(a, c)
    decreases |a|
  {
    if a != [] && b != [] && c != [] {
      if a[0] == b[0] && b[0] == c[0] {
        PathLeTransitive(a[1..], b[1..], c[1..]);
      } else if a[0] != b[0] && b[0] != c[0] {
        StrLeTransitive(a[0], b[0], c[0]);
        if a[0] == c[0] {
          StrLeAntisymmetric(a[0], b[0]);
        }
      }
    }
  }

  /** Adjacent paths are in order. */
  predicate PathsSorted(s: seq<seq<string>>) {
    forall i :: 0 < i < |s| ==> PathLe(s[i - 1], s[i])
  }

  /** `x` placed before the first path it does not follow. */
  function Insert(x: seq<string>, s: seq<seq<string>>): seq<seq<string>>
    decreases |s|
  {
    if s == [] then [x]
    else if PathLe(x, s[0]) then [x] + s
    else [s[0]] + Insert(x, s[1..])
  }

  /** `sorted(files)`. */
  function SortPaths(s: seq<seq<string>>): seq<seq<string>>
    decreases |s|
  {
    if s == [] then [] else Insert(s[0], SortPaths(s[1..]))
  }

  /** `Insert` starts with the new path or with the old first one. */
  lemma InsertHead(x: seq<string>, s: seq<seq<string>>)
    ensures Insert(x, s) != [] && (Insert(x, s)[0] == x || (s != [] && Insert(x, s)[0] == s[0]))
  {
  }

  /** `Insert` adds exactly the new path. */
  lemma {:induction false} InsertPerm(x: seq<string>, s: seq<seq<string>>)
    ensures multiset(Insert(x, s)) == multiset(s) + multiset{x}
    decreases |s|
  {
    if s != [] && !PathLe(x, s[0]) {
      InsertPerm(x, s[1..]);
      assert s == [s[0]] + s[1..];
    }
  }

  /** The tail of a sorted sequence is sorted. */
  lemma SortedTail(s: seq<seq<string>>)
    requires s != [] && PathsSorted(s)
    ensures PathsSorted(s[1..])
  {
    var t := s[1..];
    forall i | 0 < i < |t| ensures PathLe(t[i - 1], t[i]) {
      assert t[i - 1] == s[i] && t[i] == s[i + 1];
    }
  }

  /** `Insert` keeps a sorted sequence sorted. */
  lemma {:induction false} InsertSorted(x: seq<string>, s: seq<seq<string>>)
    requires PathsSorted(s)
    ensures PathsSorted(Insert(x, s))
    decreases |s|
  {
    if s != [] && !PathLe(x, s[0]) {
      var t := s[1..];
      SortedTail(s);
      InsertSorted(x, t);
      InsertHead(x, t);
      PathLeTotal(x, s[0]);
      var u := Insert(x, t);
      var r := [s[0]] + u;
      assert Insert(x, s) == r;
      assert PathLe(r[0], r[1]);
      forall i | 1 < i < |r| ensures PathLe(r[i - 1], r[i]) {
        assert r[i - 1] == u[i - 2] && r[i] == u[i - 1];
      }
    }
  }

  /** `sorted` returns its argument in order. */
  lemma {:induction false} SortPathsSpec(s: seq<seq<string>>)
    ensures PathsSorted(SortPaths(s))
    ensures multiset(SortPaths(s)) == multiset(s)
    decreases |s|
  {
    if s != [] {
      SortPathsSpec(s[1..]);
      InsertSorted(s[0], SortPaths(s[1..]));
      InsertPerm(s[0], SortPaths(s[1..]));
      assert multiset(s) == multiset(s[1..]) + multiset{s[0]} by {
        assert s == [s[0]] + s[1..];
      }
    }
  }

  /** `collect_files` over the listing of the skill directory: the loop keeps the files no
      pattern excludes, and the result is sorted. */
  method CollectFiles(listing: seq<Entry>, exclusions: seq<string>) returns (files: seq<seq<string>>)
    ensures files == SortPaths(Kept(listing, exclusions))
    ensures PathsSorted(files) && multiset(files) == multiset(Kept(listing, exclusions))
  {
    files := [];
    for i := 0 to |listing|
      invariant files == Kept(listing[..i], exclusions)
    {
      assert listing[..i + 1][..i] == listing[..i];
      var entry := listing[i];
      if !entry.isDir {
        var excluded := ShouldExclude(entry.parts, exclusions);
        if !excluded {
          files := files + [entry.parts];
        }
      }
    }
    assert listing[..|listing|] == listing;
    SortPathsSpec(files);
    files := SortPaths(files);
  }

  // ---------------------------------------------------------------- packaging

  /** What a packaging run reports: the metadata, the files and the archive's name
      (`None` on a dry run). */
  datatype Package = Package(name: string, description: string, version: string,
                             files: seq<seq<string>>, archive: Option<string>)

  /** The archive is named after the skill and its version. */
  function ArchiveName(name: string, version: string): string {
    name + "-" + version + ".skill"
  }

  /** The patterns a run uses: the caller's, unless there are none. */
  function PatternsOf(exclusions: Option<seq<string>>): (r: seq<string>)
    ensures exclusions.Some? && exclusions.value != [] ==> r == exclusions.value
    ensures exclusions.None? || exclusions.value == [] ==> r == DefaultExclusions
  {
    match exclusions
    case Some(patterns) => if patterns == [] then DefaultExclusions else patterns
    case None => DefaultExclusions
  }

  /** `package_skill` over the contents of SKILL.md and pyproject.toml and the listing of
      the skill directory. */
  function PackageSkill(skillMd: Option<string>, pyproject: Option<string>, listing: seq<Entry>,
                        exclusions: Option<seq<string>>, dryRun: bool): (r: Result<Package, ValidationError>)
    ensures r.Err? <==> ValidateSkillMd(skillMd, MaxLines).Err?
    ensures r.Err? ==> r.error == ValidateSkillMd(skillMd, MaxLines).error
  {
    var frontmatter :- ValidateSkillMd(skillMd, MaxLines);
    var name := frontmatter["name"];
    var version := GetVersionFromPyproject(pyproject);
    var files := SortPaths(Kept(listing, PatternsOf(exclusions)));
    Ok(Package(name, frontmatter["description"], version, files,
               if dryRun then None else Some(ArchiveName(name, version))))
  }

  /** A packaging run takes the name and description from the frontmatter, the version
      from pyproject.toml, exactly the files no pattern excludes, in order, and names the
      archive `<name>-<version>.skill` unless it is a dry run. */
  lemma PackageSkillSpec(skillMd: Option<string>, pyproject: Option<string>, listing: seq<Entry>,
                         exclusions: Option<seq<string>>, dryRun: bool, p: seq<string>)
    requires PackageSkill(skillMd, pyproject, listing, exclusions, dryRun).Ok?
    ensures var pkg := PackageSkill(skillMd, pyproject, listing, exclusions, dryRun).value;
            var frontmatter := Frontmatter(skillMd.value).value;
            && pkg.name == frontmatter["name"] && pkg.description == frontmatter["description"]
            && pkg.version == GetVersionFromPyproject(pyproject)
            && PathsSorted(pkg.files)
            && (p in pkg.files <==> exists i :: 0 <= i < |listing| && listing[i] == Entry(p, false)
                                           && !Excluded(p, PatternsOf(exclusions)))
            && pkg.archive == (if dryRun then None else Some(pkg.name + "-" + pkg.version + ".skill"))
  {
    var kept := Kept(listing, PatternsOf(exclusions));
    SortPathsSpec(kept);
    KeptMembers(listing, PatternsOf(exclusions), p);
    assert p in SortPaths(kept) <==> p in multiset(SortPaths(kept));
  }
}

