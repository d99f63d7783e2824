/** RELEASE.md as the release script handles it: the notes template built from commit
    lines, the parser that maps each version header to its section, and the insertion
    of a new section.  File contents and the date are parameters. */
module ReleaseNotes {
  import opened Wrappers
  import opened Text
  import opened Pyproject

  // ---------------------------------------------------------------- the template

  const NoChanges: string := "- No changes since last release"
  const MaxCommits: nat := 20

  /** `commit.split(" ", 1)`: the text after the first space (the commit hash goes), or
      the whole line when it has no space. */
  function MessagePart(commit: string): string {
    match Partition(commit, ' ')
    case Some((_, rest)) => rest
    case None => commit
  }

  function NoteLine(commit: string): string {
    "- " + MessagePart(commit)
  }

  /** One note line per commit. */
  function NoteLines(commits: seq<string>): (lines: seq<string>)
    ensures |lines| == |commits|
    ensures forall k :: 0 <= k < |commits| ==> lines[k] == NoteLine(commits[k])
  {
    seq(|commits|, k requires 0 <= k < |commits| => NoteLine(commits[k]))
  }

  function Min(a: nat, b: nat): nat {
    if a <= b then a else b
  }

  /** What `generate_release_notes_template` returns: the notes of the first 20 commits,
      one line each. */
  function Template(commits: seq<string>): string {
    if commits == [] then NoChanges
    else Join(NoteLines(commits[..Min(MaxCommits, |commits|)]), "\n")
  }

  /** `generate_release_notes_template`. */
  method GenerateReleaseNotesTemplate(commits: seq<string>) returns (notes: string)
    ensures notes == Template(commits)
  {
    if |commits| == 0 {
      return NoChanges;
    }
    var lines: seq<string> := [];
    var n := Min(MaxCommits, |commits|);
    for i := 0 to n
      invariant |lines| == i
      invariant forall k :: 0 <= k < i ==> lines[k] == NoteLine(commits[k])
    {
      var line;
      match Partition(commits[i], ' ') {
        case Some((_, rest)) => line := "- " + rest;
        case None => line := "- " + commits[i];
      }
      assert line == NoteLine(commits[i]);
      lines := lines + [line];
    }
    assert lines == NoteLines(commits[..n]);
    notes := Join(lines, "\n");
  }

  /** The message of a commit line: what follows the first space, or all of it. */
  lemma MessagePartSpec(commit: string)
    ensures ' ' !in commit ==> MessagePart(commit) == commit
    ensures ' ' in commit ==> exists hash :: ' ' !in hash && commit == hash + " " + MessagePart(commit)
  {
    if ' ' in commit {
      var (hash, rest) := Partition(commit, ' ').value;
      assert commit == hash + " " + rest;
    }
  }

  lemma NoNewlineInNoteLine(commit: string)
    requires '\n' !in commit
    ensures '\n' !in NoteLine(commit)
  {
    if ' ' in commit {
      var (hash, rest) := Partition(commit, ' ').value;
      assert commit == hash + [' '] + rest;
      assert forall x :: 0 <= x < |rest| ==> rest[x] == commit[|hash| + 1 + x];
    }
  }

  /** The template has one line per commit, at most 20, each `- ` and the message, when
      the commit lines hold no newline. */
  lemma TemplateLines(commits: seq<string>)
    requires commits != []
    requires forall k :: 0 <= k < |commits| ==> '\n' !in commits[k]
    ensures Split(Template(commits), '\n') == NoteLines(commits[..Min(MaxCommits, |commits|)])
    ensures |Split(Template(commits), '\n')| == Min(MaxCommits, |commits|)
  {
    var first := commits[..Min(MaxCommits, |commits|)];
    var lines := NoteLines(first);
    forall k | 0 <= k < |lines|
      ensures '\n' !in lines[k]
    {
      NoNewlineInNoteLine(first[k]);
    }
    SplitJoin(lines, '\n');
  }

  // ---------------------------------------------------------------- writing

  /** The section `write_release_notes` adds for `version`, dated `today`. */
  function NewSection(version: string, today: string, notes: string): string {
    "## v" + version + " (" + today + ")\n\n" + notes + "\n\n"
  }

  const Title: string := "# Release Notes\n\n"

  /** What `write_release_notes` writes, given what RELEASE.md held (`None`: no such
      file): the new section goes before the first `\n## ` found after the start of the
      file, and otherwise at the end. */
  function WriteReleaseNotes(existing: Option<string>, version: string, today: string, notes: string): string {
    var section := NewSection(version, today, notes);
    match existing
    case None => Title + section
    case Some(content) =>
      var h := Find(content, "\n## ");
      if h > 0 then content[..h] + "\n" + section + content[h + 1..]
      else TrimEndOf(content, Whitespace) + "\n\n" + section
  }

  /** The lines of the file `create_initial_release_md` writes when there is none (the
      longer ones in pieces). */
  const InitialLines: seq<string> := [
    "# Release Notes",
    "",
    "This file documents all " + "notable changes to this project.",
    "Format: Each version section " + "contains a list of changes.",
    "",
    "<!-- Versions are added " + "automatically by " + "scripts/release.py -->",
    ""
  ]

  const InitialReleaseMd: string := Join(InitialLines, "\n")

  /** RELEASE.md after `create_initial_release_md`: an existing file is left alone. */
  function CreateInitialReleaseMd(existing: Option<string>): (r: string)
    ensures existing.Some? ==> r == existing.value
    ensures existing.None? ==> r == InitialReleaseMd
  {
    existing.GetOr(InitialReleaseMd)
  }

  /** Inserting before an existing section: the text up to and including the newline
      that ends the header is kept, then comes the new section, then the rest of the
      old file unchanged; and the new section is the first `\n## ` the next write
      finds, so sections stay newest first. */
  lemma WriteBeforeFirstSection(content: string, version: string, today: string, notes: string)
    requires Find(content, "\n## ") > 0
    ensures var h := Find(content, "\n## ");
            var r := WriteReleaseNotes(Some(content), version, today, notes);
            var section := NewSection(version, today, notes);
            && r[..h + 1] == content[..h + 1]
            && r[h + 1..h + 1 + |section|] == section
            && r[h + 1 + |section|..] == content[h + 1..]
            && Find(r, "\n## ") == h
  {
    var h := Find(content, "\n## ");
    var section := NewSection(version, today, notes);
    var r := WriteReleaseNotes(Some(content), version, today, notes);
    var head := content[..h] + "\n";
    assert content[h..h + 4] == "\n## ";
    assert head == content[..h + 1];
    assert r == head + section + content[h + 1..];
    assert section[..3] == "## ";
    assert r[..h + 4] == content[..h + 4] by {
      assert r[..h + 4] == head + section[..3];
      assert content[..h + 4] == content[..h + 1] + content[h + 1..h + 4];
    }
    forall i | 0 <= i < h
      ensures !OccursAt(r, "\n## ", i)
    {
      PrefixOccurs(r, content, h + 4, "\n## ", i);
    }
    PrefixOccurs(r, content, h + 4, "\n## ", h);
    FindIs(r, "\n## ", h);
  }

  /** Strings that agree on a prefix agree on the occurrences inside it. */
  lemma PrefixOccurs(s: string, t: string, n: nat, pat: string, i: nat)
    requires n <= |s| && n <= |t| && s[..n] == t[..n] && i + |pat| <= n
    ensures OccursAt(s, pat, i) <==> OccursAt(t, pat, i)
  {
    assert s[i..i + |pat|] == s[..n][i..i + |pat|];
    assert t[i..i + |pat|] == t[..n][i..i + |pat|];
  }

  /** `Find` returns the first occurrence. */
  lemma FindIs(s: string, pat: string, h: nat)
    requires OccursAt(s, pat, h)
    requires forall i :: 0 <= i < h ==> !OccursAt(s, pat, i)
    ensures Find(s, pat) == h
  {
    FindFromIs(s, pat, 0, h);
  }

  lemma {:induction false} FindFromIs(s: string, pat: string, from: nat, h: nat)
    requires from <= h && OccursAt(s, pat, h)
    requires forall i :: from <= i < h ==> !OccursAt(s, pat, i)
    ensures FindFrom(s, pat, from) == h
    decreases h - from
  {
    if from < h {
      FindFromIs(s, pat, from + 1, h);
    }
  }

  /** Without any `\n## ` after the first character, the old text loses its trailing
      whitespace and the new section is appended after a blank line. */
  lemma WriteAtEnd(content: string, version: string, today: string, notes: string)
    requires Find(content, "\n## ") <= 0
    ensures var r := WriteReleaseNotes(Some(content), version, today, notes);
            var kept := TrimEndOf(content, Whitespace);
            && r == kept + "\n\n" + NewSection(version, today, notes)
            && content[..|kept|] == kept
            && forall k :: |kept| <= k < |content| ==> IsSpace(content[k])
  {
    var kept := TrimEndOf(content, Whitespace);
    forall k | |kept| <= k < |content| ensures IsSpace(content[k]) {
      WhitespaceIsSpace(content[k]);
    }
  }

  // ---------------------------------------------------------------- parsing

  /* `parse_release_notes` runs, in multi-line and dot-all mode,
       ^##\s+v?(\d+\.\d+\.\d+)\s*(?:\([^)]*\))?\s*\n(.*?)(?=^##\s+v?\d+\.\d+\.\d+|\Z)
     Every part before the body is decided by the next character, so the functions below
     follow the matcher run by run; what is left to backtracking is where the last newline
     of the gap before the body lies. */

  /** `\d+\.\d+\.\d+` at `d`: the span of the three groups, the third one taken whole. */
  function Triple(s: string, d: nat): (r: Option<Span>)
    requires d <= |s|
    ensures r.Some? ==> r.value.start == d < r.value.end <= |s|
    ensures r.Some? ==> r.value.end == |s| || !IsDigit(s[r.value.end])
  {
    var a := SkipDigits(s, d);
    if a == d || a == |s| || s[a] != '.' then None
    else
      var b := SkipDigits(s, a + 1);
      if b == a + 1 || b == |s| || s[b] != '.' then None
      else
        var c := SkipDigits(s, b + 1);
        if c == b + 1 then None else Some(Span(d, c))
  }

  /** `^##\s+v?\d+\.\d+\.\d+` at `p`: the span of the version it names. */
  function Header(s: string, p: nat): (r: Option<Span>)
    ensures r.Some? ==> p + 3 <= r.value.start < r.value.end <= |s|
  {
    if !(LineStart(s, p) && p + 2 <= |s| && s[p] == '#' && s[p + 1] == '#') then None
    else
      var w := SkipSpaces(s, p + 2);
      if w == p + 2 then None
      else Triple(s, if w < |s| && s[w] == 'v' then w + 1 else w)
  }

  /** The last newline in `s[a..b]`. */
  function LastNewline(s: string, a: nat, b: nat): (r: Option<nat>)
    requires a <= b <= |s|
    ensures r.Some? ==> a <= r.value < b && s[r.value] == '\n'
    decreases b - a
  {
    if a == b then None
    else if s[b - 1] == '\n' then Some(b - 1)
    else LastNewline(s, a, b - 1)
  }

  /** Where a greedy `[^)]*` started at `p` stops. */
  function SkipNonClose(s: string, p: nat): (q: nat)
    requires p <= |s|
    ensures p <= q <= |s|
    decreases |s| - p
  {
    if p < |s| && s[p] != ')' then SkipNonClose(s, p + 1) else p
  }

  /** `\s*(?:\([^)]*\))?\s*\n` after the version, which ends at `c`: where the body
      starts.  With a parenthesised part, the body starts after the last newline of the
      blanks that follow it; without one (or when those blanks hold no newline), after
      the last newline of the blanks that follow the version. */
  function BodyStart(s: string, c: nat): (r: Option<nat>)
    requires c <= |s|
    ensures r.Some? ==> c < r.value <= |s| && s[r.value - 1] == '\n'
  {
    var w := SkipSpaces(s, c);
    var plain := match LastNewline(s, c, w) case Some(y) => Some(y + 1) case None => None;
    if w < |s| && s[w] == '(' then
      var z := SkipNonClose(s, w + 1);
      if z == |s| then plain
      else
        var w2 := SkipSpaces(s, z + 1);
        match LastNewline(s, z + 1, w2)
        case Some(y) => Some(y + 1)
        case None => plain
    else plain
  }

  /** `(.*?)(?=^##\s+v?\d+\.\d+\.\d+|\Z)`: the body runs to the next header or to the end. */
  function BodyEnd(s: string, b: nat): (e: nat)
    requires b <= |s|
    ensures b <= e <= |s|
    decreases |s| - b
  {
    if b == |s| || Header(s, b).Some? then b else BodyEnd(s, b + 1)
  }

  /** One match: the version (group 1), the body (group 2), and where the match ends. */
  datatype Section = Section(version: string, body: string, end: nat)

  function SectionAt(s: string, p: nat): (r: Option<Section>)
    ensures r.Some? ==> p < r.value.end <= |s|
  {
    match Header(s, p)
    case None => None
    case Some(v) =>
      match BodyStart(s, v.end)
      case None => None
      case Some(b) =>
        var e := BodyEnd(s, b);
        Some(Section(s[v.start..v.end], s[b..e], e))
  }

  /** The match, if any, at each position of `s`. */
  function Table(s: string): (t: seq<Option<Section>>)
    ensures |t| == |s| && Advances(t)
    ensures forall p :: 0 <= p < |s| ==> t[p] == SectionAt(s, p)
  {
    seq(|s|, p requires 0 <= p < |s| => SectionAt(s, p))
  }

  /** Every match ends after it starts and within the text. */
  predicate Advances(t: seq<Option<Section>>) {
    forall p :: 0 <= p < |t| && t[p].Some? ==> p < t[p].value.end <= |t|
  }

  /** `finditer` from `pos` over the matches at each position: after a match the search
      resumes where it ended. */
  function FoundIn(t: seq<Option<Section>>, pos: nat): seq<Section>
    requires Advances(t) && pos <= |t|
    decreases |t| - pos
  {
    if pos == |t| then []
    else
      match t[pos]
      case None => FoundIn(t, pos + 1)
      case Some(sec) => [sec] + FoundIn(t, sec.end)
  }

  /** What `re.finditer` yields on `s`, in order. */
  function Found(s: string): seq<Section> {
    FoundIn(Table(s), 0)
  }

  /** The dictionary the matches fill, in order, with each body stripped: a later
      section of the same version replaces an earlier one. */
  function Collect(found: seq<Section>): (m: map<string, string>)
    ensures forall k :: k in m <==> exists i :: 0 <= i < |found| && found[i].version == k
  {
    if found == [] then map[]
    else
      var last := found[|found| - 1];
      var m := Collect(found[..|found| - 1]);
      assert forall i :: 0 <= i < |found| - 1 ==> found[..|found| - 1][i] == found[i];
      m[last.version := Strip(last.body)]
  }

  /** What `parse_release_notes` returns for the contents of RELEASE.md (`None`: no file). */
  function Sections(content: Option<string>): map<string, string> {
    match content
    case None => map[]
    case Some(s) => Collect(Found(s))
  }

  /** `parse_release_notes`. */
  method ParseReleaseNotes(content: Option<string>) returns (sections: map<string, string>)
    ensures sections == Sections(content)
  {
    if content.None? {
      return map[];
    }
    sections := FillSections(Found(content.value));
  }

  /** The loop of `parse_release_notes`: the dictionary filled match by match. */
  method FillSections(found: seq<Section>) returns (sections: map<string, string>)
    ensures sections == Collect(found)
  {
    sections := map[];
    for i := 0 to |found|
      invariant sections == Collect(found[..i])
    {
      assert found[..i + 1][..i] == found[..i];
      sections := sections[found[i].version := Strip(found[i].body)];
    }
    assert found[..|found|] == found;
  }

  /** The notes stored for a version are those of its last section. */
  lemma {:induction false} CollectLast(found: seq<Section>, j: nat)
    requires j < |found|
    requires forall i :: j < i < |found| ==> found[i].version != found[j].version
    ensures Collect(found)[found[j].version] == Strip(found[j].body)
    decreases |found|
  {
    if j < |found| - 1 {
      var init := found[..|found| - 1];
      assert forall i :: j < i < |init| ==> init[i] == found[i];
      CollectLast(init, j);
    }
  }

  // ---------------------------------------------------------------- version texts

  /** `\d+\.\d+\.\d+` and nothing more. */
  predicate VersionText(v: string) {
    Triple(v, 0) == Some(Span(0, |v|))
  }

  /** `v` sits in `s` at `d`, and no digit follows it. */
  predicate PlacedAt(s: string, d: nat, v: string) {
    && d + |v| <= |s|
    && (forall y :: 0 <= y < |v| ==> s[d + y] == v[y])
    && (d + |v| == |s| || !IsDigit(s[d + |v|]))
  }

  lemma {:induction false} SkipDigitsShift(s: string, d: nat, v: string, x: nat)
    requires PlacedAt(s, d, v) && x <= |v|
    ensures SkipDigits(s, d + x) == d + SkipDigits(v, x)
    decreases |v| - x
  {
    if x < |v| && IsDigit(v[x]) {
      SkipDigitsShift(s, d, v, x + 1);
    }
  }

  /** The three groups read the same inside `s` and on their own. */
  lemma TripleShift(s: string, d: nat, v: string)
    requires PlacedAt(s, d, v)
    ensures Triple(s, d) == Some(Span(d, d + |v|)) <==> VersionText(v)
  {
    SkipDigitsShift(s, d, v, 0);
    var a := SkipDigits(v, 0);
    if a < |v| {
      assert s[d + a] == v[a];
    }
    if 0 < a < |v| && v[a] == '.' {
      SkipDigitsShift(s, d, v, a + 1);
      var b := SkipDigits(v, a + 1);
      if b < |v| {
        assert s[d + b] == v[b];
      }
      if a + 1 < b < |v| && v[b] == '.' {
        SkipDigitsShift(s, d, v, b + 1);
      }
    }
  }

  /** Every version `parse_release_notes` reports is three dot-separated digit groups. */
  lemma SectionVersion(s: string, p: nat)
    requires SectionAt(s, p).Some?
    ensures VersionText(SectionAt(s, p).value.version)
  {
    var d, c, b, e := SectionParts(s, p);
    TripleVersion(s, d, c);
  }

  lemma TripleVersion(s: string, d: nat, c: nat)
    requires d <= |s| && Triple(s, d) == Some(Span(d, c))
    ensures VersionText(s[d..c])
  {
    TripleShift(s, d, s[d..c]);
  }

  /** The parts of a match. */
  lemma SectionParts(s: string, p: nat) returns (d: nat, c: nat, b: nat, e: nat)
    requires SectionAt(s, p).Some?
    ensures d <= c <= |s| && c < b <= e <= |s|
    ensures Header(s, p) == Some(Span(d, c)) && Triple(s, d) == Some(Span(d, c))
    ensures BodyStart(s, c) == Some(b) && BodyEnd(s, b) == e
    ensures SectionAt(s, p) == Some(Section(s[d..c], s[b..e], e))
  {
    var h := Header(s, p).value;
    d, c := h.start, h.end;
    b := BodyStart(s, c).value;
    e := BodyEnd(s, b);
  }

  predicate AllVersions(found: seq<Section>) {
    forall i :: 0 <= i < |found| ==> VersionText(found[i].version)
  }

  lemma AllVersionsCons(sec: Section, rest: seq<Section>)
    requires VersionText(sec.version) && AllVersions(rest)
    ensures AllVersions([sec] + rest)
  {
    assert forall i :: 0 < i <= |rest| ==> ([sec] + rest)[i] == rest[i - 1];
  }

  /** The search yields only matches the table holds. */
  lemma {:induction false} FoundVersions(t: seq<Option<Section>>, pos: nat)
    requires Advances(t) && pos <= |t|
    requires forall p :: 0 <= p < |t| && t[p].Some? ==> VersionText(t[p].value.version)
    ensures AllVersions(FoundIn(t, pos))
    decreases |t| - pos
  {
    if pos < |t| {
      if t[pos].None? {
        FoundVersions(t, pos + 1);
      } else {
        FoundVersions(t, t[pos].value.end);
        AllVersionsCons(t[pos].value, FoundIn(t, t[pos].value.end));
      }
    }
  }

  /** Every match in the table of `s` names a version text. */
  lemma TableVersions(s: string)
    ensures forall p :: 0 <= p < |s| && Table(s)[p].Some? ==> VersionText(Table(s)[p].value.version)
  {
    forall p | 0 <= p < |s| && SectionAt(s, p).Some?
      ensures VersionText(SectionAt(s, p).value.version)
    {
      SectionVersion(s, p);
    }
  }

  /** The keys of the parsed dictionary are version texts. */
  lemma SectionsVersions(content: Option<string>)
    ensures forall k :: k in Sections(content) ==> VersionText(k)
  {
    if content.Some? {
      TableVersions(content.value);
      FoundVersions(Table(content.value), 0);
    }
  }

  // ---------------------------------------------------------------- reading back a new section

  /** No line of `t` starts with `##`. */
  predicate NoHeaderLine(t: string) {
    forall p {:trigger LineStart(t, p)} :: 0 <= p < |t| - 1 && LineStart(t, p) ==> !(t[p] == '#' && t[p + 1] == '#')
  }

  /** Where the header of a new section lies once it is appended to `prefix`. */
  lemma HeadLayout(prefix: string, version: string, today: string, notes: string)
    ensures var s := prefix + NewSection(version, today, notes);
            var h := |prefix|;
            var c := h + 4 + |version|;
            && |s| == c + 2 + |today| + 3 + |notes| + 2
            && s[h] == '#' && s[h + 1] == '#' && s[h + 2] == ' ' && s[h + 3] == 'v'
            && s[c] == ' ' && s[c + 1] == '('
            && s[h + 4..c] == version
            && s[..h] == prefix
  {
    var s := prefix + NewSection(version, today, notes);
    var a := prefix + "## v";
    var b := a + version;
    assert s == b + (" (" + today + ")\n\n" + notes + "\n\n");
    assert s[|prefix| + 4..|b|] == version;
  }

  /** Where the date of a new section lies. */
  lemma DateLayout(prefix: string, version: string, today: string, notes: string)
    ensures var s := prefix + NewSection(version, today, notes);
            var c := |prefix| + 4 + |version|;
            var z := c + 2 + |today|;
            && |s| == z + 3 + |notes| + 2
            && s[c + 2..z] == today
            && s[z] == ')' && s[z + 1] == '\n' && s[z + 2] == '\n'
  {
    var s := prefix + NewSection(version, today, notes);
    var b := prefix + "## v" + version + " (";
    assert s == b + today + (")\n\n" + notes + "\n\n");
    assert s[|b|..|b| + |today|] == today;
  }

  /** Where the notes of a new section lie. */
  lemma NotesLayout(prefix: string, version: string, today: string, notes: string)
    ensures var s := prefix + NewSection(version, today, notes);
            var n := |prefix| + 4 + |version| + 2 + |today| + 3;
            && |s| == n + |notes| + 2
            && s[n..] == notes + "\n\n"
  {
    var s := prefix + NewSection(version, today, notes);
    var b := prefix + "## v" + version + " (" + today + ")\n\n";
    assert s == b + (notes + "\n\n");
    assert s[|b|..] == notes + "\n\n";
  }

  /** No match starts where there is no `##` at the start of a line. */
  lemma NoHeaderNoSection(s: string, p: nat)
    requires !HeaderStart(s, p)
    ensures SectionAt(s, p).None?
  {
  }

  /** `##` at the start of a line, where every match begins. */
  predicate HeaderStart(s: string, p: nat) {
    LineStart(s, p) && p + 2 <= |s| && s[p] == '#' && s[p + 1] == '#'
  }

  /** The search passes over a stretch where nothing matches. */
  lemma {:induction false} FoundSkipRun(t: seq<Option<Section>>, a: nat, b: nat)
    requires Advances(t) && a <= b <= |t|
    requires forall p :: a <= p < b ==> t[p].None?
    ensures FoundIn(t, a) == FoundIn(t, b)
    decreases b - a
  {
    if a < b {
      FoundSkipRun(t, a + 1, b);
    }
  }

  /** The body runs to the end when no header follows. */
  lemma {:induction false} BodyEndTo(s: string, b: nat)
    requires b <= |s|
    requires forall x :: b <= x < |s| ==> Header(s, x).None?
    ensures BodyEnd(s, b) == |s|
    decreases |s| - b
  {
    if b < |s| {
      BodyEndTo(s, b + 1);
    }
  }

  lemma {:induction false} SkipNonCloseTo(s: string, p: nat, q: nat)
    requires p <= q < |s| && s[q] == ')'
    requires forall x :: p <= x < q ==> s[x] != ')'
    ensures SkipNonClose(s, p) == q
    decreases q - p
  {
    if p < q {
      SkipNonCloseTo(s, p + 1, q);
    }
  }

  /** The match at `p`, from its parts. */
  lemma SectionAtIs(s: string, p: nat, d: nat, c: nat, b: nat)
    requires Header(s, p) == Some(Span(d, c)) && BodyStart(s, c) == Some(b)
    requires BodyEnd(s, b) == |s|
    ensures SectionAt(s, p) == Some(Section(s[d..c], s[b..|s|], |s|))
  {
  }

  /** A header match is a `##` at the start of a line. */
  lemma HeaderIsStart(s: string, p: nat)
    requires Header(s, p).Some?
    ensures HeaderStart(s, p)
  {
  }

  /** What RELEASE.md may hold before a new section: nothing that looks like a header,
      ending at a line break. */
  predicate Preamble(prefix: string) {
    (prefix == [] || prefix[|prefix| - 1] == '\n') && NoHeaderLine(prefix)
  }

  /** Notes that read back as they were written: they start with a visible character and
      no line of theirs starts with `##`. */
  predicate PlainNotes(notes: string) {
    notes != [] && !IsSpace(notes[0]) && NoHeaderLine(notes)
  }

  /** A `##` header at `h` naming `version`. */
  lemma HeaderAt(s: string, h: nat, version: string)
    requires VersionText(version)
    requires h + 4 <= |s| && (h == 0 || s[h - 1] == '\n')
    requires s[h] == '#' && s[h + 1] == '#' && s[h + 2] == ' ' && s[h + 3] == 'v'
    requires PlacedAt(s, h + 4, version)
    ensures Header(s, h) == Some(Span(h + 4, h + 4 + |version|))
  {
    SkipSpacesTo(s, h + 2, h + 3);
    TripleShift(s, h + 4, version);
  }

  /** ` (date)\n\n` after the version ending at `c`: the body starts after the blank line. */
  lemma BodyStartAt(s: string, c: nat, z: nat)
    requires c + 2 <= z && z + 3 < |s|
    requires s[c] == ' ' && s[c + 1] == '('
    requires forall x :: c + 2 <= x < z ==> s[x] != ')'
    requires s[z] == ')' && s[z + 1] == '\n' && s[z + 2] == '\n' && !IsSpace(s[z + 3])
    ensures BodyStart(s, c) == Some(z + 3)
  {
    SkipSpacesTo(s, c, c + 1);
    SkipNonCloseTo(s, c + 2, z);
    SkipSpacesTo(s, z + 1, z + 3);
    assert LastNewline(s, z + 1, z + 3) == Some(z + 2);
  }

  /** No line of the text before `h` starts with `##`. */
  lemma NoHeaderBefore(s: string, h: nat)
    requires h <= |s| && (h == 0 || s[h - 1] == '\n') && NoHeaderLine(s[..h])
    ensures forall p :: 0 <= p < h ==> !HeaderStart(s, p)
  {
    var u := s[..h];
    forall p | 0 <= p < h
      ensures !HeaderStart(s, p)
    {
      if p + 1 < h {
        assert s[p] == u[p] && s[p + 1] == u[p + 1];
        assert LineStart(s, p) ==> LineStart(u, p);
      }
    }
  }

  /** No line of the text from `n` on starts with `##`. */
  lemma NoHeaderFrom(s: string, n: nat)
    requires 0 < n <= |s| && s[n - 1] == '\n' && NoHeaderLine(s[n..])
    ensures forall x :: n <= x < |s| ==> !HeaderStart(s, x)
  {
    var u := s[n..];
    forall x | n <= x < |s|
      ensures !HeaderStart(s, x)
    {
      if x + 1 < |s| {
        assert s[x] == u[x - n] && s[x + 1] == u[x - n + 1];
        assert LineStart(s, x) ==> LineStart(u, x - n);
      }
    }
  }

  /** With a header-free stretch around it, the only match is the one at `h`. */
  lemma FoundOnly(s: string, h: nat, c: nat, n: nat)
    requires h <= |s| && (forall p :: 0 <= p < h ==> !HeaderStart(s, p))
    requires Header(s, h) == Some(Span(h + 4, c)) && BodyStart(s, c) == Some(n)
    requires forall x :: n <= x < |s| ==> !HeaderStart(s, x)
    ensures Found(s) == [Section(s[h + 4..c], s[n..|s|], |s|)]
  {
    var t := Table(s);
    forall p | 0 <= p < h
      ensures t[p].None?
    {
      NoHeaderNoSection(s, p);
    }
    FoundSkipRun(t, 0, h);
    forall x | n <= x < |s|
      ensures Header(s, x).None?
    {
      if Header(s, x).Some? {
        HeaderIsStart(s, x);
      }
    }
    BodyEndTo(s, n);
    SectionAtIs(s, h, h + 4, c, n);
  }

  /** The blank line closing a section adds no header line. */
  lemma NoHeaderPadded(notes: string)
    requires NoHeaderLine(notes)
    ensures NoHeaderLine(notes + "\n\n")
  {
    var u := notes + "\n\n";
    forall p | 0 <= p < |u| - 1 && LineStart(u, p)
      ensures !(u[p] == '#' && u[p + 1] == '#')
    {
      if p + 1 < |notes| {
        assert u[p] == notes[p] && u[p + 1] == notes[p + 1];
        assert p > 0 ==> u[p - 1] == notes[p - 1];
        assert LineStart(notes, p);
      } else {
        assert u[p + 1] == '\n';
      }
    }
  }

  /** Where each part of a new section lies once it is appended to `prefix`. */
  predicate Shaped(s: string, prefix: string, version: string, today: string, notes: string) {
    var h := |prefix|;
    var c := h + 4 + |version|;
    var z := c + 2 + |today|;
    && |s| == z + 3 + |notes| + 2
    && s[..h] == prefix
    && s[h] == '#' && s[h + 1] == '#' && s[h + 2] == ' ' && s[h + 3] == 'v'
    && s[h + 4..c] == version
    && s[c] == ' ' && s[c + 1] == '('
    && s[c + 2..z] == today
    && s[z] == ')' && s[z + 1] == '\n' && s[z + 2] == '\n'
    && s[z + 3..] == notes + "\n\n"
  }

  lemma NewShaped(prefix: string, version: string, today: string, notes: string)
    ensures Shaped(prefix + NewSection(version, today, notes), prefix, version, today, notes)
  {
    HeadLayout(prefix, version, today, notes);
    DateLayout(prefix, version, today, notes);
    NotesLayout(prefix, version, today, notes);
  }

  lemma ShapedHeader(s: string, prefix: string, version: string, today: string, notes: string)
    requires Shaped(s, prefix, version, today, notes) && Preamble(prefix) && VersionText(version)
    ensures Header(s, |prefix|) == Some(Span(|prefix| + 4, |prefix| + 4 + |version|))
  {
    var h := |prefix|;
    assert h > 0 ==> s[h - 1] == s[..h][h - 1];
    forall y | 0 <= y < |version|
      ensures s[h + 4 + y] == version[y]
    {
      assert s[h + 4..h + 4 + |version|][y] == s[h + 4 + y];
    }
    HeaderAt(s, h, version);
  }

  lemma ShapedBodyStart(s: string, prefix: string, version: string, today: string, notes: string)
    requires Shaped(s, prefix, version, today, notes) && ')' !in today && PlainNotes(notes)
    ensures var c := |prefix| + 4 + |version|;
            BodyStart(s, c) == Some(c + 2 + |today| + 3)
  {
    var c := |prefix| + 4 + |version|;
    var z := c + 2 + |today|;
    forall x | c + 2 <= x < z
      ensures s[x] != ')'
    {
      assert s[c + 2..z][x - c - 2] == s[x];
    }
    assert s[z + 3] == s[z + 3..][0];
    BodyStartAt(s, c, z);
  }

  /** No match starts inside the preamble, nor after the version of the new section. */
  lemma ShapedPlain(s: string, prefix: string, version: string, today: string, notes: string)
    requires Shaped(s, prefix, version, today, notes) && Preamble(prefix) && PlainNotes(notes)
    ensures forall p :: 0 <= p < |prefix| ==> !HeaderStart(s, p)
    ensures var n := |prefix| + 4 + |version| + 2 + |today| + 3;
            forall x :: n <= x < |s| ==> !HeaderStart(s, x)
  {
    var h := |prefix|;
    assert h > 0 ==> s[h - 1] == s[..h][h - 1];
    NoHeaderBefore(s, h);
    NoHeaderPadded(notes);
    NoHeaderFrom(s, h + 4 + |version| + 2 + |today| + 3);
  }

  /** `re.finditer` on a preamble followed by a new section yields that section alone,
      its body being the notes and the blank line after them. */
  lemma FoundNew(prefix: string, version: string, today: string, notes: string)
    requires Preamble(prefix) && VersionText(version) && ')' !in today && PlainNotes(notes)
    ensures var s := prefix + NewSection(version, today, notes);
            Found(s) == [Section(version, notes + "\n\n", |s|)]
  {
    var s := prefix + NewSection(version, today, notes);
    NewShaped(prefix, version, today, notes);
    FoundShaped(s, prefix, version, today, notes);
  }

  lemma FoundShaped(s: string, prefix: string, version: string, today: string, notes: string)
    requires Shaped(s, prefix, version, today, notes)
    requires Preamble(prefix) && VersionText(version) && ')' !in today && PlainNotes(notes)
    ensures Found(s) == [Section(version, notes + "\n\n", |s|)]
  {
    var h := |prefix|;
    var c := h + 4 + |version|;
    var n := c + 2 + |today| + 3;
    ShapedHeader(s, prefix, version, today, notes);
    ShapedBodyStart(s, prefix, version, today, notes);
    ShapedPlain(s, prefix, version, today, notes);
    assert Header(s, h) == Some(Span(h + 4, c)) && BodyStart(s, c) == Some(n);
    assert forall x :: n <= x < |s| ==> !HeaderStart(s, x);
    assert s[h + 4..c] == version && s[n..] == notes + "\n\n";
    FoundSection(s, h, c, n, version, notes + "\n\n");
  }

  /** The match at `h`, alone, with its version and body named. */
  lemma FoundSection(s: string, h: nat, c: nat, n: nat, version: string, body: string)
    requires h <= |s| && (forall p :: 0 <= p < h ==> !HeaderStart(s, p))
    requires Header(s, h) == Some(Span(h + 4, c)) && BodyStart(s, c) == Some(n)
    requires forall x :: n <= x < |s| ==> !HeaderStart(s, x)
    requires s[h + 4..c] == version && s[n..] == body
    ensures Found(s) == [Section(version, body, |s|)]
  {
    FoundOnly(s, h, c, n);
    assert s[n..|s|] == s[n..];
  }

  /** Stripping ignores the blank line `write_release_notes` puts after the notes. */
  lemma StripPadded(notes: string)
    ensures Strip(notes + "\n\n") == Strip(notes)
  {
    StripBreakAfter(notes);
    StripBreakAfter(notes + "\n");
    assert notes + "\n" + "\n" == notes + "\n\n";
  }

  /** Parsing a preamble followed by a new section gives the new notes, stripped, under
      the new version. */
  lemma SectionsOfNew(prefix: string, version: string, today: string, notes: string)
    requires Preamble(prefix) && VersionText(version) && ')' !in today && PlainNotes(notes)
    ensures Sections(Some(prefix + NewSection(version, today, notes))) == map[version := Strip(notes)]
  {
    FoundNew(prefix, version, today, notes);
    StripPadded(notes);
    var found := [Section(version, notes + "\n\n", |prefix + NewSection(version, today, notes)|)];
    assert found[..0] == [];
  }

  // ---------------------------------------------------------------- several sections

  /** A section as RELEASE.md may hold it: `## `, a `v` or none, the version, a
      ` (date)` or none, a line break and `gap` blank lines, then the body. */
  datatype Written = Written(prefixed: bool, version: string, date: Option<string>, gap: nat, body: string)

  /** A header line up to its version. */
  function Lead(prefixed: bool): string {
    if prefixed then "## v" else "## "
  }

  function DatePart(date: Option<string>): string {
    match date
    case None => ""
    case Some(d) => " (" + d + ")"
  }

  /** `n` line breaks. */
  function Breaks(n: nat): string {
    seq(n, _ => '\n')
  }

  /** A header line after its version, with the blank lines that follow it. */
  function Tail(w: Written): string {
    DatePart(w.date) + Breaks(w.gap + 1)
  }

  /** The header line of `w` and the blank lines before its body. */
  function Heading(w: Written): string {
    Lead(w.prefixed) + w.version + Tail(w)
  }

  /** The sections, one after the other. */
  function Blocks(ws: seq<Written>): string {
    if ws == [] then "" else Heading(ws[0]) + ws[0].body + Blocks(ws[1..])
  }

  /** A section whose header names a version text, whose date holds no `)`, and whose
      body starts with a visible character (not `(` right after a date-less header), has
      no line starting with `##`, and, unless it is the last section, ends at a line
      break. */
  predicate WellWritten(w: Written, last: bool) {
    && VersionText(w.version)
    && (w.date.Some? ==> ')' !in w.date.value)
    && PlainNotes(w.body)
    && (w.date.None? ==> w.body[0] != '(')
    && (!last ==> w.body[|w.body| - 1] == '\n')
  }

  predicate AllWellWritten(ws: seq<Written>) {
    forall k :: 0 <= k < |ws| ==> WellWritten(ws[k], k == |ws| - 1)
  }

  // Where the parts of a section written at `p` lie: its version from `VersionAt` to
  // `VersionEnd`, its line breaks from `BreaksAt`, its body from `BodyAt` to `BlockEndOf`.

  function VersionAt(p: nat, w: Written): nat {
    p + (if w.prefixed then 4 else 3)
  }

  function VersionEnd(p: nat, w: Written): nat {
    VersionAt(p, w) + |w.version|
  }

  function BreaksAt(p: nat, w: Written): nat {
    VersionEnd(p, w) + (match w.date case None => 0 case Some(d) => |d| + 3)
  }

  function BodyAt(p: nat, w: Written): nat {
    BreaksAt(p, w) + w.gap + 1
  }

  function BlockEndOf(p: nat, w: Written): nat {
    BodyAt(p, w) + |w.body|
  }

  /** `v` lies in `s` from `k` on, character by character. */
  predicate On(s: string, k: nat, v: string) {
    k + |v| <= |s| && forall y :: 0 <= y < |v| ==> s[k + y] == v[y]
  }

  /** The header line of the written section `w`, and the blank lines after it, lie in
      `s` from `p` on. */
  predicate HeadAt(s: string, p: nat, w: Written) {
    && BodyAt(p, w) <= |s|
    && s[p] == '#' && s[p + 1] == '#' && s[p + 2] == ' ' && (w.prefixed ==> s[p + 3] == 'v')
    && On(s, VersionAt(p, w), w.version)
    && (w.date.Some? ==>
          && s[VersionEnd(p, w)] == ' ' && s[VersionEnd(p, w) + 1] == '('
          && On(s, VersionEnd(p, w) + 2, w.date.value) && s[BreaksAt(p, w) - 1] == ')')
    && forall y :: BreaksAt(p, w) <= y < BodyAt(p, w) ==> s[y] == '\n'
  }

  /** The written section `w` lies in `s` from `p` on: its heading, then its body. */
  predicate WrittenAt(s: string, p: nat, w: Written) {
    HeadAt(s, p, w) && On(s, BodyAt(p, w), w.body)
  }

  /** Written sections one after the other from `p` to the end of `s`. */
  predicate BlocksAt(s: string, p: nat, ws: seq<Written>)
    decreases |ws|
  {
    if ws == [] then p == |s|
    else WrittenAt(s, p, ws[0]) && BlocksAt(s, BlockEndOf(p, ws[0]), ws[1..])
  }

  /** `a` followed by `b` is `a`, then `b` after it. */
  lemma OnSplit(s: string, p: nat, a: string, b: string)
    requires On(s, p, a + b)
    ensures On(s, p, a) && On(s, p + |a|, b)
  {
    forall y | 0 <= y < |a|
      ensures s[p + y] == a[y]
    {
      assert (a + b)[y] == a[y];
    }
    forall y | 0 <= y < |b|
      ensures s[p + |a| + y] == b[y]
    {
      assert (a + b)[|a| + y] == b[y];
    }
  }

  /** The second half of a concatenation. */
  lemma OnRight(a: string, b: string)
    ensures On(a + b, |a|, b)
  {
  }

  /** `v` read off `s` from `k` on. */
  lemma SliceOf(s: string, k: nat, v: string)
    requires On(s, k, v)
    ensures s[k..k + |v|] == v
  {
  }

  /** The start of a header line, read off `s`. */
  lemma LeadOn(s: string, p: nat, prefixed: bool)
    requires On(s, p, Lead(prefixed))
    ensures |Lead(prefixed)| == if prefixed then 4 else 3
    ensures s[p] == '#' && s[p + 1] == '#' && s[p + 2] == ' ' && (prefixed ==> s[p + 3] == 'v')
  {
    var l := Lead(prefixed);
    assert l[0] == '#' && l[1] == '#' && l[2] == ' ';
    assert prefixed ==> l[3] == 'v';
  }

  /** A ` (date)`, read off `s`. */
  lemma DateOn(s: string, c: nat, d: string)
    requires On(s, c, DatePart(Some(d)))
    ensures s[c] == ' ' && s[c + 1] == '(' && On(s, c + 2, d) && s[c + 2 + |d|] == ')'
  {
    OnSplit(s, c, " (" + d, ")");
    OnSplit(s, c, " (", d);
    assert " ("[0] == ' ' && " ("[1] == '(' && ")"[0] == ')';
  }

  /** Line breaks, read off `s`. */
  lemma BreaksOn(s: string, l: nat, n: nat)
    requires On(s, l, Breaks(n))
    ensures forall y :: l <= y < l + n ==> s[y] == '\n'
  {
    forall y | l <= y < l + n
      ensures s[y] == '\n'
    {
      assert s[l + (y - l)] == Breaks(n)[y - l];
    }
  }

  /** How long the end of a heading is. */
  lemma TailLength(p: nat, w: Written)
    ensures VersionEnd(p, w) + |DatePart(w.date)| == BreaksAt(p, w)
    ensures VersionEnd(p, w) + |Tail(w)| == BodyAt(p, w)
  {
  }

  /** The date at the end of a heading, read off `s`. */
  lemma TailDateOn(s: string, p: nat, w: Written)
    requires On(s, VersionEnd(p, w), Tail(w)) && w.date.Some?
    ensures s[VersionEnd(p, w)] == ' ' && s[VersionEnd(p, w) + 1] == '('
    ensures On(s, VersionEnd(p, w) + 2, w.date.value) && s[BreaksAt(p, w) - 1] == ')'
  {
    OnSplit(s, VersionEnd(p, w), DatePart(w.date), Breaks(w.gap + 1));
    DateOn(s, VersionEnd(p, w), w.date.value);
  }

  /** The line breaks at the end of a heading, read off `s`. */
  lemma TailBreaksOn(s: string, p: nat, w: Written)
    requires On(s, VersionEnd(p, w), Tail(w))
    ensures forall y :: BreaksAt(p, w) <= y < BodyAt(p, w) ==> s[y] == '\n'
  {
    OnSplit(s, VersionEnd(p, w), DatePart(w.date), Breaks(w.gap + 1));
    TailLength(p, w);
    BreaksOn(s, BreaksAt(p, w), w.gap + 1);
  }

  /** The heading of a written section, read off `s` from `p` on. */
  lemma HeadLayoutAt(s: string, p: nat, w: Written)
    requires On(s, p, Heading(w))
    ensures HeadAt(s, p, w) && p + |Heading(w)| == BodyAt(p, w)
  {
    OnSplit(s, p, Lead(w.prefixed) + w.version, Tail(w));
    OnSplit(s, p, Lead(w.prefixed), w.version);
    LeadOn(s, p, w.prefixed);
    TailLength(p, w);
    if w.date.Some? {
      TailDateOn(s, p, w);
    }
    TailBreaksOn(s, p, w);
  }

  /** A written section followed by `r` lies as `WrittenAt` says, and `r` follows it. */
  lemma BlockLayout(s: string, p: nat, w: Written, r: string)
    requires On(s, p, Heading(w) + w.body + r)
    ensures WrittenAt(s, p, w) && On(s, BlockEndOf(p, w), r)
    ensures BlockEndOf(p, w) == p + |Heading(w) + w.body|
  {
    OnSplit(s, p, Heading(w) + w.body, r);
    OnSplit(s, p, Heading(w), w.body);
    HeadLayoutAt(s, p, w);
  }

  /** The text of the sections, from `p` to the end, lies as `BlocksAt` says. */
  lemma {:induction false} BlocksLayout(s: string, p: nat, ws: seq<Written>)
    requires On(s, p, Blocks(ws)) && p + |Blocks(ws)| == |s|
    ensures BlocksAt(s, p, ws)
    decreases |ws|
  {
    if ws != [] {
      BlockLayout(s, p, ws[0], Blocks(ws[1..]));
      BlocksLayout(s, BlockEndOf(p, ws[0]), ws[1..]);
    }
  }

  /** A version text begins with a digit. */
  lemma VersionDigit(v: string)
    requires VersionText(v)
    ensures |v| > 0 && IsDigit(v[0])
  {
  }

  /** A `##` header at `h`, with or without the `v`, naming the version placed at `k`. */
  lemma HeaderNamed(s: string, h: nat, k: nat, version: string)
    requires VersionText(version) && LineStart(s, h)
    requires h + 3 <= |s| && s[h] == '#' && s[h + 1] == '#' && s[h + 2] == ' '
    requires k == h + 3 || (k == h + 4 && h + 3 < |s| && s[h + 3] == 'v')
    requires PlacedAt(s, k, version)
    ensures Header(s, h) == Some(Span(k, k + |version|))
  {
    VersionDigit(version);
    assert s[k + 0] == version[0];
    SkipSpacesTo(s, h + 2, h + 3);
    TripleShift(s, k, version);
  }

  /** Line breaks after the version: the body starts on the line after them. */
  lemma BodyStartPlain(s: string, c: nat, n: nat)
    requires c < n < |s| && (forall y :: c <= y < n ==> s[y] == '\n')
    requires !IsSpace(s[n]) && s[n] != '('
    ensures BodyStart(s, c) == Some(n)
  {
    SkipSpacesTo(s, c, n);
    assert s[n - 1] == '\n';
  }

  /** ` (date)` and line breaks after the version, the `)` at `z`: the body starts on the
      line after them. */
  lemma BodyStartDated(s: string, c: nat, z: nat, n: nat)
    requires c + 2 <= z && z + 1 < n < |s|
    requires s[c] == ' ' && s[c + 1] == '('
    requires forall x :: c + 2 <= x < z ==> s[x] != ')'
    requires s[z] == ')' && (forall y :: z + 1 <= y < n ==> s[y] == '\n') && !IsSpace(s[n])
    ensures BodyStart(s, c) == Some(n)
  {
    SkipSpacesTo(s, c, c + 1);
    SkipNonCloseTo(s, c + 2, z);
    SkipSpacesTo(s, z + 1, n);
    assert s[n - 1] == '\n';
  }

  /** A written section at the start of a line has its header matched, naming its
      version. */
  lemma BlockHeader(s: string, p: nat, w: Written)
    requires LineStart(s, p) && HeadAt(s, p, w) && VersionText(w.version)
    ensures Header(s, p) == Some(Span(VersionAt(p, w), VersionEnd(p, w)))
  {
    var c := VersionEnd(p, w);
    assert w.date.None? ==> s[c] == '\n';
    HeaderNamed(s, p, VersionAt(p, w), w.version);
  }

  /** The body of a written section starts right after its heading. */
  lemma BlockStart(s: string, p: nat, w: Written)
    requires WrittenAt(s, p, w)
    requires (w.date.Some? ==> ')' !in w.date.value) && PlainNotes(w.body)
    requires w.date.None? ==> w.body[0] != '('
    ensures BodyStart(s, VersionEnd(p, w)) == Some(BodyAt(p, w))
  {
    var c, n := VersionEnd(p, w), BodyAt(p, w);
    assert s[n + 0] == w.body[0];
    if w.date.None? {
      BodyStartPlain(s, c, n);
    } else {
      var d := w.date.value;
      forall x | c + 2 <= x < c + 2 + |d|
        ensures s[x] != ')'
      {
        assert s[c + 2 + (x - c - 2)] == d[x - c - 2];
      }
      BodyStartDated(s, c, BreaksAt(p, w) - 1, n);
    }
  }

  /** A body with no line starting with `##`, placed on a line of its own and ending at
      a line break or at the end of `s`: no header starts inside it. */
  lemma NoHeaderIn(s: string, n: nat, body: string)
    requires 0 < n && On(s, n, body) && s[n - 1] == '\n' && NoHeaderLine(body)
    requires n + |body| == |s| || (body != [] && body[|body| - 1] == '\n')
    ensures forall x :: n <= x < n + |body| ==> !HeaderStart(s, x)
  {
    forall x | n <= x < n + |body|
      ensures !HeaderStart(s, x)
    {
      if x + 1 < n + |body| {
        assert s[x] == body[x - n] && s[x + 1] == body[x - n + 1];
        if x > n {
          assert s[x - 1] == body[x - n - 1];
        }
        assert LineStart(s, x) ==> LineStart(body, x - n);
      } else if x + 1 < |s| {
        assert s[x] == body[x - n];
      }
    }
  }

  /** The body runs to the first header after it. */
  lemma {:induction false} BodyEndAt(s: string, b: nat, e: nat)
    requires b <= e <= |s| && (e == |s| || Header(s, e).Some?)
    requires forall x :: b <= x < e ==> !HeaderStart(s, x)
    ensures BodyEnd(s, b) == e
    decreases e - b
  {
    if b < e {
      assert !HeaderStart(s, b);
      BodyEndAt(s, b + 1, e);
    }
  }

  /** The match at `p`, from its parts. */
  lemma SectionAtParts(s: string, p: nat, d: nat, c: nat, b: nat, e: nat)
    requires Header(s, p) == Some(Span(d, c)) && BodyStart(s, c) == Some(b)
    requires BodyEnd(s, b) == e
    ensures SectionAt(s, p) == Some(Section(s[d..c], s[b..e], e))
  {
  }

  /** The match at `p` from its header, the start of its body, and a header-free body
      that runs to a header or to the end. */
  lemma SectionFromParts(s: string, p: nat, k: nat, n: nat, version: string, body: string)
    requires Header(s, p) == Some(Span(k, k + |version|)) && On(s, k, version)
    requires BodyStart(s, k + |version|) == Some(n) && On(s, n, body)
    requires NoHeaderLine(body)
    requires n + |body| == |s| || (body != [] && body[|body| - 1] == '\n' && Header(s, n + |body|).Some?)
    ensures SectionAt(s, p) == Some(Section(version, body, n + |body|))
  {
    NoHeaderIn(s, n, body);
    BodyEndAt(s, n, n + |body|);
    SliceOf(s, k, version);
    SliceOf(s, n, body);
    SectionAtParts(s, p, k, k + |version|, n, n + |body|);
  }

  /** A written section at the start of a line is the match there, with its version and
      its body, when it is the last one or a header follows it. */
  lemma BlockAt(s: string, p: nat, w: Written, last: bool)
    requires LineStart(s, p) && WrittenAt(s, p, w) && WellWritten(w, last)
    requires if last then BlockEndOf(p, w) == |s| else Header(s, BlockEndOf(p, w)).Some?
    ensures SectionAt(s, p) == Some(Section(w.version, w.body, BlockEndOf(p, w)))
  {
    BlockHeader(s, p, w);
    BlockStart(s, p, w);
    SectionFromParts(s, p, VersionAt(p, w), BodyAt(p, w), w.version, w.body);
  }

  /** Where a written section that is not the last one ends, the next one starts a line
      with its header. */
  lemma NextHeader(s: string, p: nat, w: Written, v: Written)
    requires WrittenAt(s, p, w) && WellWritten(w, false)
    requires HeadAt(s, BlockEndOf(p, w), v) && VersionText(v.version)
    ensures LineStart(s, BlockEndOf(p, w)) && Header(s, BlockEndOf(p, w)).Some?
  {
    assert s[BodyAt(p, w) + (|w.body| - 1)] == w.body[|w.body| - 1];
    BlockHeader(s, BlockEndOf(p, w), v);
  }

  /** The sections after the first of well-written sections are well written. */
  lemma RestWellWritten(ws: seq<Written>)
    requires ws != [] && AllWellWritten(ws)
    ensures WellWritten(ws[0], |ws| == 1) && AllWellWritten(ws[1..])
  {
    var rest := ws[1..];
    assert forall k :: 0 <= k < |rest| ==> rest[k] == ws[k + 1];
  }

  /** The first of written sections is the first match, and the search goes on where it
      ends, at the start of a line. */
  lemma FoundFirst(s: string, p: nat, ws: seq<Written>)
    requires LineStart(s, p) && BlocksAt(s, p, ws) && ws != [] && AllWellWritten(ws)
    ensures var e := BlockEndOf(p, ws[0]);
            && FoundIn(Table(s), p) == [Section(ws[0].version, ws[0].body, e)] + FoundIn(Table(s), e)
            && (|ws| > 1 ==> LineStart(s, e)) && BlocksAt(s, e, ws[1..])
  {
    var w, rest := ws[0], ws[1..];
    RestWellWritten(ws);
    if rest != [] {
      assert WellWritten(rest[0], 0 == |rest| - 1);
      NextHeader(s, p, w, rest[0]);
    }
    BlockAt(s, p, w, rest == []);
  }

  /** `re.finditer` from the start of written sections yields one match per section, in
      order, with the section's version and body. */
  lemma {:induction false} FoundBlocks(s: string, p: nat, ws: seq<Written>)
    requires LineStart(s, p) && BlocksAt(s, p, ws) && AllWellWritten(ws)
    ensures var f := FoundIn(Table(s), p);
            && |f| == |ws|
            && forall k :: 0 <= k < |ws| ==> f[k].version == ws[k].version && f[k].body == ws[k].body
    decreases |ws|
  {
    if ws != [] {
      var t, e := Table(s), BlockEndOf(p, ws[0]);
      FoundFirst(s, p, ws);
      RestWellWritten(ws);
      if |ws| > 1 {
        FoundBlocks(s, e, ws[1..]);
      }
      var f := FoundIn(t, p);
      assert forall k :: 0 < k < |ws| ==> f[k] == FoundIn(t, e)[k - 1] && ws[k] == ws[1..][k - 1];
    }
  }

  /** The search passes over a header-free preamble to the sections after it. */
  lemma {:induction false} FoundAfterPreamble(s: string, h: nat, ws: seq<Written>)
    requires h <= |s| && (h == 0 || s[h - 1] == '\n') && NoHeaderLine(s[..h])
    requires BlocksAt(s, h, ws) && AllWellWritten(ws)
    ensures var f := Found(s);
            && |f| == |ws|
            && forall k :: 0 <= k < |ws| ==> f[k].version == ws[k].version && f[k].body == ws[k].body
  {
    var t := Table(s);
    NoHeaderBefore(s, h);
    forall p | 0 <= p < h
      ensures t[p].None?
    {
      NoHeaderNoSection(s, p);
    }
    FoundSkipRun(t, 0, h);
    FoundBlocks(s, h, ws);
  }

  /** A header-free preamble followed by written sections lies as the search needs it. */
  lemma {:induction false} PreambleLayout(pre: string, ws: seq<Written>)
    requires Preamble(pre)
    ensures var s := pre + Blocks(ws);
            && (|pre| == 0 || s[|pre| - 1] == '\n') && NoHeaderLine(s[..|pre|])
            && BlocksAt(s, |pre|, ws)
  {
    var s := pre + Blocks(ws);
    var h := |pre|;
    assert s[..h] == pre;
    assert h > 0 ==> s[h - 1] == pre[h - 1];
    OnRight(pre, Blocks(ws));
    BlocksLayout(s, h, ws);
  }

  /** The `k`-th section is the last one of its version. */
  predicate LastOf(ws: seq<Written>, k: nat)
    requires k < |ws|
  {
    forall j :: k < j < |ws| ==> ws[j].version != ws[k].version
  }

  /** The dictionary the matches in order fill: its keys are the matches' versions, and
      a version maps to the stripped body of its last match. */
  lemma {:induction false} CollectKeysValues(f: seq<Section>, ws: seq<Written>)
    requires |f| == |ws|
    requires forall k :: 0 <= k < |ws| ==> f[k].version == ws[k].version && f[k].body == ws[k].body
    ensures var m := Collect(f);
            && (forall v :: v in m <==> exists k :: 0 <= k < |ws| && ws[k].version == v)
            && (forall k :: 0 <= k < |ws| && LastOf(ws, k)
                  ==> m[ws[k].version] == Strip(ws[k].body))
  {
    var m := Collect(f);
    forall v
      ensures v in m <==> exists k :: 0 <= k < |ws| && ws[k].version == v
    {
      if v in m {
        var i :| 0 <= i < |f| && f[i].version == v;
        assert ws[i].version == v;
      }
    }
    forall k | 0 <= k < |ws| && LastOf(ws, k)
      ensures m[ws[k].version] == Strip(ws[k].body)
    {
      CollectLast(f, k);
    }
  }

  /** `parse_release_notes` on a header-free preamble followed by any number of written
      sections: the keys are the sections' versions, and each version maps to the stripped
      body of its last section. */
  lemma {:induction false} SectionsOfBlocks(pre: string, ws: seq<Written>)
    requires Preamble(pre) && AllWellWritten(ws)
    ensures var m := Sections(Some(pre + Blocks(ws)));
            && (forall v :: v in m <==> exists k :: 0 <= k < |ws| && ws[k].version == v)
            && (forall k :: 0 <= k < |ws| && LastOf(ws, k)
                  ==> m[ws[k].version] == Strip(ws[k].body))
  {
    var s := pre + Blocks(ws);
    PreambleLayout(pre, ws);
    FoundAfterPreamble(s, |pre|, ws);
    CollectKeysValues(Found(s), ws);
  }

  /** Two sections of different versions after a header-free preamble parse as the map
      from each version to its stripped body. */
  lemma {:induction false} SectionsOfTwo(pre: string, a: Written, b: Written)
    requires Preamble(pre) && WellWritten(a, false) && WellWritten(b, true)
    requires a.version != b.version
    ensures Sections(Some(pre + Heading(a) + a.body + Heading(b) + b.body))
            == map[a.version := Strip(a.body), b.version := Strip(b.body)]
  {
    var ws := [a, b];
    BlocksOfTwo(pre, a, b);
    SectionsOfBlocks(pre, ws);
    TwoKeys(Sections(Some(pre + Blocks(ws))), ws);
  }

  /** Two well-written sections, one after the other. */
  lemma BlocksOfTwo(pre: string, a: Written, b: Written)
    requires WellWritten(a, false) && WellWritten(b, true)
    ensures AllWellWritten([a, b])
    ensures pre + Blocks([a, b]) == pre + Heading(a) + a.body + Heading(b) + b.body
  {
    var ws := [a, b];
    assert ws[0] == a && ws[1] == b;
    assert Blocks([b]) == Heading(b) + b.body + "" by {
      assert [b][1..] == [];
    }
    assert Blocks(ws) == Heading(a) + a.body + Blocks([b]) by {
      assert ws[1..] == [b];
    }
  }

  /** A dictionary filled from two sections of different versions. */
  lemma {:induction false} TwoKeys(m: map<string, string>, ws: seq<Written>)
    requires |ws| == 2 && ws[0].version != ws[1].version
    requires forall v :: v in m <==> exists k :: 0 <= k < |ws| && ws[k].version == v
    requires forall k :: 0 <= k < |ws| && LastOf(ws, k)
               ==> m[ws[k].version] == Strip(ws[k].body)
    ensures m == map[ws[0].version := Strip(ws[0].body), ws[1].version := Strip(ws[1].body)]
  {
    var x, y := ws[0].version, ws[1].version;
    assert x in m by {
      assert 0 < |ws| && ws[0].version == x;
    }
    assert y in m by {
      assert 1 < |ws| && ws[1].version == y;
    }
    forall v | v in m
      ensures v == x || v == y
    {
      var k :| 0 <= k < |ws| && ws[k].version == v;
      assert k == 0 || k == 1;
    }
    LastOfTwo(ws);
    MapOfTwo(m, x, Strip(ws[0].body), y, Strip(ws[1].body));
  }

  /** Of two sections of different versions, each is the last one of its version. */
  lemma LastOfTwo(ws: seq<Written>)
    requires |ws| == 2 && ws[0].version != ws[1].version
    ensures LastOf(ws, 0) && LastOf(ws, 1)
  {
    assert forall j :: 0 < j < |ws| ==> ws[j] == ws[1];
  }

  /** A dictionary with exactly two keys, given their values. */
  lemma MapOfTwo(m: map<string, string>, x: string, vx: string, y: string, vy: string)
    requires x != y && (forall v :: v in m <==> v == x || v == y)
    requires x in m && m[x] == vx && y in m && m[y] == vy
    ensures m == map[x := vx, y := vy]
  {
    var two := map[x := vx, y := vy];
    assert forall v :: v in m <==> v in two;
    assert forall v :: v in m ==> m[v] == two[v];
  }

  // ---------------------------------------------------------------- writing before the sections

  /** The section `write_release_notes` writes, as a written section: `## v`, the date,
      one blank line, and the notes followed by a blank line. */
  function NewWritten(version: string, today: string, notes: string): Written {
    Written(true, version, Some(today), 1, notes + "\n\n")
  }

  /** The new section is a written section, well written when its parts are. */
  lemma NewIsWritten(version: string, today: string, notes: string)
    requires VersionText(version) && ')' !in today && PlainNotes(notes)
    ensures var w := NewWritten(version, today, notes);
            && NewSection(version, today, notes) == Heading(w) + w.body
            && WellWritten(w, false)
  {
    var w := NewWritten(version, today, notes);
    assert Breaks(2) == "\n\n";
    assert Heading(w) == "## v" + version + (" (" + today + ")" + "\n\n");
    NoHeaderPadded(notes);
    assert w.body[0] == notes[0];
  }

  /** After a header-free preamble of two characters or more, the first `\n## ` is the
      preamble's closing line break. */
  lemma PreambleFind(pre: string, rest: string)
    requires Preamble(pre) && |pre| >= 2
    requires |rest| >= 3 && rest[0] == '#' && rest[1] == '#' && rest[2] == ' '
    ensures Find(pre + rest, "\n## ") == |pre| - 1
  {
    var s, h := pre + rest, |pre| - 1;
    assert s[h..h + 4] == "\n## " by {
      assert s[h] == pre[h] && s[h + 1] == rest[0] && s[h + 2] == rest[1] && s[h + 3] == rest[2];
    }
    forall i | 0 <= i < h
      ensures !OccursAt(s, "\n## ", i)
    {
      BreakHeader(s, i);
      if OccursAt(s, "\n## ", i) {
        assert s[i] == pre[i] && s[i + 1] == pre[i + 1];
        if i + 1 < h {
          assert s[i + 2] == pre[i + 2];
          assert LineStart(pre, i + 1);
        }
      }
    }
    FindIs(s, "\n## ", h);
  }

  /** A heading starts with `## `. */
  lemma HeadingStart(w: Written)
    ensures var hd := Heading(w); |hd| >= 3 && hd[0] == '#' && hd[1] == '#' && hd[2] == ' '
  {
    var l := Lead(w.prefixed);
    assert l[0] == '#' && l[1] == '#' && l[2] == ' ';
    assert Heading(w) == l + (w.version + Tail(w));
  }

  /** Sections start with `## `. */
  lemma BlocksStart(ws: seq<Written>)
    requires ws != []
    ensures var rest := Blocks(ws); |rest| >= 3 && rest[0] == '#' && rest[1] == '#' && rest[2] == ' '
  {
    var hd := Heading(ws[0]);
    HeadingStart(ws[0]);
    assert Blocks(ws) == hd + (ws[0].body + Blocks(ws[1..]));
  }

  /** Cutting `pre + rest` at the closing line break of `pre`. */
  lemma CutAtBreak(pre: string, rest: string)
    requires |pre| >= 1 && pre[|pre| - 1] == '\n'
    ensures (pre + rest)[..|pre| - 1] + "\n" == pre && (pre + rest)[|pre|..] == rest
  {
    var h := |pre| - 1;
    assert (pre + rest)[..h] == pre[..h];
    assert pre == pre[..h] + [pre[h]];
  }

  /** What `write_release_notes` writes into a header-free preamble of two characters or
      more followed by sections: the preamble, the new section, then the sections. */
  lemma WriteBeforeBlocks(pre: string, ws: seq<Written>, version: string, today: string, notes: string)
    requires Preamble(pre) && |pre| >= 2 && ws != []
    ensures WriteReleaseNotes(Some(pre + Blocks(ws)), version, today, notes)
            == pre + NewSection(version, today, notes) + Blocks(ws)
  {
    BlocksStart(ws);
    PreambleFind(pre, Blocks(ws));
    CutAtBreak(pre, Blocks(ws));
  }

  /** The new section before the sections. */
  lemma BlocksOfNew(pre: string, w: Written, ws: seq<Written>)
    ensures pre + (Heading(w) + w.body) + Blocks(ws) == pre + Blocks([w] + ws)
  {
    assert ([w] + ws)[0] == w && ([w] + ws)[1..] == ws;
  }

  /** A version that some section names has a last section. */
  lemma {:induction false} LastFrom(ws: seq<Written>, i: nat)
    requires i < |ws|
    ensures exists k :: i <= k < |ws| && ws[k].version == ws[i].version && LastOf(ws, k)
    decreases |ws| - i
  {
    if !LastOf(ws, i) {
      var j :| i < j < |ws| && ws[j].version == ws[i].version;
      LastFrom(ws, j);
    }
  }

  /** One more section at the front adds its version to the versions named. */
  lemma OneMoreKeys(m: map<string, string>, m2: map<string, string>, w: Written, ws: seq<Written>)
    requires forall v :: v in m <==> exists k :: 0 <= k < |ws| && ws[k].version == v
    requires forall v :: v in m2 <==> exists k :: 0 <= k < |[w] + ws| && ([w] + ws)[k].version == v
    ensures forall v :: v in m2 <==> v == w.version || v in m
  {
    var us := [w] + ws;
    forall v
      ensures v in m2 <==> v == w.version || v in m
    {
      if v in m2 {
        var k :| 0 <= k < |us| && us[k].version == v;
        if k > 0 {
          assert ws[k - 1] == us[k];
        }
      }
      if v in m {
        var k :| 0 <= k < |ws| && ws[k].version == v;
        assert us[k + 1] == ws[k];
      }
      assert us[0] == w;
    }
  }

  /** The last section of a version stays the last one with a section in front. */
  lemma LastShift(w: Written, ws: seq<Written>, k: nat)
    requires k < |ws| && LastOf(ws, k)
    ensures ([w] + ws)[k + 1] == ws[k] && LastOf([w] + ws, k + 1)
  {
    var us := [w] + ws;
    assert forall j :: k + 1 < j < |us| ==> us[j] == ws[j - 1];
  }

  /** A section in front whose version no later section names is the last of it. */
  lemma LastFront(w: Written, ws: seq<Written>)
    requires forall k :: 0 <= k < |ws| ==> ws[k].version != w.version
    ensures ([w] + ws)[0] == w && LastOf([w] + ws, 0)
  {
    var us := [w] + ws;
    assert forall j :: 0 < j < |us| ==> us[j] == ws[j - 1];
  }

  /** One more section at the front leaves the body of every later version alone, and
      gives its own version its body if no later section names it. */
  lemma OneMoreValues(m: map<string, string>, m2: map<string, string>, w: Written, ws: seq<Written>)
    requires forall v :: v in m <==> exists k :: 0 <= k < |ws| && ws[k].version == v
    requires forall k :: 0 <= k < |ws| && LastOf(ws, k) ==> m[ws[k].version] == Strip(ws[k].body)
    requires forall v :: v in m2 <==> exists k :: 0 <= k < |[w] + ws| && ([w] + ws)[k].version == v
    requires forall v :: v in m2 <==> v == w.version || v in m
    requires forall k :: 0 <= k < |[w] + ws| && LastOf([w] + ws, k)
               ==> m2[([w] + ws)[k].version] == Strip(([w] + ws)[k].body)
    ensures forall v :: v in m ==> m2[v] == m[v]
    ensures w.version !in m ==> m2[w.version] == Strip(w.body)
  {
    forall v | v in m
      ensures m2[v] == m[v]
    {
      var i :| 0 <= i < |ws| && ws[i].version == v;
      LastFrom(ws, i);
      var k :| i <= k < |ws| && ws[k].version == v && LastOf(ws, k);
      LastShift(w, ws, k);
    }
    if w.version !in m {
      LastFront(w, ws);
    }
  }

  /** A dictionary with one key more, given the values. */
  lemma OneMoreMap(m: map<string, string>, m2: map<string, string>, x: string, vx: string)
    requires forall v :: v in m2 <==> v == x || v in m
    requires forall v :: v in m ==> m2[v] == m[v]
    requires x !in m ==> m2[x] == vx
    ensures m2 == if x in m then m else m[x := vx]
  {
    var r := if x in m then m else m[x := vx];
    assert forall v :: v in m2 <==> v in r;
    assert forall v :: v in m2 ==> m2[v] == r[v];
  }

  /** `parse_release_notes` with one more well-written section at the front of the
      sections: its version is added with its stripped body, unless a later section names
      it, in which case the result is the same. */
  lemma SectionsOfFront(pre: string, w: Written, ws: seq<Written>)
    requires Preamble(pre) && WellWritten(w, false) && ws != [] && AllWellWritten(ws)
    ensures var m := Sections(Some(pre + Blocks(ws)));
            Sections(Some(pre + Blocks([w] + ws))) == if w.version in m then m else m[w.version := Strip(w.body)]
  {
    var m, m2 := Sections(Some(pre + Blocks(ws))), Sections(Some(pre + Blocks([w] + ws)));
    FrontWellWritten(w, ws);
    SectionsOfBlocks(pre, ws);
    SectionsOfBlocks(pre, [w] + ws);
    OneMoreKeys(m, m2, w, ws);
    OneMoreValues(m, m2, w, ws);
    OneMoreMap(m, m2, w.version, Strip(w.body));
  }

  /** A well-written section before well-written sections. */
  lemma FrontWellWritten(w: Written, ws: seq<Written>)
    requires WellWritten(w, false) && ws != [] && AllWellWritten(ws)
    ensures AllWellWritten([w] + ws)
  {
    var us := [w] + ws;
    assert forall k :: 0 < k < |us| ==> us[k] == ws[k - 1];
  }

  /** `write_release_notes` then `parse_release_notes`, on a RELEASE.md made of a
      header-free preamble of two characters or more and sections: the notes are read back
      under the new version, unless a section of that version is already there, in which
      case what was read before is read again. */
  lemma WriteBeforeReadBack(pre: string, ws: seq<Written>, version: string, today: string, notes: string)
    requires Preamble(pre) && |pre| >= 2 && ws != [] && AllWellWritten(ws)
    requires VersionText(version) && ')' !in today && PlainNotes(notes)
    ensures var m := Sections(Some(pre + Blocks(ws)));
            Sections(Some(WriteReleaseNotes(Some(pre + Blocks(ws)), version, today, notes)))
            == if version in m then m else m[version := Strip(notes)]
  {
    var w := NewWritten(version, today, notes);
    WriteBeforeBlocks(pre, ws, version, today, notes);
    NewIsWritten(version, today, notes);
    BlocksOfNew(pre, w, ws);
    SectionsOfFront(pre, w, ws);
    StripPadded(notes);
  }

  // ---------------------------------------------------------------- header-free texts

  /** A single line is a header line only if it starts with `##`. */
  lemma OneLine(t: string)
    requires '\n' !in t && !(|t| >= 2 && t[0] == '#' && t[1] == '#')
    ensures NoHeaderLine(t)
  {
    forall p | 0 < p < |t| ensures !LineStart(t, p) {
      assert t[p - 1] in t;
    }
  }

  /** A text without `#` has no header line. */
  lemma NoHash(t: string)
    requires '#' !in t
    ensures NoHeaderLine(t)
  {
    forall p | 0 <= p < |t| ensures t[p] != '#' {
      assert t[p] in t;
    }
  }

  /** Joining two header-free texts with a line break gives a header-free text when the
      second does not start with `#`. */
  lemma NoHeaderJoin(a: string, b: string)
    requires NoHeaderLine(a) && NoHeaderLine(b) && (b == [] || b[0] != '#')
    ensures NoHeaderLine(a + "\n" + b)
  {
    var u := a + "\n" + b;
    forall p | 0 <= p < |u| - 1 && LineStart(u, p)
      ensures !(u[p] == '#' && u[p + 1] == '#')
    {
      if p + 1 < |a| {
        assert u[p] == a[p] && u[p + 1] == a[p + 1];
        assert p > 0 ==> u[p - 1] == a[p - 1];
        assert LineStart(a, p);
      } else if p + 1 == |a| {
        assert u[p + 1] == '\n';
      } else if p == |a| {
        assert u[p] == '\n';
      } else {
        var q := p - |a| - 1;
        assert u[p] == b[q] && u[p + 1] == b[q + 1];
        assert q > 0 ==> u[p - 1] == b[q - 1];
        assert LineStart(b, q);
      }
    }
  }

  /** The text before a new section keeps no header line of its own. */
  lemma NoHeaderKept(content: string, k: nat)
    requires NoHeaderLine(content) && k <= |content|
    ensures Preamble(content[..k] + "\n\n")
  {
    var a := content[..k];
    forall p | 0 <= p < |a| - 1 && LineStart(a, p)
      ensures !(a[p] == '#' && a[p + 1] == '#')
    {
      assert a[p] == content[p] && a[p + 1] == content[p + 1];
      assert p > 0 ==> a[p - 1] == content[p - 1];
      assert LineStart(content, p);
    }
    NoHeaderJoin(a, "\n");
    assert a + "\n" + "\n" == a + "\n\n";
  }

  lemma TitlePreamble()
    ensures Preamble(Title)
  {
    OneLine("# Release Notes");
    NoHeaderJoin("# Release Notes", "\n");
    assert "# Release Notes" + "\n" + "\n" == Title;
  }

  lemma NotInJoined(a: string, b: string, c: char)
    requires c !in a && c !in b
    ensures c !in a + b
  {
  }

  /** No line of the initial RELEASE.md holds a line break. */
  lemma InitialLine(k: nat)
    requires k < |InitialLines|
    ensures '\n' !in InitialLines[k]
  {
    if k == 2 {
      NotInJoined("This file documents all ", "notable changes to this project.", '\n');
    } else if k == 3 {
      InitialFormatLine();
    } else if k == 5 {
      InitialCommentLine();
    }
  }

  lemma InitialFormatLine()
    ensures '\n' !in "Format: Each version section " + "contains a list of changes."
  {
    NotInJoined("Format: Each version section ", "contains a list of changes.", '\n');
  }

  lemma InitialCommentLine()
    ensures '\n' !in "<!-- Versions are added " + "automatically by " + "scripts/release.py -->"
  {
    NotInJoined("<!-- Versions are added ", "automatically by ", '\n');
    NotInJoined("<!-- Versions are added " + "automatically by ", "scripts/release.py -->", '\n');
  }

  /** The initial RELEASE.md names no version. */
  lemma InitialNoHeader()
    ensures NoHeaderLine(InitialReleaseMd)
  {
    forall k | 0 <= k < |InitialLines|
      ensures '\n' !in InitialLines[k]
    {
      InitialLine(k);
    }
    NoHeaderLines(InitialLines);
  }

  // ---------------------------------------------------------------- reading back

  /** A new RELEASE.md reads back as the one section written to it. */
  lemma WriteNewReadBack(version: string, today: string, notes: string)
    requires VersionText(version) && ')' !in today && PlainNotes(notes)
    ensures Sections(Some(WriteReleaseNotes(None, version, today, notes))) == map[version := Strip(notes)]
  {
    TitlePreamble();
    SectionsOfNew(Title, version, today, notes);
  }

  /** A line break followed by `## ` puts a header line right after the break. */
  lemma BreakHeader(t: string, h: int)
    ensures OccursAt(t, "\n## ", h)
            ==> 0 <= h + 1 < |t| - 1 && LineStart(t, h + 1) && t[h + 1] == '#' && t[h + 2] == '#'
  {
    if OccursAt(t, "\n## ", h) {
      var w := t[h..h + 4];
      assert w[0] == '\n' && w[1] == '#' && w[2] == '#';
      assert t[h] == w[0] && t[h + 1] == w[1] && t[h + 2] == w[2];
    }
  }

  /** Writing into a RELEASE.md that names no version yet: it then reads back as the one
      new section. */
  lemma WritePlainReadBack(content: string, version: string, today: string, notes: string)
    requires NoHeaderLine(content)
    requires VersionText(version) && ')' !in today && PlainNotes(notes)
    ensures Sections(Some(WriteReleaseNotes(Some(content), version, today, notes))) == map[version := Strip(notes)]
  {
    BreakHeader(content, Find(content, "\n## "));
    var kept := TrimEndOf(content, Whitespace);
    NoHeaderKept(content, |kept|);
    SectionsOfNew(kept + "\n\n", version, today, notes);
  }

  /** Lines joined with line breaks: a header line needs `#` at the start of one of them,
      and none but the first does start so. */
  lemma {:induction false} NoHeaderLines(lines: seq<string>)
    requires forall k :: 0 <= k < |lines| ==> '\n' !in lines[k]
    requires forall k :: 0 < k < |lines| ==> lines[k] == [] || lines[k][0] != '#'
    requires |lines| > 0 ==> !(|lines[0]| >= 2 && lines[0][0] == '#' && lines[0][1] == '#')
    ensures NoHeaderLine(Join(lines, "\n"))
    ensures |lines| > 0 && lines[0] != [] ==> Join(lines, "\n") != [] && Join(lines, "\n")[0] == lines[0][0]
    ensures |lines| > 0 && lines[0] == [] ==> Join(lines, "\n") == [] || Join(lines, "\n")[0] != '#'
    decreases |lines|
  {
    if |lines| == 1 {
      OneLine(lines[0]);
    } else if |lines| > 1 {
      OneLine(lines[0]);
      NoHeaderLines(lines[1..]);
      NoHeaderJoin(lines[0], Join(lines[1..], "\n"));
    }
  }

  /** The template of commit lines always reads back: it starts with `-` and names no
      version. */
  lemma TemplatePlain(commits: seq<string>)
    requires forall k :: 0 <= k < |commits| ==> '\n' !in commits[k]
    ensures PlainNotes(Template(commits))
  {
    if commits == [] {
      OneLine(NoChanges);
    } else {
      var first := commits[..Min(MaxCommits, |commits|)];
      var lines := NoteLines(first);
      forall k | 0 <= k < |lines|
        ensures '\n' !in lines[k] && lines[k] != [] && lines[k][0] == '-'
      {
        NoNewlineInNoteLine(first[k]);
      }
      NoHeaderLines(lines);
    }
  }
}
