/** Semantic versions as the release script reads, prints, bumps and validates them, and
    the version it writes back into pyproject.toml. */
module Release {
  import opened Wrappers
  import opened Text
  import opened Pyproject

  /** The failures `do_release` raises as `ReleaseError`, with what the message names. */
  datatype ReleaseError =
    | PyprojectNotFound
    | NoVersionField
    | UpdateFailed
    | InvalidVersionFormat(input: string)
    | InvalidBumpType(bump: string)
    | InvalidVersion(request: string)
    | TagExistsLocally(tag: string)
    | TagExistsOnRemote(tag: string)
    | Cancelled
    | UnknownResponse(response: string)
    | InputEnded

  /** `Version(major, minor, patch)`; parsing only ever builds non-negative parts. */
  datatype Version = Version(major: nat, minor: nat, patch: nat) {
    /** `str(v)`: `major.minor.patch` in decimal. */
    function ToString(): string {
      NatToString(major) + "." + NatToString(minor) + "." + NatToString(patch)
    }
  }

  /** One `(\d+)` group. */
  predicate Group(g: string) {
    |g| >= 1 && AllDigits(g)
  }

  /** `Version.parse`: `^(\d+)\.(\d+)\.(\d+)$` on the stripped text. */
  function Parse(s: string): (r: Result<Version, ReleaseError>)
    ensures r.Err? ==> r.error == InvalidVersionFormat(s)
  {
    var parts := Split(Strip(s), '.');
    if |parts| == 3 && Group(parts[0]) && Group(parts[1]) && Group(parts[2]) then
      Ok(Version(DigitsToNat(parts[0]), DigitsToNat(parts[1]), DigitsToNat(parts[2])))
    else
      Err(InvalidVersionFormat(s))
  }

  /** The language `\d+\.\d+\.\d+`, stated by where its two dots are. */
  predicate DotsAt(t: string, i: nat, j: nat) {
    && 0 < i && i + 1 < j && j + 1 < |t| && t[i] == '.' && t[j] == '.'
    && forall x :: 0 <= x < |t| && x != i && x != j ==> IsDigit(t[x])
  }

  ghost predicate SemverShape(t: string) {
    exists i: nat, j: nat :: DotsAt(t, i, j)
  }

  /** `is_valid_semver`: the same expression without groups, on the stripped text. */
  predicate IsValidSemver(s: string) {
    ScanSemver(Strip(s))
  }

  /** `^\d+\.\d+\.\d+$` scanned run by run. */
  predicate ScanSemver(t: string) {
    var a := SkipDigits(t, 0);
    0 < a < |t| && t[a] == '.' &&
    var b := SkipDigits(t, a + 1);
    a + 1 < b < |t| && t[b] == '.' &&
    var c := SkipDigits(t, b + 1);
    b + 1 < c == |t|
  }

  /** Three digit groups joined by dots have their dots where `DotsAt` says. */
  lemma DotsOfGroups(a: string, b: string, c: string)
    requires Group(a) && Group(b) && Group(c)
    ensures DotsAt(a + "." + b + "." + c, |a|, |a| + 1 + |b|)
  {
    var t := a + "." + b + "." + c;
    forall x | 0 <= x < |t| && x != |a| && x != |a| + 1 + |b|
      ensures IsDigit(t[x])
    {
      if x < |a| {
        assert t[x] == a[x];
      } else if x < |a| + 1 + |b| {
        assert t[x] == b[x - |a| - 1];
      } else {
        assert t[x] == c[x - |a| - |b| - 2];
      }
    }
  }

  lemma SplitGroups(a: string, b: string, c: string)
    requires '.' !in a && '.' !in b && '.' !in c
    ensures Split(a + "." + b + "." + c, '.') == [a, b, c]
  {
    assert a + "." + b + "." + c == a + ['.'] + (b + ['.'] + c);
    SplitCons(a, '.', b + ['.'] + c);
    SplitCons(b, '.', c);
  }

  lemma NoDotInDigits(g: string)
    requires AllDigits(g)
    ensures '.' !in g
  {
    assert forall x :: 0 <= x < |g| ==> g[x] != '.';
  }

  /** `Version.parse` accepts exactly the texts that strip to `\d+\.\d+\.\d+`. */
  lemma ParseShape(s: string)
    ensures Parse(s).Ok? <==> SemverShape(Strip(s))
  {
    var t := Strip(s);
    if Parse(s).Ok? {
      GroupsShape(Split(t, '.'), t);
    }
    if SemverShape(t) {
      var i: nat, j: nat :| DotsAt(t, i, j);
      ShapeGroups(t, i, j);
    }
  }

  lemma GroupsShape(parts: seq<string>, t: string)
    requires parts == Split(t, '.')
    requires |parts| == 3 && Group(parts[0]) && Group(parts[1]) && Group(parts[2])
    ensures SemverShape(t)
  {
    JoinSplit(t, '.');
    assert parts == [parts[0]] + [parts[1], parts[2]];
    JoinCons(parts[0], [parts[1], parts[2]], ".");
    JoinCons(parts[1], [parts[2]], ".");
    assert t == parts[0] + "." + parts[1] + "." + parts[2];
    DotsOfGroups(parts[0], parts[1], parts[2]);
  }

  lemma ShapeGroups(t: string, i: nat, j: nat)
    requires DotsAt(t, i, j)
    ensures var parts := Split(t, '.');
            |parts| == 3 && Group(parts[0]) && Group(parts[1]) && Group(parts[2])
  {
    var a, b, c := t[..i], t[i + 1..j], t[j + 1..];
    assert AllDigits(a) && AllDigits(b) && AllDigits(c) by {
      assert forall x :: 0 <= x < |a| ==> a[x] == t[x];
      assert forall x :: 0 <= x < |b| ==> b[x] == t[i + 1 + x];
      assert forall x :: 0 <= x < |c| ==> c[x] == t[j + 1 + x];
    }
    NoDotInDigits(a);
    NoDotInDigits(b);
    NoDotInDigits(c);
    assert t == a + "." + b + "." + c;
    SplitGroups(a, b, c);
  }

  /** `is_valid_semver` accepts exactly the texts that strip to `\d+\.\d+\.\d+`. */
  lemma ValidSemverShape(s: string)
    ensures IsValidSemver(s) <==> SemverShape(Strip(s))
  {
    var t := Strip(s);
    if ScanSemver(t) {
      ScanDots(t);
    }
    if SemverShape(t) {
      var i: nat, j: nat :| DotsAt(t, i, j);
      DotsScan(t, i, j);
    }
  }

  lemma ScanDots(t: string)
    requires ScanSemver(t)
    ensures DotsAt(t, SkipDigits(t, 0), SkipDigits(t, SkipDigits(t, 0) + 1))
  {
    var a := SkipDigits(t, 0);
    var b := SkipDigits(t, a + 1);
    var c := SkipDigits(t, b + 1);
    SkipDigitsAll(t, 0);
    SkipDigitsAll(t, a + 1);
    SkipDigitsAll(t, b + 1);
    forall x | 0 <= x < |t| && x != a && x != b
      ensures IsDigit(t[x])
    {
      if x < a {
      } else if x < b {
        assert a + 1 <= x;
      } else {
        assert b + 1 <= x < c;
      }
    }
  }

  lemma DotsScan(t: string, i: nat, j: nat)
    requires DotsAt(t, i, j)
    ensures ScanSemver(t)
  {
    SkipDigitsTo(t, 0, i);
    SkipDigitsTo(t, i + 1, j);
    SkipDigitsTo(t, j + 1, |t|);
  }

  /** `is_valid_semver(s)` holds exactly when `Version.parse(s)` succeeds. */
  lemma ValidSemverIffParse(s: string)
    ensures IsValidSemver(s) <==> Parse(s).Ok?
  {
    ParseShape(s);
    ValidSemverShape(s);
  }

  /** Printing and parsing back gives the same version. */
  lemma ParseToString(v: Version)
    ensures Parse(v.ToString()) == Ok(v)
  {
    var a, b, c := NatToString(v.major), NatToString(v.minor), NatToString(v.patch);
    var t := v.ToString();
    ToStringEnds(v);
    WhitespaceIsSpace(t[0]);
    WhitespaceIsSpace(t[|t| - 1]);
    StripOfNoop(t, Whitespace);
    NoDotInDigits(a);
    NoDotInDigits(b);
    NoDotInDigits(c);
    SplitGroups(a, b, c);
    DigitsToNatOfNatToString(v.major);
    DigitsToNatOfNatToString(v.minor);
    DigitsToNatOfNatToString(v.patch);
  }

  /** A printed version is a valid semantic version. */
  lemma ToStringValid(v: Version)
    ensures IsValidSemver(v.ToString())
  {
    ParseToString(v);
    ValidSemverIffParse(v.ToString());
  }

  // ---------------------------------------------------------------- bumping

  const BumpKinds: set<string> := {"patch", "minor", "major"}

  /** `Version.bump`. */
  function Bump(v: Version, kind: string): Result<Version, ReleaseError> {
    if kind == "patch" then Ok(Version(v.major, v.minor, v.patch + 1))
    else if kind == "minor" then Ok(Version(v.major, v.minor + 1, 0))
    else if kind == "major" then Ok(Version(v.major + 1, 0, 0))
    else Err(InvalidBumpType(kind))
  }

  /** The order of versions: by major, then minor, then patch. */
  predicate Older(v: Version, w: Version) {
    || v.major < w.major
    || (v.major == w.major && v.minor < w.minor)
    || (v.major == w.major && v.minor == w.minor && v.patch < w.patch)
  }

  /** `w` is newer than `v` at the level a bump of this kind changes. */
  predicate NewerAt(kind: string, v: Version, w: Version) {
    if kind == "major" then v.major < w.major
    else if kind == "minor" then v.major < w.major || (v.major == w.major && v.minor < w.minor)
    else Older(v, w)
  }

  /** The bump rules: a bump is the oldest version that is newer at its level.  So a
      patch bump is the next version, a minor bump the first of the next minor series
      (patch back to 0) and a major bump the first of the next major series (minor and
      patch back to 0). */
  lemma BumpIsOldestNewer(v: Version, kind: string)
    requires kind in BumpKinds
    ensures Bump(v, kind).Ok?
    ensures NewerAt(kind, v, Bump(v, kind).value)
    ensures forall w :: NewerAt(kind, v, w) ==> !Older(w, Bump(v, kind).value)
  {
  }

  /** Every bump gives a newer version. */
  lemma BumpIsNewer(v: Version, kind: string)
    requires kind in BumpKinds
    ensures Bump(v, kind).Ok? && Older(v, Bump(v, kind).value)
  {
  }

  /** Any other bump type is refused. */
  lemma BumpRejects(v: Version, kind: string)
    ensures Bump(v, kind).Err? <==> kind !in BumpKinds
    ensures Bump(v, kind).Err? ==> Bump(v, kind).error == InvalidBumpType(kind)
  {
  }

  // ---------------------------------------------------------------- pyproject.toml

  /** `read_pyproject_version`, given the file's text or `None` when it does not exist. */
  function ReadPyprojectVersion(pyproject: Option<string>): (r: Result<string, ReleaseError>)
    ensures r.Err? ==> r.error == (if pyproject.None? then PyprojectNotFound else NoVersionField)
  {
    match pyproject
    case None => Err(PyprojectNotFound)
    case Some(content) =>
      match FindVersion(content)
      case None => Err(NoVersionField)
      case Some(v) => Ok(v)
  }

  /** `write_pyproject_version`: the new text of the file. */
  function WritePyprojectVersion(content: string, newVersion: string): Result<string, ReleaseError> {
    match ReplaceVersion(content, newVersion)
    case None => Err(UpdateFailed)
    case Some(t) => Ok(t)
  }

  lemma ToStringNoQuote(v: Version)
    ensures v.ToString() != [] && forall x :: 0 <= x < |v.ToString()| ==> !IsQuote(v.ToString()[x])
  {
    var a, b, c := NatToString(v.major), NatToString(v.minor), NatToString(v.patch);
    var t := v.ToString();
    forall x | 0 <= x < |t|
      ensures !IsQuote(t[x])
    {
      if x < |a| {
        assert t[x] == a[x];
      } else if x == |a| || x == |a| + 1 + |b| {
      } else if x < |a| + 1 + |b| {
        assert t[x] == b[x - |a| - 1];
      } else {
        assert t[x] == c[x - |a| - |b| - 2];
      }
    }
  }

  /** What the release writes into pyproject.toml is what it reads back as the version. */
  lemma WriteThenRead(content: string, v: Version)
    requires WritePyprojectVersion(content, v.ToString()).Ok?
    ensures ReadPyprojectVersion(Some(WritePyprojectVersion(content, v.ToString()).value)) == Ok(v.ToString())
    ensures Parse(ReadPyprojectVersion(Some(WritePyprojectVersion(content, v.ToString()).value)).value) == Ok(v)
  {
    ToStringNoQuote(v);
    ReplaceThenFind(content, v.ToString());
    ParseToString(v);
  }

  /** Writing fails exactly when the file has no version field or already has this one. */
  lemma WriteFails(content: string, newVersion: string)
    ensures WritePyprojectVersion(content, newVersion).Err? <==>
            ReadPyprojectVersion(Some(content)).Err? || ReadPyprojectVersion(Some(content)) == Ok(newVersion)
  {
    ReplaceVersionFails(content, newVersion);
  }

  /** Writing the previous version back restores the file. */
  lemma WriteUndo(content: string, v: Version)
    requires WritePyprojectVersion(content, v.ToString()).Ok?
    ensures WritePyprojectVersion(WritePyprojectVersion(content, v.ToString()).value,
                                  ReadPyprojectVersion(Some(content)).value) == Ok(content)
  {
    ToStringNoQuote(v);
    ReplaceVersionUndo(content, v.ToString());
  }

  // ---------------------------------------------------------------- the target version

  /** The version-selection branch of `do_release`: bump the current version, or take an
      explicit `X.Y.Z`. */
  function TargetVersion(pyproject: Option<string>, request: string): Result<Version, ReleaseError> {
    var current :- ReadPyprojectVersion(pyproject);
    var version :- Parse(current);
    if request in BumpKinds then Bump(version, request)
    else if !IsValidSemver(request) then Err(InvalidVersion(request))
    else Parse(request)
  }

  /** `f"v{target_version}"`. */
  function TagName(v: Version): string {
    "v" + v.ToString()
  }

  /** A bump request gives the bumped current version, which is newer. */
  lemma TargetVersionBump(pyproject: Option<string>, request: string, current: Version)
    requires request in BumpKinds
    requires ReadPyprojectVersion(pyproject).Ok? && Parse(ReadPyprojectVersion(pyproject).value) == Ok(current)
    ensures TargetVersion(pyproject, request) == Bump(current, request)
    ensures TargetVersion(pyproject, request).Ok? && Older(current, TargetVersion(pyproject, request).value)
  {
    BumpIsNewer(current, request);
  }

  /** An explicit request gives the version it spells, and when it spells none the error
      is always the one for a bad request, never a format error from `Version.parse`. */
  lemma TargetVersionExplicit(pyproject: Option<string>, request: string)
    requires request !in BumpKinds
    requires ReadPyprojectVersion(pyproject).Ok? && Parse(ReadPyprojectVersion(pyproject).value).Ok?
    ensures TargetVersion(pyproject, request) ==
            if Parse(request).Ok? then Parse(request) else Err(InvalidVersion(request))
  {
    ValidSemverIffParse(request);
  }

  /** Errors about pyproject.toml come first, whatever is requested. */
  lemma TargetVersionNeedsCurrent(pyproject: Option<string>, request: string)
    requires ReadPyprojectVersion(pyproject).Err? || Parse(ReadPyprojectVersion(pyproject).value).Err?
    ensures TargetVersion(pyproject, request).Err?
    ensures TargetVersion(pyproject, request).error ==
            if ReadPyprojectVersion(pyproject).Err? then ReadPyprojectVersion(pyproject).error
            else InvalidVersionFormat(ReadPyprojectVersion(pyproject).value)
  {
  }

  /** The tag is `v` and the version, and `is_valid_semver` rejects it. */
  lemma TagNameShape(v: Version)
    ensures TagName(v)[0] == 'v' && TagName(v)[1..] == v.ToString()
    ensures Parse(TagName(v)[1..]) == Ok(v)
    ensures !IsValidSemver(TagName(v))
  {
    ParseToString(v);
    var t := TagName(v);
    ToStringEnds(v);
    assert t[|t| - 1] == v.ToString()[|v.ToString()| - 1];
    WhitespaceIsSpace(t[0]);
    WhitespaceIsSpace(t[|t| - 1]);
    StripOfNoop(t, Whitespace);
    assert SkipDigits(t, 0) == 0;
  }

  lemma ToStringEnds(v: Version)
    ensures IsDigit(v.ToString()[0]) && IsDigit(v.ToString()[|v.ToString()| - 1])
  {
    var a, c := NatToString(v.major), NatToString(v.patch);
    assert v.ToString()[0] == a[0];
    assert v.ToString()[|v.ToString()| - 1] == c[|c| - 1];
  }
}
