/** The file-changing part of `do_release`: choosing the notes, then rewriting
    pyproject.toml and RELEASE.md.  Git's answers (the existing tags, the log since the
    last tag) and what is typed at the prompts are parameters; the project's two files
    are the fields of `Project`. */
module ReleaseFlow {
  import opened Wrappers
  import opened Text
  import opened Pyproject
  import opened Release
  import opened ReleaseNotes
  import PackageSkill

  // ---------------------------------------------------------------- commits

  /** The lines of `lines` that hold more than blanks, in order. */
  function NonBlank(lines: seq<string>): (kept: seq<string>)
    ensures |kept| <= |lines|
    ensures forall k :: 0 <= k < |kept| ==> kept[k] in lines && Strip(kept[k]) != []
    ensures forall k :: 0 <= k < |lines| && Strip(lines[k]) != [] ==> lines[k] in kept
    decreases |lines|
  {
    if lines == [] then []
    else
      var rest := NonBlank(lines[1..]);
      NonBlankStep(lines, rest);
      if Strip(lines[0]) != [] then [lines[0]] + rest else rest
  }

  /** One step of `NonBlank`: what holds of the rest's kept lines holds after the first
      line is looked at. */
  lemma NonBlankStep(lines: seq<string>, rest: seq<string>)
    requires lines != [] && |rest| <= |lines[1..]|
    requires forall k :: 0 <= k < |rest| ==> rest[k] in lines[1..] && Strip(rest[k]) != []
    requires forall k :: 0 <= k < |lines[1..]| && Strip(lines[1..][k]) != [] ==> lines[1..][k] in rest
    ensures var kept := if Strip(lines[0]) != [] then [lines[0]] + rest else rest;
            && |kept| <= |lines|
            && (forall k :: 0 <= k < |kept| ==> kept[k] in lines && Strip(kept[k]) != [])
            && (forall k :: 0 <= k < |lines| && Strip(lines[k]) != [] ==> lines[k] in kept)
  {
    var tail := lines[1..];
    var kept := if Strip(lines[0]) != [] then [lines[0]] + rest else rest;
    forall k | 0 <= k < |kept| ensures kept[k] in lines && Strip(kept[k]) != [] {
      if Strip(lines[0]) != [] && k == 0 {
        assert kept[k] == lines[0];
      } else {
        var j := if Strip(lines[0]) != [] then k - 1 else k;
        assert kept[k] == rest[j];
        var i :| 0 <= i < |tail| && tail[i] == rest[j];
        assert lines[i + 1] == tail[i];
      }
    }
    forall k | 0 <= k < |lines| && Strip(lines[k]) != [] ensures lines[k] in kept {
      if k == 0 {
        assert kept[0] == lines[0];
      } else {
        assert lines[k] == tail[k - 1];
        var i :| 0 <= i < |rest| && rest[i] == tail[k - 1];
        if Strip(lines[0]) != [] {
          assert kept[i + 1] == rest[i];
        } else {
          assert kept[i] == rest[i];
        }
      }
    }
  }

  /** Keeping the non-blank lines of two pieces one after the other keeps those of each
      piece, in order. */
  lemma {:induction false} NonBlankAppend(a: seq<string>, b: seq<string>)
    ensures NonBlank(a + b) == NonBlank(a) + NonBlank(b)
    decreases |a|
  {
    if a != [] {
      assert (a + b)[0] == a[0] && (a + b)[1..] == a[1..] + b;
      NonBlankAppend(a[1..], b);
    } else {
      assert a + b == b;
    }
  }

  /** One more line at the end is kept, at the end, exactly when it is not blank. */
  lemma NonBlankSnoc(lines: seq<string>, l: string)
    ensures NonBlank(lines + [l]) == NonBlank(lines) + (if Strip(l) != [] then [l] else [])
  {
    NonBlankAppend(lines, [l]);
    assert [l][1..] == [];
  }

  /** `get_commits_since`, given what `git log --oneline` prints: `run_git` strips that
      text, and the non-blank lines of the rest are the commits. */
  function CommitLines(log: string): (commits: seq<string>)
    ensures forall k :: 0 <= k < |commits| ==> '\n' !in commits[k] && Strip(commits[k]) != []
  {
    var lines := Split(Strip(log), '\n');
    NonBlankWithout(lines, '\n');
    NonBlank(lines)
  }

  /** A character no line holds is held by no kept line. */
  lemma NonBlankWithout(lines: seq<string>, c: char)
    requires forall k :: 0 <= k < |lines| ==> c !in lines[k]
    ensures forall k :: 0 <= k < |NonBlank(lines)| ==> c !in NonBlank(lines)[k]
  {
    var kept := NonBlank(lines);
    forall k | 0 <= k < |kept| ensures c !in kept[k] {
      var j :| 0 <= j < |lines| && lines[j] == kept[k];
    }
  }

  /** Lines that are all non-blank are all kept. */
  lemma {:induction false} NonBlankAll(lines: seq<string>)
    requires forall k :: 0 <= k < |lines| ==> Strip(lines[k]) != []
    ensures NonBlank(lines) == lines
    decreases |lines|
  {
    if lines != [] {
      var rest := lines[1..];
      assert Strip(lines[0]) != [];
      forall k | 0 <= k < |rest|
        ensures Strip(rest[k]) != []
      {
        assert rest[k] == lines[k + 1];
      }
      NonBlankAll(rest);
      assert NonBlank(lines) == [lines[0]] + NonBlank(rest);
      assert [lines[0]] + rest == lines;
    }
  }

  /** Lines of the log are all kept. */
  lemma KeptSingleLines(lines: seq<string>)
    requires forall k :: 0 <= k < |lines| ==> SingleLine(lines[k])
    ensures NonBlank(lines) == lines
  {
    assert forall k :: 0 <= k < |lines| ==> Strip(lines[k]) != [];
    NonBlankAll(lines);
  }

  /** The log `git log --oneline` prints, one line per commit each ended by a line break,
      gives back those commits in order, the first without its leading blanks and the last
      without its trailing ones; commits with no blank at either end come back unchanged. */
  lemma CommitLinesOfLog(commits: seq<string>)
    requires commits != [] && forall k :: 0 <= k < |commits| ==> SingleLine(commits[k])
    ensures CommitLines(Join(commits, "\n") + "\n") == StrippedEnds(commits)
    ensures Unpadded(commits[0]) && Unpadded(commits[|commits| - 1]) ==>
      CommitLines(Join(commits, "\n") + "\n") == commits
  {
    SplitStripJoined(commits);
    StrippedEndsLines(commits);
    KeptSingleLines(StrippedEnds(commits));
    if Unpadded(commits[0]) && Unpadded(commits[|commits| - 1]) {
      StrippedEndsUnpadded(commits);
    }
  }

  // ---------------------------------------------------------------- the notes prompt

  const Accepts: set<string> := {"", "y", "yes"}
  const Declines: set<string> := {"n", "no"}
  const Edits: set<string> := {"e", "edit"}

  /** The lines typed after choosing to edit, up to the first empty one; `None` when the
      input ends first (`input()` then raises `EOFError`). */
  function TypedLines(typed: seq<string>): (r: Option<seq<string>>)
    ensures r.Some? ==> |r.value| < |typed| && typed[|r.value|] == [] && r.value == typed[..|r.value|]
    ensures r.Some? ==> forall i :: 0 <= i < |r.value| ==> typed[i] != []
    ensures r.None? ==> forall i :: 0 <= i < |typed| ==> typed[i] != []
    decreases |typed|
  {
    if typed == [] then None
    else if typed[0] == [] then Some([])
    else
      match TypedLines(typed[1..])
      case None => None
      case Some(rest) => Some([typed[0]] + rest)
  }

  /** The `while True: line = input() ...` loop of `do_release`. */
  method ReadTypedLines(typed: seq<string>) returns (r: Option<seq<string>>)
    ensures r == TypedLines(typed)
  {
    var lines: seq<string> := [];
    var i := 0;
    while i < |typed| && typed[i] != []
      invariant i <= |typed|
      invariant lines == typed[..i]
      invariant forall j :: 0 <= j < i ==> typed[j] != []
    {
      lines := lines + [typed[i]];
      i := i + 1;
    }
    if i == |typed| {
      return None;
    }
    TypedLinesAt(typed, i);
    return Some(lines);
  }

  /** The typed lines end at the first empty line. */
  lemma TypedLinesAt(typed: seq<string>, i: nat)
    requires i < |typed| && typed[i] == []
    requires forall j :: 0 <= j < i ==> typed[j] != []
    ensures TypedLines(typed) == Some(typed[..i])
  {
    var r := TypedLines(typed);
    if r.Some? {
      var n := |r.value|;
      assert !(n < i) && !(i < n);
    }
  }

  /** The notes branch of `do_release`: the notes already in RELEASE.md for the target,
      or else in a dry run the proposal, or else what the answer to the prompt decides. */
  function ChooseNotes(existing: map<string, string>, target: Version, proposed: string, dryRun: bool,
                       response: string, typed: seq<string>): (r: Result<string, ReleaseError>)
    ensures target.ToString() in existing ==> r == Ok(existing[target.ToString()])
    ensures target.ToString() !in existing && dryRun ==> r == Ok(proposed)
  {
    var key := target.ToString();
    if key in existing then Ok(existing[key])
    else if dryRun then Ok(proposed)
    else
      var answer := Lower(Strip(response));
      if answer in Accepts then Ok(proposed)
      else if answer in Declines then Err(Cancelled)
      else if answer in Edits then
        match TypedLines(typed)
        case None => Err(InputEnded)
        case Some(lines) => Ok(Join(lines, "\n"))
      else Err(UnknownResponse(answer))
  }

  /** Edited notes are the typed lines, one per line of the notes. */
  lemma EditedNotesLines(typed: seq<string>)
    requires TypedLines(typed).Some? && TypedLines(typed).value != []
    requires forall i :: 0 <= i < |typed| ==> '\n' !in typed[i]
    ensures Split(Join(TypedLines(typed).value, "\n"), '\n') == TypedLines(typed).value
  {
    var lines := TypedLines(typed).value;
    assert forall k :: 0 <= k < |lines| ==> lines[k] == typed[k];
    SplitJoin(lines, '\n');
  }

  // ---------------------------------------------------------------- the release

  /** What a release produces: the target version, its tag, the notes the tag carries,
      and the two files afterwards. */
  datatype Outcome = Outcome(target: Version, tag: string, notes: string,
                             pyproject: Option<string>, releaseMd: Option<string>)

  /** `do_release` up to the commit: the target version, the tag checks, the notes, and
      (unless it is a dry run) the new pyproject.toml and RELEASE.md. */
  function PlanRelease(pyproject: Option<string>, releaseMd: Option<string>, request: string,
                       localTags: set<string>, remoteTags: set<string>, log: string, dryRun: bool,
                       response: string, typed: seq<string>, today: string): (r: Result<Outcome, ReleaseError>)
    ensures r.Ok? ==> r.value.tag == TagName(r.value.target)
    ensures r.Ok? ==> TargetVersion(pyproject, request) == Ok(r.value.target)
    ensures r.Ok? ==> r.value.tag !in localTags && r.value.tag !in remoteTags
    ensures r.Ok? && dryRun ==> r.value.pyproject == pyproject && r.value.releaseMd == releaseMd
    ensures r.Ok? ==> ChooseNotes(Sections(releaseMd), r.value.target, Template(CommitLines(log)), dryRun, response, typed)
                      == Ok(r.value.notes)
  {
    var target :- TargetVersion(pyproject, request);
    var tag := TagName(target);
    if tag in localTags then Err(TagExistsLocally(tag))
    else if tag in remoteTags then Err(TagExistsOnRemote(tag))
    else
      var notes :- ChooseNotes(Sections(releaseMd), target, Template(CommitLines(log)), dryRun, response, typed);
      if dryRun then Ok(Outcome(target, tag, notes, pyproject, releaseMd))
      else
        var version := target.ToString();
        var content :- WritePyprojectVersion(pyproject.value, version);
        var md := WriteReleaseNotes(Some(CreateInitialReleaseMd(releaseMd)), version, today, notes);
        Ok(Outcome(target, tag, notes, Some(content), Some(md)))
  }

  /** Outside a dry run, pyproject.toml gets the target version and RELEASE.md the new
      section, after it is created when missing. */
  lemma PlanReleaseFiles(pyproject: Option<string>, releaseMd: Option<string>, request: string,
                         localTags: set<string>, remoteTags: set<string>, log: string,
                         response: string, typed: seq<string>, today: string)
    requires PlanRelease(pyproject, releaseMd, request, localTags, remoteTags, log, false, response, typed, today).Ok?
    ensures var o := PlanRelease(pyproject, releaseMd, request, localTags, remoteTags, log, false, response, typed, today).value;
            && pyproject.Some? && WritePyprojectVersion(pyproject.value, o.target.ToString()).Ok?
            && o.pyproject == Some(WritePyprojectVersion(pyproject.value, o.target.ToString()).value)
            && o.releaseMd == Some(WriteReleaseNotes(Some(CreateInitialReleaseMd(releaseMd)), o.target.ToString(), today, o.notes))
  {
  }

  /** The project directory as `do_release` finds and leaves it. */
  class Project {
    var pyproject: Option<string>
    var releaseMd: Option<string>

    constructor(pyproject: Option<string>, releaseMd: Option<string>)
      ensures this.pyproject == pyproject && this.releaseMd == releaseMd
    {
      this.pyproject := pyproject;
      this.releaseMd := releaseMd;
    }

    /** `write_pyproject_version`: the file changes only when the update succeeds. */
    method WriteVersion(version: string) returns (r: Result<(), ReleaseError>)
      requires pyproject.Some?
      modifies this
      ensures releaseMd == old(releaseMd)
      ensures r.Ok? <==> WritePyprojectVersion(old(pyproject).value, version).Ok?
      ensures r.Ok? ==> pyproject == Some(WritePyprojectVersion(old(pyproject).value, version).value)
      ensures r.Err? ==> r.error == WritePyprojectVersion(old(pyproject).value, version).error
      ensures r.Err? ==> pyproject == old(pyproject)
    {
      match WritePyprojectVersion(pyproject.value, version) {
        case Ok(content) =>
          pyproject := Some(content);
          r := Ok(());
        case Err(e) =>
          r := Err(e);
      }
    }

    /** `create_initial_release_md`. */
    method CreateInitial()
      modifies this
      ensures pyproject == old(pyproject)
      ensures releaseMd == Some(CreateInitialReleaseMd(old(releaseMd)))
    {
      if releaseMd.None? {
        releaseMd := Some(InitialReleaseMd);
      }
    }

    /** `write_release_notes`. */
    method WriteNotes(version: string, today: string, notes: string)
      modifies this
      ensures pyproject == old(pyproject)
      ensures releaseMd == Some(WriteReleaseNotes(old(releaseMd), version, today, notes))
    {
      releaseMd := Some(WriteReleaseNotes(releaseMd, version, today, notes));
    }

    /** `do_release` up to the commit, step by step; on an error nothing is written. */
    method DoRelease(request: string, localTags: set<string>, remoteTags: set<string>, log: string,
                     dryRun: bool, response: string, typed: seq<string>, today: string)
      returns (r: Result<Outcome, ReleaseError>)
      modifies this
      ensures r == PlanRelease(old(pyproject), old(releaseMd), request, localTags, remoteTags, log, dryRun,
                               response, typed, today)
      ensures r.Ok? ==> pyproject == r.value.pyproject && releaseMd == r.value.releaseMd
      ensures r.Err? ==> pyproject == old(pyproject) && releaseMd == old(releaseMd)
    {
      var target :- TargetVersion(pyproject, request);
      var tag := TagName(target);
      if tag in localTags {
        return Err(TagExistsLocally(tag));
      }
      if tag in remoteTags {
        return Err(TagExistsOnRemote(tag));
      }
      var commits := CommitLines(log);
      var proposed := GenerateReleaseNotesTemplate(commits);
      var notes :- ChooseNotes(Sections(releaseMd), target, proposed, dryRun, response, typed);
      if dryRun {
        return Ok(Outcome(target, tag, notes, pyproject, releaseMd));
      }
      var version := target.ToString();
      var written := WriteVersion(version);
      if written.Err? {
        return Err(written.error);
      }
      CreateInitial();
      WriteNotes(version, today, notes);
      return Ok(Outcome(target, tag, notes, pyproject, releaseMd));
    }
  }

  // ---------------------------------------------------------------- what a release leaves

  /** Version texts the release writes are the ones the parser reads. */
  lemma ToStringVersionText(v: Version)
    ensures VersionText(v.ToString())
  {
    var t := v.ToString();
    ToStringValid(v);
    ToStringEnds(v);
    WhitespaceIsSpace(t[0]);
    WhitespaceIsSpace(t[|t| - 1]);
    StripOfNoop(t, Whitespace);
  }

  /** After a release pyproject.toml names the target version. */
  lemma ReleaseWritesVersion(pyproject: Option<string>, releaseMd: Option<string>, request: string,
                             localTags: set<string>, remoteTags: set<string>, log: string,
                             response: string, typed: seq<string>, today: string)
    requires PlanRelease(pyproject, releaseMd, request, localTags, remoteTags, log, false, response, typed, today).Ok?
    ensures var o := PlanRelease(pyproject, releaseMd, request, localTags, remoteTags, log, false, response, typed, today).value;
            && ReadPyprojectVersion(o.pyproject) == Ok(o.target.ToString())
            && Parse(ReadPyprojectVersion(o.pyproject).value) == Ok(o.target)
  {
    var o := PlanRelease(pyproject, releaseMd, request, localTags, remoteTags, log, false, response, typed, today).value;
    PlanReleaseFiles(pyproject, releaseMd, request, localTags, remoteTags, log, response, typed, today);
    WriteThenRead(pyproject.value, o.target);
  }

  /** Packaging after a release names the archive with the released version: both scripts
      read pyproject.toml with the same pattern. */
  lemma ReleasePackagedVersion(pyproject: Option<string>, releaseMd: Option<string>, request: string,
                               localTags: set<string>, remoteTags: set<string>, log: string,
                               response: string, typed: seq<string>, today: string)
    requires PlanRelease(pyproject, releaseMd, request, localTags, remoteTags, log, false, response, typed, today).Ok?
    ensures var o := PlanRelease(pyproject, releaseMd, request, localTags, remoteTags, log, false, response, typed, today).value;
            PackageSkill.GetVersionFromPyproject(o.pyproject) == o.target.ToString()
  {
    ReleaseWritesVersion(pyproject, releaseMd, request, localTags, remoteTags, log, response, typed, today);
  }

  /** In a project whose RELEASE.md names no version yet (or does not exist), a release
      leaves a RELEASE.md that reads back as exactly the new notes under the target. */
  lemma ReleaseNotesReadBack(pyproject: Option<string>, releaseMd: Option<string>, request: string,
                             localTags: set<string>, remoteTags: set<string>, log: string,
                             response: string, typed: seq<string>, today: string)
    requires PlanRelease(pyproject, releaseMd, request, localTags, remoteTags, log, false, response, typed, today).Ok?
    requires releaseMd.Some? ==> NoHeaderLine(releaseMd.value)
    requires ')' !in today
    requires PlainNotes(PlanRelease(pyproject, releaseMd, request, localTags, remoteTags, log, false, response, typed, today).value.notes)
    ensures var o := PlanRelease(pyproject, releaseMd, request, localTags, remoteTags, log, false, response, typed, today).value;
            Sections(o.releaseMd) == map[o.target.ToString() := Strip(o.notes)]
  {
    var o := PlanRelease(pyproject, releaseMd, request, localTags, remoteTags, log, false, response, typed, today).value;
    PlanReleaseFiles(pyproject, releaseMd, request, localTags, remoteTags, log, response, typed, today);
    WrittenNotesReadBack(releaseMd, o.target, today, o.notes);
  }

  lemma WrittenNotesReadBack(releaseMd: Option<string>, target: Version, today: string, notes: string)
    requires releaseMd.Some? ==> NoHeaderLine(releaseMd.value)
    requires ')' !in today && PlainNotes(notes)
    ensures Sections(Some(WriteReleaseNotes(Some(CreateInitialReleaseMd(releaseMd)), target.ToString(), today, notes)))
            == map[target.ToString() := Strip(notes)]
  {
    ToStringVersionText(target);
    if releaseMd.None? {
      InitialNoHeader();
    }
    WritePlainReadBack(CreateInitialReleaseMd(releaseMd), target.ToString(), today, notes);
  }

  /** Accepted template notes always read back: commit lines hold no line break. */
  lemma AcceptedNotesPlain(pyproject: Option<string>, releaseMd: Option<string>, request: string,
                           localTags: set<string>, remoteTags: set<string>, log: string,
                           response: string, typed: seq<string>, today: string)
    requires PlanRelease(pyproject, releaseMd, request, localTags, remoteTags, log, false, response, typed, today).Ok?
    requires Lower(Strip(response)) in Accepts
    requires Sections(releaseMd) == map[]
    ensures PlainNotes(PlanRelease(pyproject, releaseMd, request, localTags, remoteTags, log, false, response, typed, today).value.notes)
  {
    TemplatePlain(CommitLines(log));
  }
}
