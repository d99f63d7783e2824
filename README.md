# rhetorical-analysis-skill, modelled in Dafny

This project models the deterministic core of a skill for the rhetorical analysis of texts:

- **Scoring engine** (`Evaluate`). It compares a gold annotation of a text with a predicted
  one:
  - fallacy labels are normalised and arguments are aligned by id;
  - true positives, false positives and false negatives are counted globally and for each
    fallacy type;
  - precision, recall and F1 are derived from the counts;
  - reliability scores are compared by their mean absolute error.
- **Release tooling**:
  - Semantic versions: parse, print, bump and validate (`Release`).
  - The version field of `pyproject.toml`, which both scripts read with the same pattern
    (`Pyproject`).
  - The release-notes template and RELEASE.md, which the model parses and appends to
    (`ReleaseNotes`).
  - The release procedure up to the commit (`ReleaseFlow`). A `Project` class holds the two
    files the release rewrites.
- **Packager** (`PackageSkill`). It checks SKILL.md's frontmatter and line count, picks the
  version, filters the skill directory through the exclusion patterns and sorts what is
  kept.
- **Report formatters** of an analysis record (`Analysis`, `Excel`, `Markdown`):
  - the spreadsheet's cell values and reliability colour bands;
  - the list of lines of the Markdown report.

Files, the clock, git, the terminal and the spreadsheet library are not modelled:

- what they would provide is a parameter (the text of a file or `None` when it is absent,
  the date, the tag sets, the output of `git log`, the answers typed at the prompts);
- what they would receive is a result.

The shared helpers live in `Wrappers` (Option and Result), `Text` (the string operations of
Python the scripts use, on ASCII) and `Sums` (sums over maps).

Regular expressions are written out as position-by-position predicates, one per pattern.
They follow Python's backtracking semantics for the pattern at hand:

- `Release.Parse`;
- `Pyproject.FindVersion`;
- `ReleaseNotes.Found`;
- `PackageSkill.ClosingFrom`.

Ratios are exact `real`s.

## Model

| member | source | states |
|---|---|---|
| Evaluate.NormalizeLabel | scripts/evaluate.py:61 | a normalised label has no upper-case letter, no space and no whitespace at either end |
| Evaluate.NormalizeLabelIdempotent | scripts/evaluate.py:61 | normalising twice is normalising once |
| Evaluate.NormalizedIsFixed | scripts/evaluate.py:61 | any label already lower-case, trimmed and space-free is its own normal form (the converse of NormalizeLabel) |
| Evaluate.NormalizeLabelIgnoresCase | scripts/evaluate.py:61 | labels differing only in case normalise alike |
| Evaluate.NormalizeLabels | scripts/evaluate.py:61 | empty labels are dropped; every kept label is the normal form of a nonempty input label and every nonempty input label's normal form is kept |
| Evaluate.Keyed | scripts/evaluate.py:54-73 | reference definition of the id-to-value map both extraction loops build; KeyedKeys and KeyedLastWins state its keys and values |
| Evaluate.KeyedKeys | scripts/evaluate.py:57-62 | the keys of an extracted map are exactly the ids of the arguments, a missing id counting as 0 |
| Evaluate.KeyedLastWins | scripts/evaluate.py:68-72 | when arguments share an id the last of them supplies the value |
| Evaluate.ExtractFallacies | scripts/evaluate.py:54-63 | the loop fills the id-to-labels map that Keyed specifies |
| Evaluate.ExtractReliabilityScores | scripts/evaluate.py:66-73 | the loop fills the id-to-reliability map (default 3) that Keyed specifies |
| Evaluate.Tally | scripts/evaluate.py:102-103 | bumping the counter of each label of a part adds one to that kind for exactly those labels and leaves everything else alone |
| Evaluate.Part | scripts/evaluate.py:93-115 | reference definition of the labels of one id that are true positives (in both sets), false positives (predicted only) or false negatives (gold only); OneSidedId and TallyCounts state what follows from it |
| Evaluate.Totals | scripts/evaluate.py:86-115 | reference definition of the global counts, the sizes of the parts summed over the union of ids; TallyCounts ties the counting loop to it |
| Evaluate.CountsOf | scripts/evaluate.py:100-115 | reference definition of one fallacy type's counts, the ids whose part of each kind holds that type; TallyCounts and CountedFinal tie the per-type counters to it |
| Evaluate.CountAll | scripts/evaluate.py:95-115 | after visiting the ids in any order, the global counters and the per-type counters are those of all ids |
| Evaluate.CountedFinal | scripts/evaluate.py:100-115 | the per-type counters of TP, FP and FN add up to the global counts, and a type has a counter exactly when it occurs in some part |
| Evaluate.TallyCounts | scripts/evaluate.py:86-115 | the counting loop yields TP = gold∩pred, FP = pred−gold, FN = gold−pred summed over the union of ids, per type and globally, and the per-type sums equal the global ones |
| Evaluate.Ratio | scripts/evaluate.py:118-127 | a ratio is 0 with a zero denominator, lies in [0,1] when the numerator is at most the denominator, and is 1 when they are equal and positive |
| Evaluate.F1 | scripts/evaluate.py:128 | F1 is 0 when precision plus recall is 0 and lies in [0,1] when both do |
| Evaluate.ScoresOf | scripts/evaluate.py:133-136 | precision, recall and F1 of a counter all lie in [0,1], each ratio being 0 when its denominator is 0 |
| Evaluate.F1Reference | scripts/evaluate.py:128 | F1 also equals 2tp/(2tp+fp+fn), an independent definition |
| Evaluate.ScoresPerfect | scripts/evaluate.py:118-128 | no false positive, no false negative and some true positive score 1 on all three measures |
| Evaluate.ScoresNoTruePositive | scripts/evaluate.py:118-128 | no true positive scores 0 on all three measures |
| Evaluate.ComputeFallacyMetrics | scripts/evaluate.py:76-139 | the global scores are those of the total counts and lie in [0,1]; the details hold exactly the types that occur, each with the scores of its counter |
| Evaluate.ScoreTypes | scripts/evaluate.py:131-137 | every per-type counter gets its scores, and no other key appears |
| Evaluate.OneSidedId | scripts/evaluate.py:93-115 | an id present on one side only has no true positive: its labels are all false positives or all false negatives |
| Evaluate.TruePositivesFromCommonIds | scripts/evaluate.py:93-103 | the global true positives come only from ids present on both sides |
| Evaluate.TypeTruePositivesFromCommonIds | scripts/evaluate.py:93-103 | the same holds for every fallacy type |
| Evaluate.PerfectMatch | scripts/evaluate.py:93-128 | a prediction equal to a gold annotation with some label scores P = R = F1 = 1 |
| Evaluate.PerfectMatchPerType | scripts/evaluate.py:93-137 | with a prediction equal to the gold one, every occurring type scores 1 |
| Evaluate.NoCommonLabel | scripts/evaluate.py:93-128 | when no id shares a label between the sides, every global score is 0 |
| Evaluate.Errors | scripts/evaluate.py:144-149 | the absolute errors are defined on exactly the common ids and are non-negative |
| Evaluate.ReliabilityMae | scripts/evaluate.py:142-150 | the MAE is never negative |
| Evaluate.MaeIsMean | scripts/evaluate.py:146-150 | with common ids, the MAE is the sum of the absolute errors over exactly the common ids divided by their number |
| Evaluate.MaeSymmetric | scripts/evaluate.py:142-150 | swapping gold and prediction leaves the MAE unchanged |
| Evaluate.MaeZeroIff | scripts/evaluate.py:142-150 | the MAE is 0 exactly when the sides agree on every common id, in particular when they share none |
| Evaluate.MaeAtMost | scripts/evaluate.py:149-150 | a bound on every absolute error bounds the MAE |
| Evaluate.MaeOnScale | scripts/evaluate.py:142-150 | scores on the 1 to 5 scale give an MAE of at most 4 |
| Evaluate.EvaluateAnalysis | scripts/evaluate.py:153-187 | the argument counts are the raw list lengths (0 when absent); the fallacy scores and details are those of the id-aligned label maps; the MAE is that of the id-aligned reliability maps |
| Release.Parse | scripts/release.py:59-64 | a refused text is reported with that text |
| Release.Version.ToString | scripts/release.py:43-44 | reference definition of `str(v)`; ParseToString and ToStringValid state that it prints a valid version that parses back to itself |
| Release.IsValidSemver | scripts/release.py:85-94 | reference definition of `is_valid_semver`; ValidSemverShape and ValidSemverIffParse state which texts it accepts |
| Release.ParseShape | scripts/release.py:59 | parsing succeeds exactly on texts that strip to digits.digits.digits |
| Release.ValidSemverShape | scripts/release.py:94 | is_valid_semver accepts exactly the texts that strip to digits.digits.digits |
| Release.ValidSemverIffParse | scripts/release.py:85-94 | is_valid_semver holds exactly when Version.parse succeeds |
| Release.ParseToString | scripts/release.py:43-64 | printing a version and parsing it back gives the same version |
| Release.ToStringValid | scripts/release.py:43-44 | every printed version is a valid semantic version |
| Release.Bump | scripts/release.py:66-82 | reference definition of `Version.bump`; BumpIsOldestNewer, BumpIsNewer and BumpRejects state its properties |
| Release.BumpIsOldestNewer | scripts/release.py:75-80 | a bump is the oldest version newer at its level: patch+1; minor+1 with patch 0; major+1 with minor and patch 0 |
| Release.BumpIsNewer | scripts/release.py:75-80 | every accepted bump gives a strictly newer version |
| Release.BumpRejects | scripts/release.py:81-82 | a bump fails exactly for types other than patch, minor and major, with the invalid-bump error |
| Release.ReadPyprojectVersion | scripts/release.py:100-121 | a missing file and a file without a version field give their two distinct errors |
| Release.WritePyprojectVersion | scripts/release.py:124-146 | reference definition of the new text of pyproject.toml; WriteThenRead, WriteFails and WriteUndo state its properties |
| Release.WriteThenRead | scripts/release.py:124-146 | after writing a version into pyproject.toml, reading it gives that version, which parses back |
| Release.WriteFails | scripts/release.py:135-144 | writing fails exactly when the file has no version field or already holds the new version |
| Release.WriteUndo | scripts/release.py:135-146 | writing the previous version back restores the file |
| Release.TargetVersion | scripts/release.py:433-445 | reference definition of the version choice of `do_release`; TargetVersionNeedsCurrent, TargetVersionBump and TargetVersionExplicit state its cases |
| Release.TargetVersionBump | scripts/release.py:434-438 | a bump request gives the bumped current version, which is newer |
| Release.TargetVersionExplicit | scripts/release.py:439-445 | an explicit request gives the version it spells, and a bad one the invalid-version error, never a format error |
| Release.TagName | scripts/release.py:447 | reference definition of the tag name; TagNameShape states its form |
| Release.TargetVersionNeedsCurrent | scripts/release.py:434-435 | a missing or unparsable current version fails first, whatever is requested |
| Release.TagNameShape | scripts/release.py:447 | the tag is `v` and the printed version, which is not itself a valid semantic version |
| Pyproject.FindVersion | scripts/release.py:117 | a found value is nonempty and holds no quote |
| Pyproject.FindVersionNone | scripts/release.py:117-119 | nothing is found exactly when no line start begins a version assignment |
| Pyproject.FindVersionFirst | scripts/release.py:117-121 | the value found is that of the first line that matches |
| Pyproject.ReplaceVersionFails | scripts/release.py:135-144 | substitution reports a failure exactly when there is no match or the value is already the new one |
| Pyproject.ReplaceThenFind | scripts/release.py:135-141 | after substituting a quote-free value, the search finds that value |
| Pyproject.ReplaceVersionUndo | scripts/release.py:135-141 | substituting the old value back restores the text |
| ReleaseNotes.GenerateReleaseNotesTemplate | scripts/release.py:319-340 | the loop builds the template that Template specifies |
| ReleaseNotes.Template | scripts/release.py:319-340 | reference definition of the template text; GenerateReleaseNotesTemplate, NoteLines, TemplateLines and TemplatePlain state its properties |
| ReleaseNotes.NoteLines | scripts/release.py:332-338 | one note line per commit, each that commit's line |
| ReleaseNotes.MessagePartSpec | scripts/release.py:334-338 | a note shows what follows the first space, the commit being a space-free hash, a space and that text; a commit with no space shows whole |
| ReleaseNotes.TemplateLines | scripts/release.py:328-340 | for a nonempty list of single-line commits, the template splits into one line per commit, for at most the first 20 |
| ReleaseNotes.CreateInitialReleaseMd | scripts/release.py:370-387 | an existing RELEASE.md is kept and a missing one gets the initial text |
| ReleaseNotes.InitialNoHeader | scripts/release.py:380-386 | the initial RELEASE.md has no line that starts with `##` |
| ReleaseNotes.NewSection | scripts/release.py:353 | reference definition of the text of a new section, `## v{version} ({today})`, a blank line, the notes and a blank line; SectionsOfNew reads it back |
| ReleaseNotes.WriteReleaseNotes | scripts/release.py:343-367 | reference definition of the new RELEASE.md; WriteBeforeFirstSection, WriteAtEnd, WriteNewReadBack, WritePlainReadBack and WriteBeforeReadBack state its properties |
| ReleaseNotes.WriteBeforeFirstSection | scripts/release.py:359-361 | with a `\n## ` past position 0, the text up to that newline is kept, the new section follows, the rest comes after it unchanged, and the new section is the first one the next write finds |
| ReleaseNotes.WriteAtEnd | scripts/release.py:362-363 | otherwise the old text loses exactly its trailing whitespace and the new section follows a blank line |
| ReleaseNotes.Triple | scripts/release.py:308 | a matched version starts where the scan starts and its last group is taken whole |
| ReleaseNotes.BodyStart | scripts/release.py:308 | a body starts right after a newline |
| ReleaseNotes.Header | scripts/release.py:308 | a matched header names a version that lies after the `##` and the spaces and within the text |
| ReleaseNotes.BodyEnd | scripts/release.py:308 | the lazy body ends at or after its start and within the text |
| ReleaseNotes.SectionAt | scripts/release.py:308 | a match at a position ends after it and within the text |
| ReleaseNotes.Table | scripts/release.py:308-309 | the table holds the match at each position |
| ReleaseNotes.Found | scripts/release.py:308-309 | reference definition of `re.finditer`: the matches, each search resuming where the last match ended; FoundNew and FoundBlocks state what it finds |
| ReleaseNotes.Collect | scripts/release.py:311-314 | the dictionary's keys are exactly the versions of the matches |
| ReleaseNotes.Sections | scripts/release.py:291-316 | reference definition of `parse_release_notes`; SectionsVersions, SectionsOfNew, SectionsOfBlocks, SectionsOfFront and SectionsOfTwo state what it returns |
| ReleaseNotes.ParseReleaseNotes | scripts/release.py:291-316 | a missing file gives the empty map; otherwise the result is the map that the matches fill |
| ReleaseNotes.FillSections | scripts/release.py:311-314 | the loop builds the map that Collect specifies |
| ReleaseNotes.CollectLast | scripts/release.py:311-314 | a version's notes are the stripped body of its last section |
| ReleaseNotes.SectionVersion | scripts/release.py:308 | every matched version is three dot-separated digit groups |
| ReleaseNotes.SectionsVersions | scripts/release.py:291-316 | every key of the parsed map is such a version text |
| ReleaseNotes.FoundNew | scripts/release.py:308-309 | a header-free preamble followed by a new section matches as that one section |
| ReleaseNotes.StripPadded | scripts/release.py:313 | for any notes, stripping ignores the two line breaks written after them |
| ReleaseNotes.SectionsOfNew | scripts/release.py:354 | a written section parses back as its stripped notes under its version |
| ReleaseNotes.HeaderNamed | scripts/release.py:308 | a `## ` at a line start, with or without the `v`, followed by a version text not followed by a digit, is matched as a header naming that version |
| ReleaseNotes.BodyEndAt | scripts/release.py:308 | the lazy body runs up to the first position where a header starts, or to the end |
| ReleaseNotes.BlockAt | scripts/release.py:308-309 | a well-written section at a line start matches with its version and body, up to the next header or the end |
| ReleaseNotes.FoundBlocks | scripts/release.py:308-309 | from the start of any number of well-written sections, the search finds one match per section, in order, with its version and body |
| ReleaseNotes.CollectKeysValues | scripts/release.py:311-314 | matches carrying given versions and bodies fill a dictionary whose keys are exactly those versions, each with the stripped body of its last section |
| ReleaseNotes.SectionsOfBlocks | scripts/release.py:291-316 | a header-free preamble followed by any number of sections, with or without `v` and date and with any number of blank lines after the header: the keys are exactly the sections' versions, and a version maps to the stripped body of its last section |
| ReleaseNotes.SectionsOfFront | scripts/release.py:291-316 | one more section in front of the sections adds its version with its stripped body, and leaves the dictionary as it was when a later section names the same version |
| ReleaseNotes.SectionsOfTwo | scripts/release.py:291-316 | preamble, header 1, body 1, header 2, body 2 with two different versions parses as exactly those two versions mapped to their stripped bodies |
| ReleaseNotes.WriteNewReadBack | scripts/release.py:364-365 | a new RELEASE.md reads back as exactly the section written |
| ReleaseNotes.WritePlainReadBack | scripts/release.py:356-363 | writing into a RELEASE.md with no `##` line reads back as exactly the new section |
| ReleaseNotes.NewIsWritten | scripts/release.py:354 | the new section is a section with `v`, date and one blank line, whose body is the notes and a blank line |
| ReleaseNotes.PreambleFind | scripts/release.py:359 | after a header-free preamble of at least two characters, the first `\n## ` is the preamble's closing line break |
| ReleaseNotes.WriteBeforeBlocks | scripts/release.py:359-361 | writing into a preamble of at least two characters followed by sections gives the preamble, the new section, then the sections unchanged |
| ReleaseNotes.WriteBeforeReadBack | scripts/release.py:343-367 | writing into such a RELEASE.md and parsing it back gives the old dictionary with the new version mapped to the stripped notes, or the old dictionary unchanged when a section of that version was already there |
| ReleaseNotes.TemplatePlain | scripts/release.py:328-340 | a template of single-line commits starts with `-` and names no version, so it reads back |
| ReleaseFlow.NonBlank | scripts/release.py:260 | every kept line is a non-blank input line, and every non-blank input line is kept; NonBlankAppend and NonBlankSnoc state the order and the count |
| ReleaseFlow.NonBlankAppend | scripts/release.py:260 | filtering two pieces one after the other gives the filtered pieces one after the other, so the kept lines keep their input order |
| ReleaseFlow.NonBlankSnoc | scripts/release.py:260 | one more line at the end is kept, once and at the end, exactly when it is not blank |
| ReleaseFlow.NonBlankAll | scripts/release.py:260 | lines that are all non-blank are all kept, unchanged |
| ReleaseFlow.CommitLinesOfLog | scripts/release.py:246-260 | a log of one line per commit, each ended by a line break, gives back those commits in order, the first without its leading blanks and the last without its trailing ones, as run_git's `strip()` leaves them; commits with no blank at either end come back exactly |
| Text.StrippedEnds | scripts/release.py:173 | the commit lines as the log's `strip()` leaves them: only the first line's leading and the last line's trailing blanks go |
| Text.StrippedEndsLines | scripts/release.py:173 | stripping the log's ends keeps every commit a single non-blank line |
| Text.StripJoined | scripts/release.py:173 | the stripped log is the stripped-ends commits joined by line breaks, the final line break gone |
| Text.SplitStripJoined | scripts/release.py:260 | splitting the stripped log at line breaks gives the stripped-ends commits |
| Text.StrippedEndsUnpadded | scripts/release.py:173 | commits with no blank at the log's two ends lose nothing to the strip |
| ReleaseFlow.KeptSingleLines | scripts/release.py:260 | single non-blank lines are all kept by the filter |
| ReleaseFlow.NonBlankWithout | scripts/release.py:260 | a character no line holds is held by no kept line |
| ReleaseFlow.CommitLines | scripts/release.py:246-260 | the commits are the non-blank lines of the log after run_git's `strip()` (release.py:173), each a single non-blank line; CommitLinesOfLog states which commits come back |
| ReleaseFlow.TypedLines | scripts/release.py:487-493 | the edited notes are the typed lines before the first empty one; without an empty line the input ends first |
| ReleaseFlow.ReadTypedLines | scripts/release.py:488-492 | the loop reads the lines that TypedLines specifies |
| ReleaseFlow.TypedLinesAt | scripts/release.py:488-492 | the first empty line ends the notes |
| ReleaseFlow.EditedNotesLines | scripts/release.py:493 | joined edited lines split back into those lines |
| ReleaseFlow.ChooseNotes | scripts/release.py:461-477 | existing notes for the target win; otherwise a dry run takes the proposal |
| ReleaseFlow.PlanRelease | scripts/release.py:419-516 | a release targets the chosen version, with the tag `v` and that version; the tag exists neither locally nor remotely; a dry run changes no file; the notes released are the ones `ChooseNotes` settles on between RELEASE.md, the commit template and the prompts |
| ReleaseFlow.PlanReleaseFiles | scripts/release.py:506-516 | outside a dry run, pyproject.toml gets the target version, and RELEASE.md, created first when missing, gets the new section |
| ReleaseFlow.Project.constructor | scripts/release.py:419 | a project starts with the files given |
| ReleaseFlow.Project.WriteVersion | scripts/release.py:124-146 | pyproject.toml changes only when the update succeeds; a failure keeps it |
| ReleaseFlow.Project.CreateInitial | scripts/release.py:370-387 | RELEASE.md becomes CreateInitialReleaseMd of what it was |
| ReleaseFlow.Project.WriteNotes | scripts/release.py:343-367 | RELEASE.md becomes what write_release_notes writes, pyproject.toml is untouched |
| ReleaseFlow.Project.DoRelease | scripts/release.py:433-516 | the steps give PlanRelease's outcome and leave the files as it says; on an error no file changes |
| ReleaseFlow.ToStringVersionText | scripts/release.py:354 | the version written in a header is one the parser reads |
| ReleaseFlow.ReleaseWritesVersion | scripts/release.py:512 | after a release pyproject.toml names the target version, which parses back to it |
| ReleaseFlow.ReleasePackagedVersion | scripts/release.py:512 | packaging after a release takes the released version as the archive's version |
| ReleaseFlow.ReleaseNotesReadBack | scripts/release.py:515-516 | in a project whose RELEASE.md names no version yet, the released RELEASE.md reads back as exactly the new notes under the target |
| ReleaseFlow.WrittenNotesReadBack | scripts/release.py:515-516 | the same, for the two file steps alone |
| ReleaseFlow.AcceptedNotesPlain | scripts/release.py:480-482 | accepted template notes always read back |
| PackageSkill.ClosingFrom | scripts/package_skill.py:97 | the search finds a closing fence, and the first one |
| PackageSkill.Slice | scripts/package_skill.py:101 | a Python slice with its end before its start is empty |
| PackageSkill.FrontmatterText | scripts/package_skill.py:93-101 | content without a leading `---` has no frontmatter; with one but no closing fence it is not closed |
| PackageSkill.Frontmatter | scripts/package_skill.py:81-114 | reference definition of what `parse_yaml_frontmatter` returns or raises; ParseYamlFrontmatter, FrontmatterText, EntriesKeys and EntriesLast state its properties |
| PackageSkill.Unquote | scripts/package_skill.py:111 | the result neither starts nor ends with a single quote; UnquoteQuoted states that surrounding double or single quotes are removed, UnquotePadded that an unquoted value is kept |
| PackageSkill.ParsedLines | scripts/package_skill.py:104-112 | each line is parsed on its own |
| PackageSkill.ParseYamlFrontmatter | scripts/package_skill.py:81-114 | the method returns the error of FrontmatterText, or the entries of the parsed lines |
| PackageSkill.CollectEntries | scripts/package_skill.py:104-112 | the loop fills the map that Entries specifies |
| PackageSkill.EntriesKeys | scripts/package_skill.py:108-112 | a key is present exactly when some line sets it |
| PackageSkill.EntriesLast | scripts/package_skill.py:112 | a key's value is the one on its last line |
| PackageSkill.ParseLineOf | scripts/package_skill.py:104-112 | a `key: value` line with an unquoted value reads back as that key and value; ParseLineQuoted covers the quoted values |
| PackageSkill.ParseLineQuoted | scripts/package_skill.py:104-112 | a `key: "value"` or `key: 'value'` line reads back as that key and the value without its quotes, as tests/test_package_skill.py:52-62 expects |
| PackageSkill.UnquoteQuoted | scripts/package_skill.py:111 | a value after the colon in double or single quotes loses the leading blank and both quotes, and nothing else |
| PackageSkill.StripLeadingBlank | scripts/package_skill.py:111 | a blank before a quoted value goes with `strip()`, and the quotes stay for the next strips |
| PackageSkill.StripPlain | scripts/package_skill.py:105 | an unpadded line is its own strip |
| PackageSkill.UnquotePadded | scripts/package_skill.py:111 | the value after the colon loses its leading blank and nothing else |
| PackageSkill.PartitionAt | scripts/package_skill.py:109 | splitting at the first colon gives the text before and after it |
| PackageSkill.SplitLines | scripts/package_skill.py:136 | reference definition of `splitlines`; SplitLinesNoBreak, SplitLinesTerminated and LineEndAt state its properties |
| PackageSkill.SplitLinesNoBreak | scripts/package_skill.py:136 | no line of splitlines holds a break |
| PackageSkill.SplitLinesTerminated | scripts/package_skill.py:136 | lines each ended by a newline split back into the same lines |
| PackageSkill.LineEndAt | scripts/package_skill.py:136 | a line ends at the first break |
| PackageSkill.ValidateSkillMd | scripts/package_skill.py:117-150 | a missing file, then too many lines, then a frontmatter error, then a missing name or description fail in that order; success returns the frontmatter |
| PackageSkill.ValidateMonotone | scripts/package_skill.py:138 | a larger line limit never rejects a file a smaller one accepts |
| PackageSkill.GetVersionFromPyproject | scripts/package_skill.py:153-174 | the version is the first version value, or `dev` when there is no file or no match |
| PackageSkill.ShouldExclude | scripts/package_skill.py:177-211 | the early-return loop answers true exactly when some pattern matches |
| PackageSkill.Matches | scripts/package_skill.py:190-209 | reference definition of one pattern against one path, the four kinds in order; GlobDirMatches, DirMatches and GlobFileMatches state each kind |
| PackageSkill.Excluded | scripts/package_skill.py:190-211 | reference definition of "some pattern matches"; ShouldExclude, ExcludedNone, ExcludedMonotone and ExcludedBy state its properties |
| PackageSkill.GlobDirMatches | scripts/package_skill.py:192-196 | `*X/` excludes exactly paths with a component ending in X |
| PackageSkill.DirMatches | scripts/package_skill.py:198-201 | `D/` excludes exactly paths with the component D |
| PackageSkill.GlobFileMatches | scripts/package_skill.py:203-206 | `*S` excludes exactly path texts ending in S |
| PackageSkill.ExcludedNone | scripts/package_skill.py:211 | with no patterns nothing is excluded |
| PackageSkill.ExcludedMonotone | scripts/package_skill.py:190-211 | adding patterns never takes an excluded path back in |
| PackageSkill.ExcludedBy | scripts/package_skill.py:190-209 | any matching pattern excludes |
| PackageSkill.GitExample | scripts/package_skill.py:198-201 | an illustration on one path: `.git/config` is excluded by `.git/` |
| PackageSkill.PycExample | scripts/package_skill.py:203-206 | an illustration on one path: `src/module.pyc` is excluded by `*.pyc` |
| PackageSkill.KeptExample | scripts/package_skill.py:190-211 | an illustration on one path: `scripts/main.py` is kept by `.git/` and `*.pyc` |
| PackageSkill.Kept | scripts/package_skill.py:226-233 | reference definition of the files `collect_files` appends, in listing order; KeptMembers states which they are |
| PackageSkill.KeptMembers | scripts/package_skill.py:226-233 | a path is kept exactly when the listing holds it as a file no pattern excludes |
| PackageSkill.PathLeTotal | scripts/package_skill.py:235 | any two paths are ordered one way or the other |
| PackageSkill.PathLeTransitive | scripts/package_skill.py:235 | the path order is transitive |
| PackageSkill.SortPaths | scripts/package_skill.py:235 | reference definition of `sorted(files)`, by insertion; SortPathsSpec states it is an ordered permutation |
| PackageSkill.InsertHead | scripts/package_skill.py:235 | an insertion starts with the new path or with the old first one |
| PackageSkill.InsertPerm | scripts/package_skill.py:235 | an insertion adds exactly the new path |
| PackageSkill.SortedTail | scripts/package_skill.py:235 | the tail of a sorted list is sorted |
| PackageSkill.InsertSorted | scripts/package_skill.py:235 | an insertion keeps a list sorted |
| PackageSkill.SortPathsSpec | scripts/package_skill.py:235 | sorting gives an ordered permutation of its input |
| PackageSkill.CollectFiles | scripts/package_skill.py:214-235 | the result is sorted and a permutation of the files no pattern excludes, in listing order before the sort |
| PackageSkill.PatternsOf | scripts/package_skill.py:277 | the caller's patterns are used unless there are none, and then the defaults |
| PackageSkill.PackageSkill | scripts/package_skill.py:276-290 | packaging fails exactly when validation fails, with its error |
| PackageSkill.PackageSkillSpec | scripts/package_skill.py:256-313 | name and description come from the frontmatter, the version from pyproject.toml, the files are sorted and exactly those kept, and the archive is `<name>-<version>.skill` unless it is a dry run |
| Analysis.ItemText | scripts/formatters/excel.py:39-48 | a label renders as itself; an object as its name, `Inconnu` when absent, with ` (severity)` only for a nonempty severity; anything else is skipped. It is the reference definition: RenderedAppend, RenderedCount and FallaciesTextCases state what is built from it |
| Analysis.Rendered | scripts/formatters/excel.py:39-48 | reference definition of the texts the loop appends; RenderedAppend and RenderedCount state its properties |
| Analysis.FallaciesText | scripts/formatters/excel.py:33-50 | reference definition of what `format_fallacies` returns; FallaciesTextCases states its cases |
| Analysis.FormatFallacies | scripts/formatters/excel.py:33-50 | the loop renders and joins the items as FallaciesText specifies |
| Analysis.RenderedAppend | scripts/formatters/excel.py:39-48 | rendering keeps the order of the items, each rendered on its own |
| Analysis.RenderedCount | scripts/formatters/excel.py:39-48 | exactly the items that are neither labels nor objects are skipped |
| Analysis.FallaciesTextCases | scripts/formatters/excel.py:35-50 | no list, an empty list or nothing rendered gives `Aucun détecté`; otherwise the rendered items joined |
| Analysis.Scores | scripts/formatters/excel.py:162-169 | a source has five criterion scores, a missing one counting as 0 |
| Analysis.SumOfFive | scripts/formatters/excel.py:170 | the sum of the five scores is their total |
| Analysis.AverageBetween | scripts/formatters/excel.py:170 | the average lies between the least and the greatest score |
| Analysis.SumBounds | scripts/formatters/excel.py:170 | bounds on each score bound the sum |
| Excel.ReliabilityFill | scripts/formatters/excel.py:23-30 | high exactly for scores of 4 or more, medium exactly for 3, low exactly for 2 or less. It is the reference definition; BandMonotone states its ordering |
| Excel.BandMonotone | scripts/formatters/excel.py:23-30 | a higher score never gets a less trusted band |
| Excel.FormatFallacies | scripts/formatters/excel.py:33-50 | the cell holds the items one per line; when no item holds a line break, splitting the cell gives the rendered items back |
| Excel.Excerpt | scripts/formatters/excel.py:83 | reference definition of the original-text cell; ExcerptSpec states its properties |
| Excel.ExcerptSpec | scripts/formatters/excel.py:83 | the excerpt is the text when it has at most 500 characters; otherwise its first 500 characters and `...`, and only then is it longer than 500 |
| Excel.MainRows | scripts/formatters/excel.py:79-90 | one row per argument |
| Excel.MainRowOf | scripts/formatters/excel.py:79-100 | reference definition of one row of the main sheet; MainRowsSpec states its cells |
| Excel.MainRowsSpec | scripts/formatters/excel.py:79-100 | a missing id is the row's position from 1, a missing reliability is 3 (medium), the reliability cell is coloured by its band, the fallacy and excerpt cells are as specified, and the label, claim, reasoning type, rationale and comment cells show their values or `""` when absent |
| Excel.ToulminRows | scripts/formatters/excel.py:125-134 | one row per argument |
| Excel.ToulminRowsSpec | scripts/formatters/excel.py:125-133 | missing backing and qualifier read `Non explicité`, a missing rebuttal `Non reconnu`, present values are shown, and ids match the main sheet |
| Excel.TruncFifth | scripts/formatters/excel.py:187 | Python's int() of a fifth: the quotient truncated toward zero, for either sign |
| Excel.RowsOfArgument | scripts/formatters/excel.py:161-189 | one row per cited source |
| Excel.SourceRowOf | scripts/formatters/excel.py:162-187 | reference definition of one row of the sources sheet; SourceRowSpec states its cells |
| Excel.SourceRowsCount | scripts/formatters/excel.py:159-189 | the sources sheet has one row per cited source, over all arguments |
| Excel.SourceRowSpec | scripts/formatters/excel.py:162-187 | missing scores count as 0; the average times 5 is their sum; each score cell is coloured by its band and the average cell by the band of the average truncated |
| Excel.SourceAverageBetween | scripts/formatters/excel.py:170 | a source whose criteria lie between two scores has its average between them |
| Markdown.FormatFallacies | scripts/formatters/markdown.py:1-18 | the items joined with `, ` by the same rules as the spreadsheet |
| Markdown.FifthsText | scripts/formatters/markdown.py:85-89 | reference definition of the printed average; FifthsTextValue states the number it reads as |
| Markdown.FifthsTextValue | scripts/formatters/markdown.py:85-89 | the average shown reads back as a signed decimal with one digit after the point, equal to the sum over 5 |
| Markdown.MetadataLines | scripts/formatters/markdown.py:33-37 | the metadata takes four lines |
| Markdown.CraapLines | scripts/formatters/markdown.py:72-91 | no table without sources, and otherwise four lines besides one row per source |
| Markdown.ArgumentBlock | scripts/formatters/markdown.py:55-91 | an argument's block has at least 14 lines, led by its heading |
| Markdown.SaveReportLines | scripts/formatters/markdown.py:30-119 | the appends build exactly ReportLines |
| Markdown.ReportLines | scripts/formatters/markdown.py:30-119 | reference definition of the report's lines; SectionOrder, BlocksInOrder, HeadingsInOrder, CraapBlock and LegendScale state their layout |
| Markdown.Format | scripts/formatters/markdown.py:33-119 | reference definition of a line's text; TitleText, HeadingText, ScaleRowText and SourceRowText state the texts of its templates |
| Markdown.BuildArguments | scripts/formatters/markdown.py:55-91 | the loop over arguments appends their blocks in list order |
| Markdown.AppendBullets | scripts/formatters/markdown.py:43-50 | each item becomes a `- ` line, in order, after the lines already there |
| Markdown.BuildSynthesis | scripts/formatters/markdown.py:40-51 | the synthesis section's lines |
| Markdown.BuildArgument | scripts/formatters/markdown.py:56-91 | one argument's lines |
| Markdown.BuildLegend | scripts/formatters/markdown.py:94-119 | the legend's lines |
| Markdown.FlatMapAppend | scripts/formatters/markdown.py:55 | the blocks of two argument lists concatenated are the two lists' blocks concatenated |
| Markdown.FlatMapSnoc | scripts/formatters/markdown.py:55 | one more argument appends its block |
| Markdown.FlatMapAt | scripts/formatters/markdown.py:55 | argument i's block sits between those of the arguments before and after it |
| Markdown.ArgumentBlocksSplit | scripts/formatters/markdown.py:55 | the same for the argument blocks of the report |
| Markdown.SectionOrder | scripts/formatters/markdown.py:33-119 | the report opens with the title (`Non spécifié` when absent), then come metadata, synthesis, argument details and the legend, in that order, the legend closing the report |
| Markdown.BlockAt | scripts/formatters/markdown.py:55-91 | argument i's block sits at its start, led by its heading |
| Markdown.BlocksInOrder | scripts/formatters/markdown.py:55-70 | blocks start in list order, each at least 14 lines after the previous one |
| Markdown.HeadingsInOrder | scripts/formatters/markdown.py:55-56 | argument headings appear in list order, all between the synthesis and the legend |
| Markdown.CraapBlock | scripts/formatters/markdown.py:72-91 | the CRAAP table appears exactly when sources are cited, with one row per source, in order, between its header and a closing blank line |
| Markdown.LegendScale | scripts/formatters/markdown.py:94-119 | the scale has its header and exactly five rows, then the criteria table with its five rows |
| Markdown.TitleText | scripts/formatters/markdown.py:34 | the first line reads `# Analyse Rhétorique: ` and the title |
| Markdown.HeadingText | scripts/formatters/markdown.py:56 | a heading reads `### Argument N°{id}: {label}`, the id in decimal and empty when absent |
| Markdown.ScaleRowText | scripts/formatters/markdown.py:105-106 | scale row k shows note 5 − k first |
| Markdown.SourceRowText | scripts/formatters/markdown.py:76-90 | a source row shows the name, the five scores and then the text of their sum over 5 |

## Left out

- Git, subprocesses and the terminal are parameters, not models: the tag sets, the output
  of `git log`, the answer to `Accept these notes?` and the typed lines. This covers
  `run_git`, `tag_exists`, `get_last_tag`, `create_tag`, `push_tag`,
  `check_clean_working_directory`, `get_current_branch` and `preflight_checks`. Left out
  with them are the commit and tag steps after RELEASE.md is written, the push prompt, and
  all printed output.
- When the typed input ends before an empty line, Python's `input()` raises `EOFError`.
  The model reports this as the error `InputEnded`.
- `date.today()` is the `today` parameter.
- The filesystem is replaced by file contents passed in as `Option<string>` (`None` when a
  file is absent) or as a directory listing. The packager's zip creation (`create_archive`)
  and the size report are left out, and so is the write of the Markdown report.
- Character classes are ASCII: `lower`, `strip`, `isspace`, `\s` and `\d` are not given
  their Unicode meaning.
- JSON is represented by typed records. An absent key is `None`. A JSON `null` is not
  distinguished from an absent key, and values of other JSON types are not modelled:
  - non-string fallacy labels in evaluate.py;
  - non-integer ids and scores;
  - non-numeric CRAAP scores.
- The regular expressions are single hand-written predicates, not a general regex engine.
- Floating point is replaced by exact `real` arithmetic. Left out with it:
  - the rounding in `EvaluationMetrics.to_dict`;
  - the formatted printing of `print_report`;
  - `export_results_csv`;
  - `batch_evaluate`;
  - the printed interpretation thresholds.
- Excel.SourceRowOf: the average cell holds the exact fifth, not `round(avg, 1)`. Its fill
  uses `int()` of the exact fifth, which such rounding cannot change.
- Markdown.FifthsText covers the printed average. Python prints `round(x, 1)` of an exact
  fifth as the whole part, a point and one digit. The model states that reading, not
  Python's float printing in general.
- The `reliability_correlation` and `toulmin_*` fields of `EvaluationMetrics` are never
  computed in the source and are not modelled.
- The spreadsheet's presentation is left out: fonts, fills as colours, borders, widths,
  heights, sheet creation and `wb.save`. Left out with it are the synthesis and legend
  sheets, which only copy fixed texts and the synthesis lists into cells.
- Markdown.Format renders each line from its template and its values. The model proves
  line-list facts about those templates; it does not prove every character of every line.
- ReleaseNotes.WritePlainReadBack is proved only for a RELEASE.md that has no line starting
  with `##`. WriteBeforeReadBack covers a header-free preamble of at least two characters
  followed by well-written sections. Other files are stated only structurally, by
  WriteBeforeFirstSection and WriteAtEnd. These include a file that starts with a section,
  which gets the new section after its first one, and sections that do not read back as
  written. All three read-back lemmas (WriteNewReadBack, WritePlainReadBack,
  WriteBeforeReadBack) require notes that start with a visible character. Empty notes,
  which the edit prompt gives when the first line typed is empty, are covered only
  structurally: NewSection and WriteReleaseNotes still say what is written.
- scripts/generate_analysis.py, scripts/formatters/json.py and the command-line entry
  points (`main`) are not part of this model.
