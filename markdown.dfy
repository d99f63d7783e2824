/** The Markdown report.  `save_report` appends one formatted line after another to a list
    and writes the list joined with line breaks.  Here each appended line is a `Line`: the
    template of its f-string together with the values it interpolates, and `Format` gives
    its text.  The list is built in the order of the source (metadata, the critical
    synthesis, one block per argument, then the legend); writing the file is not
    modelled. */
module Markdown {
  import opened Wrappers
  import opened Text
  import opened Analysis

  // ---------------------------------------------------------------- the lines

  /** The lines appended verbatim. */
  datatype Fixed =
    | SynthesisTitle | StrengthsTitle | WeaknessesTitle | PatternsTitle
    | ArgumentsTitle | ToulminTitle
    | CraapTitle | CraapHeader | CraapRule | Blank
    | LegendTitle | ScaleTitle | ScaleHeader | ScaleRule
    | CriteriaTitle | CriteriaHeader | CriteriaRule

  /** The `**Name:** value` lines and the Toulmin items. */
  datatype FieldName =
    | SourceField | DateField | AnalystField
    | OriginalTextField | ClaimField | ReasoningField | RationaleField | CommentField
    | GroundsField | WarrantField | BackingField | QualifierField | RebuttalField

  /** A position in the five-row tables of the legend. */
  type Row5 = k: nat | k < 5

  datatype Line =
    | Title(title: string)
    | Text(fixed: Fixed)
    | Field(name: FieldName, value: string)
    | Bullet(item: string)
    | Note(note: string)
    | Heading(id: Option<int>, labelText: string)
    | Fallacies(fallacies: Option<seq<Fallacy>>)
    | Reliability(score: int)
    | SourceRow(source: Source)
    | ScaleRow(k: Row5)
    | CriteriaRow(k: Row5)

  const NotSpecified := "Non spécifié"
  const TitlePrefix := "# Analyse Rhétorique: "
  const HeadingPrefix := "### Argument N°"

  /** The reliability scale, from note 5 down to note 1. */
  const Levels: seq<string> := ["Très haute", "Bonne", "Moyenne", "Faible", "Très faible"]
  const LevelTexts: seq<string> := [
    "Fait établi, consensus scientifique, sources multiples vérifiables",
    "Sources sérieuses, raisonnement logique valide, nuances possibles",
    "Mélange faits/interprétations, sources partielles",
    "Raisonnement contestable, sophismes identifiés",
    "Affirmations non sourcées, erreurs logiques majeures"]

  /** The five CRAAP criteria and the question each asks. */
  const Criteria: seq<string> := ["Currency", "Relevance", "Authority", "Accuracy", "Purpose"]
  const CriteriaTexts: seq<string> := [
    "L'information est-elle à jour ?",
    "L'information est-elle pertinente pour le propos ?",
    "L'auteur/source est-il crédible dans ce domaine ?",
    "Les faits sont-ils vérifiables et exacts ?",
    "Quelle est l'intention ? (informer, persuader, vendre...)"]

  function FixedText(f: Fixed): string {
    match f
    case SynthesisTitle => "## Synthèse Critique"
    case StrengthsTitle => "### Points forts:"
    case WeaknessesTitle => "\n### Points faibles:"
    case PatternsTitle => "\n### Figures rhétoriques récurrentes:"
    case ArgumentsTitle => "## Analyse Détaillée des Arguments"
    case ToulminTitle => "#### Détail Toulmin"
    case CraapTitle => "#### Sources Citées (CRAAP)"
    case CraapHeader => "| Source | Currency | Relevance | Authority | Accuracy | Purpose | Score moyen |"
    case CraapRule => "|---|---|---|---|---|---|---|"
    case Blank => "\n"
    case LegendTitle => "## Légende"
    case ScaleTitle => "### Échelle de Fiabilité"
    case ScaleHeader => "| Note | Niveau | Description |"
    case ScaleRule => "|---|---|---|"
    case CriteriaTitle => "\n### Critères CRAAP"
    case CriteriaHeader => "| Critère | Description |"
    case CriteriaRule => "|---|---|"
  }

  /** The text before a field's value. */
  function FieldPrefix(name: FieldName): string {
    match name
    case SourceField => "**Source:** "
    case DateField => "**Date d'analyse:** "
    case AnalystField => "**Analyste:** "
    case OriginalTextField => "**Texte original (extrait):**\n> "
    case ClaimField => "**Thèse (Claim):** "
    case ReasoningField => "**Type de raisonnement:** "
    case RationaleField => "**Évaluation de la fiabilité:** "
    case CommentField => "**Commentaire:** "
    case GroundsField => "- **Grounds:** "
    case WarrantField => "- **Warrant:** "
    case BackingField => "- **Backing:** "
    case QualifierField => "- **Qualifier:** "
    case RebuttalField => "- **Rebuttal:** "
  }

  /** The fields whose line ends with a blank line after the value. */
  predicate EndsParagraph(name: FieldName) {
    name == AnalystField || name == OriginalTextField || name == CommentField
    || name == RebuttalField
  }

  /** A table row: the cells between bars. */
  function TableRow(cells: seq<string>): string {
    "| " + Join(cells, " | ") + " |"
  }

  /** The text of a line, as the f-string of `save_report` renders it. */
  function Format(line: Line): string {
    match line
    case Title(title) => TitlePrefix + title
    case Text(f) => FixedText(f)
    case Field(name, value) => FieldPrefix(name) + value + (if EndsParagraph(name) then "\n" else "")
    case Bullet(item) => "- " + item
    case Note(note) => "\n### Note méthodologique:\n" + note + "\n"
    case Heading(id, labelText) => HeadingPrefix + IdText(id) + ": " + labelText
    case Fallacies(fallacies) => "**Sophismes détectés:** " + FallaciesText(fallacies, ", ")
    case Reliability(score) => "**Fiabilité (1-5):** " + IntToString(score)
    case SourceRow(source) =>
      var scores := Scores(source);
      TableRow([source.name.GetOr(""), IntToString(scores[0]), IntToString(scores[1]),
                IntToString(scores[2]), IntToString(scores[3]), IntToString(scores[4]),
                FifthsText(SumOf(scores))])
    case ScaleRow(k) => TableRow([IntToString(5 - k), Levels[k], LevelTexts[k]])
    case CriteriaRow(k) => TableRow([Criteria[k], CriteriaTexts[k]])
  }

  /** The report file: the formatted lines joined with line breaks. */
  function Content(lines: seq<Line>): string {
    Join(seq(|lines|, k requires 0 <= k < |lines| => Format(lines[k])), "\n")
  }

  // ---------------------------------------------------------------- small renderings

  /** `format_fallacies` of the Markdown report: the items on one line, comma separated. */
  method FormatFallacies(fallacies: Option<seq<Fallacy>>) returns (r: string)
    ensures r == FallaciesText(fallacies, ", ")
  {
    r := Analysis.FormatFallacies(fallacies, ", ");
  }

  /** `str(round(sum / 5, 1))`.  A fifth has at most one decimal, so the rounding changes
      nothing: the text is the sign, then the whole part and the tenths digit. */
  function FifthsText(sum: int): string {
    if sum < 0 then "-" + FifthsBody(-sum) else FifthsBody(sum)
  }

  /** A fifth of `n` to one decimal: the whole part, a point and the tenths digit. */
  function FifthsBody(n: nat): string {
    NatToString(n / 5) + "." + [DigitChar((n % 5) * 2)]
  }

  /** The digits before the point and the one after it make ten times a fifth of `n`. */
  lemma FifthsBodyValue(n: nat)
    ensures var body := FifthsBody(n);
            && |body| >= 3 && body[|body| - 2] == '.' && IsDigit(body[0])
            && AllDigits(body[..|body| - 2]) && IsDigit(body[|body| - 1])
            && 10 * DigitsToNat(body[..|body| - 2]) + DigitValue(body[|body| - 1]) == 2 * n
  {
    var whole := NatToString(n / 5);
    var d := DigitChar((n % 5) * 2);
    var body := FifthsBody(n);
    assert |body| == |whole| + 2 && body[|body| - 2] == '.' && body[|body| - 1] == d;
    assert body[..|body| - 2] == whole;
    assert body[0] == whole[0];
    DigitsToNatOfNatToString(n / 5);
    assert DigitValue(d) == (n % 5) * 2;
  }

  /** Reading the text back as a signed decimal gives exactly a fifth of `sum`. */
  lemma FifthsTextValue(sum: int)
    ensures var t := FifthsText(sum);
            var body := if sum < 0 then t[1..] else t;
            && (t[0] == '-' <==> sum < 0)
            && |body| >= 3 && body[|body| - 2] == '.'
            && AllDigits(body[..|body| - 2]) && IsDigit(body[|body| - 1])
            && (10 * DigitsToNat(body[..|body| - 2]) + DigitValue(body[|body| - 1]))
               * (if sum < 0 then -1 else 1) == 2 * sum
  {
    var t := FifthsText(sum);
    var n: nat := if sum < 0 then -sum else sum;
    FifthsBodyValue(n);
    var body := FifthsBody(n);
    assert (if sum < 0 then t[1..] else t) == body;
    assert t[0] == '-' <==> sum < 0;
  }

  // ---------------------------------------------------------------- the sections

  function MetadataLines(data: Record): (lines: seq<Line>)
    ensures |lines| == 4
  {
    var m := data.metadata.GetOr(Metadata(None, None, None, None));
    [Title(m.title.GetOr(NotSpecified)), Field(SourceField, m.source.GetOr(NotSpecified)),
     Field(DateField, m.dateAnalysis.GetOr(NotSpecified)),
     Field(AnalystField, m.analyst.GetOr(NotSpecified))]
  }

  /** One `- item` line per entry. */
  function Bullets(items: seq<string>): (lines: seq<Line>)
    ensures |lines| == |items|
  {
    seq(|items|, k requires 0 <= k < |items| => Bullet(items[k]))
  }

  function SynthesisOf(data: Record): Synthesis {
    data.synthesis.GetOr(Synthesis(None, None, None, None))
  }

  function SynthesisLines(data: Record): (lines: seq<Line>)
    ensures var s := SynthesisOf(data);
            |lines| == 5 + |s.strengths.GetOr([])| + |s.weaknesses.GetOr([])|
                       + |s.recurringPatterns.GetOr([])|
  {
    var s := SynthesisOf(data);
    [Text(SynthesisTitle), Text(StrengthsTitle)] + Bullets(s.strengths.GetOr([]))
    + [Text(WeaknessesTitle)] + Bullets(s.weaknesses.GetOr([]))
    + [Text(PatternsTitle)] + Bullets(s.recurringPatterns.GetOr([]))
    + [Note(s.methodologicalNote.GetOr(""))]
  }

  /** `arg.get('id', '')` as a heading shows it. */
  function IdText(id: Option<int>): string {
    if id.Some? then IntToString(id.value) else ""
  }

  /** The fourteen lines every argument gets: its heading, its fields and its Toulmin
      detail. */
  function ArgumentHead(arg: Argument): (lines: seq<Line>)
    ensures |lines| == 14
  {
    [Heading(arg.id, arg.labelText.GetOr("")),
     Field(OriginalTextField, arg.originalText.GetOr("")),
     Field(ClaimField, arg.claim.GetOr("")),
     Field(ReasoningField, arg.reasoningType.GetOr("")),
     Fallacies(arg.fallacies),
     Reliability(ReliabilityOf(arg)),
     Field(RationaleField, arg.reliabilityRationale.GetOr("")),
     Field(CommentField, arg.comment.GetOr("")),
     Text(ToulminTitle),
     Field(GroundsField, arg.grounds.GetOr("")),
     Field(WarrantField, arg.warrant.GetOr("")),
     Field(BackingField, arg.backing.GetOr(NotExplicit)),
     Field(QualifierField, arg.qualifier.GetOr(NotExplicit)),
     Field(RebuttalField, arg.rebuttal.GetOr(NotAcknowledged))]
  }

  function SourceRows(sources: seq<Source>): (lines: seq<Line>)
    ensures |lines| == |sources|
  {
    seq(|sources|, k requires 0 <= k < |sources| => SourceRow(sources[k]))
  }

  /** The CRAAP table of an argument, empty when it cites no sources. */
  function CraapLines(sources: seq<Source>): (lines: seq<Line>)
    ensures sources == [] ==> lines == []
    ensures sources != [] ==> |lines| == |sources| + 4
  {
    if sources == [] then []
    else [Text(CraapTitle), Text(CraapHeader), Text(CraapRule)] + SourceRows(sources) + [Text(Blank)]
  }

  /** The lines of one argument: the CRAAP table follows only when it cites sources. */
  function ArgumentBlock(arg: Argument): (lines: seq<Line>)
    ensures |lines| >= 14 && lines[0] == Heading(arg.id, arg.labelText.GetOr(""))
  {
    ArgumentHead(arg) + CraapLines(SourcesOf(arg))
  }

  /** The blocks `f` gives the elements of `s`, one after the other. */
  function FlatMap<A, B>(f: A -> seq<B>, s: seq<A>): seq<B>
    decreases |s|
  {
    if s == [] then [] else FlatMap(f, s[..|s| - 1]) + f(s[|s| - 1])
  }

  /** The argument blocks, one after the other in list order. */
  function ArgumentBlocks(args: seq<Argument>): seq<Line> {
    FlatMap(ArgumentBlock, args)
  }

  function ScaleRows(): (rows: seq<Line>)
    ensures |rows| == 5
  {
    seq(5, k requires 0 <= k < 5 => ScaleRow(k))
  }

  function CriteriaRows(): (rows: seq<Line>)
    ensures |rows| == 5
  {
    seq(5, k requires 0 <= k < 5 => CriteriaRow(k))
  }

  function LegendLines(): (lines: seq<Line>)
    ensures |lines| == 17
  {
    [Text(LegendTitle), Text(ScaleTitle), Text(ScaleHeader), Text(ScaleRule)] + ScaleRows()
    + [Text(CriteriaTitle), Text(CriteriaHeader), Text(CriteriaRule)] + CriteriaRows()
  }

  /** Everything `save_report` appends to `markdown_content`, in order. */
  function ReportLines(data: Record): seq<Line> {
    MetadataLines(data) + SynthesisLines(data) + [Text(ArgumentsTitle)]
    + ArgumentBlocks(ArgumentsOf(data)) + LegendLines()
  }

  // ---------------------------------------------------------------- building the lines

  /** The loops of `save_report`, up to the file write. */
  method SaveReportLines(data: Record) returns (lines: seq<Line>)
    ensures lines == ReportLines(data)
  {
    lines := MetadataLines(data);
    var synthesis := BuildSynthesis(data);
    lines := lines + synthesis + [Text(ArgumentsTitle)];
    var arguments := BuildArguments(ArgumentsOf(data));
    lines := lines + arguments;
    var legend := BuildLegend();
    lines := lines + legend;
  }

  /** The loop over the arguments: their blocks in list order. */
  method BuildArguments(args: seq<Argument>) returns (blocks: seq<Line>)
    ensures blocks == ArgumentBlocks(args)
  {
    blocks := [];
    for i := 0 to |args|
      invariant blocks == ArgumentBlocks(args[..i])
    {
      var block := BuildArgument(args[i]);
      FlatMapSnoc(ArgumentBlock, args, i);
      blocks := blocks + block;
    }
    assert args[..|args|] == args;
  }

  /** `for item in items: markdown_content.append(f"- {item}")`. */
  method AppendBullets(lines: seq<Line>, items: seq<string>) returns (r: seq<Line>)
    ensures r == lines + Bullets(items)
  {
    r := lines;
    for k := 0 to |items|
      invariant r == lines + Bullets(items[..k])
    {
      assert Bullets(items[..k + 1]) == Bullets(items[..k]) + [Bullet(items[k])];
      r := r + [Bullet(items[k])];
    }
    assert items[..|items|] == items;
  }

  /** The synthesis section: three titled lists and the methodological note. */
  method BuildSynthesis(data: Record) returns (lines: seq<Line>)
    ensures lines == SynthesisLines(data)
  {
    var s := SynthesisOf(data);
    lines := [Text(SynthesisTitle), Text(StrengthsTitle)];
    lines := AppendBullets(lines, s.strengths.GetOr([]));
    lines := lines + [Text(WeaknessesTitle)];
    lines := AppendBullets(lines, s.weaknesses.GetOr([]));
    lines := lines + [Text(PatternsTitle)];
    lines := AppendBullets(lines, s.recurringPatterns.GetOr([]));
    lines := lines + [Note(s.methodologicalNote.GetOr(""))];
  }

  /** The body of the loop over arguments. */
  method BuildArgument(arg: Argument) returns (lines: seq<Line>)
    ensures lines == ArgumentBlock(arg)
  {
    lines := ArgumentHead(arg);
    var sources := SourcesOf(arg);
    if sources != [] {
      var table := [Text(CraapTitle), Text(CraapHeader), Text(CraapRule)];
      for k := 0 to |sources|
        invariant table == [Text(CraapTitle), Text(CraapHeader), Text(CraapRule)] + SourceRows(sources[..k])
      {
        assert SourceRows(sources[..k + 1]) == SourceRows(sources[..k]) + [SourceRow(sources[k])];
        table := table + [SourceRow(sources[k])];
      }
      assert sources[..|sources|] == sources;
      table := table + [Text(Blank)];
      lines := lines + table;
    }
  }

  /** The legend: the reliability scale, then the CRAAP criteria. */
  method BuildLegend() returns (lines: seq<Line>)
    ensures lines == LegendLines()
  {
    lines := [Text(LegendTitle), Text(ScaleTitle), Text(ScaleHeader), Text(ScaleRule)];
    var front := lines;
    for k := 0 to 5
      invariant lines == front + ScaleRows()[..k]
    {
      assert ScaleRows()[..k + 1] == ScaleRows()[..k] + [ScaleRow(k)];
      lines := lines + [ScaleRow(k)];
    }
    assert ScaleRows()[..5] == ScaleRows();
    lines := lines + [Text(CriteriaTitle), Text(CriteriaHeader), Text(CriteriaRule)];
    var middle := lines;
    for k := 0 to 5
      invariant lines == middle + CriteriaRows()[..k]
    {
      assert CriteriaRows()[..k + 1] == CriteriaRows()[..k] + [CriteriaRow(k)];
      lines := lines + [CriteriaRow(k)];
    }
    assert CriteriaRows()[..5] == CriteriaRows();
  }

  // ---------------------------------------------------------------- concatenated blocks

  /** The blocks of a concatenation are those of its two halves, one after the other. */
  lemma {:induction false} FlatMapAppend<A, B>(f: A -> seq<B>, a: seq<A>, b: seq<A>)
    ensures FlatMap(f, a + b) == FlatMap(f, a) + FlatMap(f, b)
    decreases |b|
  {
    if b == [] {
      assert a + b == a;
    } else {
      var b' := b[..|b| - 1];
      assert (a + b)[..|a + b| - 1] == a + b';
      assert (a + b)[|a + b| - 1] == b[|b| - 1];
      FlatMapAppend(f, a, b');
    }
  }

  /** The blocks of the first `i + 1` elements end with the block of element `i`. */
  lemma FlatMapSnoc<A, B>(f: A -> seq<B>, s: seq<A>, i: nat)
    requires i < |s|
    ensures FlatMap(f, s[..i + 1]) == FlatMap(f, s[..i]) + f(s[i])
  {
    assert s[..i + 1][..i] == s[..i];
  }

  /** The block of element `i` appears whole right after the blocks before it. */
  lemma FlatMapAt<A, B>(f: A -> seq<B>, s: seq<A>, i: nat)
    requires i < |s|
    ensures FlatMap(f, s) == FlatMap(f, s[..i]) + f(s[i]) + FlatMap(f, s[i + 1..])
  {
    var pre := s[..i + 1];
    assert pre[..i] == s[..i];
    assert FlatMap(f, pre) == FlatMap(f, s[..i]) + f(s[i]);
    assert s == pre + s[i + 1..];
    FlatMapAppend(f, pre, s[i + 1..]);
  }

  /** The blocks of a list are those before argument `i`, its own block, then the rest. */
  lemma ArgumentBlocksSplit(args: seq<Argument>, i: nat)
    requires i < |args|
    ensures ArgumentBlocks(args)
            == ArgumentBlocks(args[..i]) + ArgumentBlock(args[i]) + ArgumentBlocks(args[i + 1..])
  {
    FlatMapAt(ArgumentBlock, args, i);
  }

  // ---------------------------------------------------------------- what the report shows

  /** Where the synthesis ends and the argument details begin. */
  function ArgumentsStart(data: Record): nat {
    4 + |SynthesisLines(data)|
  }

  /** Where the legend begins. */
  function LegendStart(data: Record): nat {
    ArgumentsStart(data) + 1 + |ArgumentBlocks(ArgumentsOf(data))|
  }

  /** The report opens with the title (`Non spécifié` when there is none), and its
      sections come in a fixed order: metadata, synthesis, argument details, legend,
      the legend closing the report. */
  lemma SectionOrder(data: Record)
    ensures var lines := ReportLines(data);
            var m := data.metadata.GetOr(Metadata(None, None, None, None));
            && 4 < ArgumentsStart(data) < LegendStart(data) && |lines| == LegendStart(data) + 17
            && lines[0] == Title(m.title.GetOr(NotSpecified))
            && lines[4] == Text(SynthesisTitle)
            && lines[ArgumentsStart(data)] == Text(ArgumentsTitle)
            && lines[LegendStart(data)..] == LegendLines()
            && lines[LegendStart(data)] == Text(LegendTitle)
  {
  }

  /** Where the block of argument `i` starts among the argument blocks. */
  function BlockStart(args: seq<Argument>, i: nat): nat
    requires i <= |args|
  {
    |ArgumentBlocks(args[..i])|
  }

  /** The block of argument `i` sits at its start, led by that argument's heading. */
  lemma BlockAt(args: seq<Argument>, i: nat)
    requires i < |args|
    ensures var blocks := ArgumentBlocks(args); var start := BlockStart(args, i);
            var block := ArgumentBlock(args[i]);
            && start + |block| <= |blocks|
            && blocks[start..start + |block|] == block
            && blocks[start] == Heading(args[i].id, args[i].labelText.GetOr(""))
  {
    ArgumentBlocksSplit(args, i);
  }

  /** Blocks start in list order, each at least fourteen lines after the one before. */
  lemma BlocksInOrder(args: seq<Argument>, i: nat, j: nat)
    requires i < j <= |args|
    ensures BlockStart(args, i) + 14 <= BlockStart(args, j)
  {
    var front := args[..j];
    assert front[..i] == args[..i];
    ArgumentBlocksSplit(front, i);
  }

  /** In the whole report, argument `i`'s heading is at its block's start, and headings
      come in the order of the argument list, all between the synthesis and the legend. */
  lemma HeadingsInOrder(data: Record, i: nat, j: nat)
    requires i < j < |ArgumentsOf(data)|
    ensures var lines := ReportLines(data); var args := ArgumentsOf(data);
            var at := ArgumentsStart(data) + 1;
            && ArgumentsStart(data) < at + BlockStart(args, i)
            && at + BlockStart(args, i) < at + BlockStart(args, j) < LegendStart(data)
            && lines[at + BlockStart(args, i)] == Heading(args[i].id, args[i].labelText.GetOr(""))
            && lines[at + BlockStart(args, j)] == Heading(args[j].id, args[j].labelText.GetOr(""))
  {
    var args := ArgumentsOf(data);
    BlockAt(args, i);
    BlockAt(args, j);
    BlocksInOrder(args, i, j);
    var lines := ReportLines(data);
    assert lines[ArgumentsStart(data) + 1..LegendStart(data)] == ArgumentBlocks(args);
  }

  /** An argument's block has the CRAAP table exactly when it cites sources, and the table
      has one row per source, in order, between its header and a closing blank line. */
  lemma CraapBlock(arg: Argument)
    ensures var block := ArgumentBlock(arg); var sources := SourcesOf(arg);
            && (sources == [] <==> |block| == 14)
            && (sources != [] ==>
                  && |block| == 18 + |sources|
                  && block[14] == Text(CraapTitle) && block[15] == Text(CraapHeader)
                  && (forall k :: 0 <= k < |sources| ==> block[17 + k] == SourceRow(sources[k]))
                  && block[17 + |sources|] == Text(Blank))
  {
  }

  /** The reliability scale has its header and exactly five rows, for notes 5 down to 1;
      the criteria title follows them. */
  lemma LegendScale()
    ensures var lines := LegendLines();
            && lines[2] == Text(ScaleHeader) && lines[3] == Text(ScaleRule)
            && (forall k: Row5 :: lines[4 + k] == ScaleRow(k))
            && lines[9] == Text(CriteriaTitle) && lines[10] == Text(CriteriaHeader)
            && (forall k: Row5 :: lines[12 + k] == CriteriaRow(k))
  {
  }

  // ---------------------------------------------------------------- the texts

  /** The first line reads `# Analyse Rhétorique: ` and the title. */
  lemma TitleText(title: string)
    ensures Format(Title(title)) == "# Analyse Rhétorique: " + title
    ensures StartsWith(Format(Title(title)), TitlePrefix)
  {
  }

  /** An argument's heading reads `### Argument N°{id}: {label}`, the id shown in decimal
      and left empty when absent. */
  lemma HeadingText(arg: Argument)
    ensures var h := Format(ArgumentBlock(arg)[0]);
            && StartsWith(h, HeadingPrefix)
            && (arg.id.Some? ==> h == HeadingPrefix + IntToString(arg.id.value) + ": " + arg.labelText.GetOr(""))
            && (arg.id.None? ==> h == HeadingPrefix + ": " + arg.labelText.GetOr(""))
  {
  }

  /** Row `k` of the scale shows note `5 - k` first. */
  lemma ScaleRowText(k: Row5)
    ensures StartsWith(Format(ScaleRow(k)), "| " + IntToString(5 - k) + " | ")
  {
    var cells := [IntToString(5 - k), Levels[k], LevelTexts[k]];
    JoinCons(cells[0], cells[1..], " | ");
    assert [cells[0]] + cells[1..] == cells;
  }

  /** A source's row shows its five scores and then their average, a fifth of their sum. */
  lemma SourceRowText(source: Source)
    ensures var scores := Scores(source);
            Format(SourceRow(source))
            == TableRow([source.name.GetOr(""), IntToString(scores[0]), IntToString(scores[1]),
                         IntToString(scores[2]), IntToString(scores[3]), IntToString(scores[4]),
                         FifthsText(scores[0] + scores[1] + scores[2] + scores[3] + scores[4])])
  {
    SumOfFive(Scores(source));
  }
}
