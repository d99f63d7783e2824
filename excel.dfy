/** The cell values the spreadsheet report computes: the reliability colour bands, the
    fallacy cell, the rows of the main and Toulmin sheets and the CRAAP rows of the sources
    sheet.  Fonts, borders, widths and the workbook itself are not modelled. */
module Excel {
  import opened Wrappers
  import opened Text
  import opened Analysis

  // ---------------------------------------------------------------- reliability bands

  /** The three fills `get_reliability_fill` chooses from: green, yellow and red. */
  datatype Band = High | Medium | Low

  /** A score of 4 or more is high, exactly 3 is medium, anything else is low.  This is the
      reference definition; BandMonotone states that a higher score never gets a less
      trusted band. */
  function ReliabilityFill(score: int): (b: Band)
    ensures b == High <==> score >= 4
    ensures b == Medium <==> score == 3
    ensures b == Low <==> score <= 2
  {
    if score >= 4 then High
    else if score == 3 then Medium
    else Low
  }

  /** The bands in order of trust. */
  function Rank(b: Band): nat {
    match b
    case Low => 0
    case Medium => 1
    case High => 2
  }

  /** A higher score never gets a less trusted band. */
  lemma BandMonotone(a: int, b: int)
    requires a <= b
    ensures Rank(ReliabilityFill(a)) <= Rank(ReliabilityFill(b))
  {
  }

  // ---------------------------------------------------------------- the fallacy cell

  /** `format_fallacies`: the items one per line.  When no rendered item holds a line
      break, splitting the cell at line breaks gives the rendered items back. */
  method FormatFallacies(fallacies: Option<seq<Fallacy>>) returns (r: string)
    ensures r == FallaciesText(fallacies, "\n")
    ensures var rendered := Rendered(fallacies.GetOr([]));
            rendered != [] && (forall k :: 0 <= k < |rendered| ==> '\n' !in rendered[k])
            ==> Split(r, '\n') == rendered
  {
    r := Analysis.FormatFallacies(fallacies, "\n");
    var rendered := Rendered(fallacies.GetOr([]));
    if rendered != [] && (forall k :: 0 <= k < |rendered| ==> '\n' !in rendered[k]) {
      SplitJoin(rendered, '\n');
    }
  }

  // ---------------------------------------------------------------- the main sheet

  const ExcerptLength := 500
  const Ellipsis := "..."

  /** The original-text cell: the first 500 characters, with `...` after them when the
      text was longer. */
  function Excerpt(text: string): string {
    if |text| > ExcerptLength then text[..ExcerptLength] + Ellipsis else text
  }

  /** The excerpt starts with the text's first 500 characters, and it is longer than that
      exactly when the text was cut, by the three dots. */
  lemma ExcerptSpec(text: string)
    ensures |text| <= ExcerptLength ==> Excerpt(text) == text
    ensures |text| > ExcerptLength <==> |Excerpt(text)| == ExcerptLength + |Ellipsis|
    ensures |Excerpt(text)| <= ExcerptLength + |Ellipsis|
    ensures var n := if |text| < ExcerptLength then |text| else ExcerptLength;
            StartsWith(Excerpt(text), text[..n])
    ensures EndsWith(Excerpt(text), Ellipsis) || Excerpt(text) == text
  {
  }

  /** The nine values of a row of the main sheet, and the fill of its reliability cell. */
  datatype MainRow = MainRow(id: int, labelText: string, excerpt: string, claim: string,
                             reasoningType: string, fallacies: string, reliability: int,
                             rationale: string, comment: string, fill: Band)

  /** The row `create_main_analysis_sheet` writes at `rowIdx` for `arg`. */
  function MainRowOf(arg: Argument, rowIdx: int): MainRow {
    var reliability := ReliabilityOf(arg);
    MainRow(arg.id.GetOr(rowIdx - 1), arg.labelText.GetOr(""),
            Excerpt(arg.originalText.GetOr("")), arg.claim.GetOr(""),
            arg.reasoningType.GetOr(""), FallaciesText(arg.fallacies, "\n"), reliability,
            arg.reliabilityRationale.GetOr(""), arg.comment.GetOr(""),
            ReliabilityFill(reliability))
  }

  /** The rows below the header, one per argument; the first sits on sheet row 2. */
  function MainRows(data: Record): (rows: seq<MainRow>)
    ensures |rows| == |ArgumentsOf(data)|
  {
    var args := ArgumentsOf(data);
    seq(|args|, i requires 0 <= i < |args| => MainRowOf(args[i], i + 2))
  }

  /** Row `i` shows argument `i`: a missing id becomes its position counting from 1, a
      missing reliability becomes 3, the reliability cell is coloured by its band, and a
      missing label, claim, reasoning type, rationale or comment is an empty cell. */
  lemma MainRowsSpec(data: Record, i: int)
    requires 0 <= i < |ArgumentsOf(data)|
    ensures var arg := ArgumentsOf(data)[i]; var row := MainRows(data)[i];
            && (arg.id.None? ==> row.id == i + 1)
            && (arg.id.Some? ==> row.id == arg.id.value)
            && (arg.reliability.None? ==> row.reliability == 3 && row.fill == Medium)
            && (arg.reliability.Some? ==> row.reliability == arg.reliability.value)
            && (row.fill == High <==> row.reliability >= 4)
            && (row.fill == Low <==> row.reliability <= 2)
            && row.fallacies == FallaciesText(arg.fallacies, "\n")
            && row.excerpt == Excerpt(arg.originalText.GetOr(""))
            && (arg.labelText.None? ==> row.labelText == "")
            && (arg.labelText.Some? ==> row.labelText == arg.labelText.value)
            && (arg.claim.None? ==> row.claim == "")
            && (arg.claim.Some? ==> row.claim == arg.claim.value)
            && (arg.reasoningType.None? ==> row.reasoningType == "")
            && (arg.reasoningType.Some? ==> row.reasoningType == arg.reasoningType.value)
            && (arg.reliabilityRationale.None? ==> row.rationale == "")
            && (arg.reliabilityRationale.Some? ==> row.rationale == arg.reliabilityRationale.value)
            && (arg.comment.None? ==> row.comment == "")
            && (arg.comment.Some? ==> row.comment == arg.comment.value)
  {
  }

  // ---------------------------------------------------------------- the Toulmin sheet

  datatype ToulminRow = ToulminRow(id: int, claim: string, grounds: string, warrant: string,
                                   backing: string, qualifier: string, rebuttal: string)

  function ToulminRowOf(arg: Argument, rowIdx: int): ToulminRow {
    ToulminRow(arg.id.GetOr(rowIdx - 1), arg.claim.GetOr(""), arg.grounds.GetOr(""),
               arg.warrant.GetOr(""), arg.backing.GetOr(NotExplicit),
               arg.qualifier.GetOr(NotExplicit), arg.rebuttal.GetOr(NotAcknowledged))
  }

  /** The rows of `create_toulmin_sheet`, one per argument from sheet row 2. */
  function ToulminRows(data: Record): (rows: seq<ToulminRow>)
    ensures |rows| == |ArgumentsOf(data)|
  {
    var args := ArgumentsOf(data);
    seq(|args|, i requires 0 <= i < |args| => ToulminRowOf(args[i], i + 2))
  }

  /** A missing backing or qualifier reads `Non explicité`, a missing rebuttal
      `Non reconnu`, and the id defaults as on the main sheet. */
  lemma ToulminRowsSpec(data: Record, i: int)
    requires 0 <= i < |ArgumentsOf(data)|
    ensures var arg := ArgumentsOf(data)[i]; var row := ToulminRows(data)[i];
            && row.id == MainRows(data)[i].id
            && (arg.backing.None? ==> row.backing == "Non explicité")
            && (arg.qualifier.None? ==> row.qualifier == "Non explicité")
            && (arg.rebuttal.None? ==> row.rebuttal == "Non reconnu")
            && (arg.backing.Some? ==> row.backing == arg.backing.value)
            && (arg.qualifier.Some? ==> row.qualifier == arg.qualifier.value)
            && (arg.rebuttal.Some? ==> row.rebuttal == arg.rebuttal.value)
  {
  }

  // ---------------------------------------------------------------- the sources sheet

  /** Python's `int()` of a fifth of `a`: the division by 5 truncated toward zero. */
  function TruncFifth(a: int): (q: int)
    ensures a >= 0 ==> 0 <= 5 * q <= a < 5 * q + 5
    ensures a < 0 ==> 5 * q - 5 < a <= 5 * q <= 0
  {
    if a >= 0 then a / 5 else -((-a) / 5)
  }

  /** A row of the sources sheet: the source's name, its argument's id (`None` shows as an
      empty cell), the five scores, their average, and the fill of each score cell and of
      the average cell. */
  datatype SourceRow = SourceRow(name: string, argId: Option<int>, scores: seq<int>,
                                 average: real, scoreFills: seq<Band>, averageFill: Band)

  function SourceRowOf(arg: Argument, source: Source): SourceRow {
    var scores := Scores(source);
    SourceRow(source.name.GetOr(""), arg.id, scores, Average(scores),
              seq(5, j requires 0 <= j < 5 => ReliabilityFill(scores[j])),
              ReliabilityFill(TruncFifth(SumOf(scores))))
  }

  function RowsOfArgument(arg: Argument): (rows: seq<SourceRow>)
    ensures |rows| == |SourcesOf(arg)|
  {
    var sources := SourcesOf(arg);
    seq(|sources|, j requires 0 <= j < |sources| => SourceRowOf(arg, sources[j]))
  }

  /** The rows `create_sources_sheet` writes, argument after argument and, within one,
      source after source. */
  function SourceRows(args: seq<Argument>): seq<SourceRow>
    decreases |args|
  {
    if args == [] then [] else SourceRows(args[..|args| - 1]) + RowsOfArgument(args[|args| - 1])
  }

  /** The number of sources cited over a list of arguments. */
  function SourceCount(args: seq<Argument>): nat
    decreases |args|
  {
    if args == [] then 0 else SourceCount(args[..|args| - 1]) + |SourcesOf(args[|args| - 1])|
  }

  /** The sheet has one row per cited source. */
  lemma {:induction false} SourceRowsCount(args: seq<Argument>)
    ensures |SourceRows(args)| == SourceCount(args)
    decreases |args|
  {
    if args != [] {
      SourceRowsCount(args[..|args| - 1]);
    }
  }

  /** The row of a source: missing scores count as 0, the average is their sum over 5,
      each score cell is coloured by its band and the average cell by the band of the
      average rounded toward zero. */
  lemma SourceRowSpec(arg: Argument, source: Source)
    ensures var row := SourceRowOf(arg, source);
            && |row.scores| == 5 && |row.scoreFills| == 5
            && (source.craap.None? ==> row.scores == [0, 0, 0, 0, 0] && row.average == 0.0)
            && row.average * 5.0 == (row.scores[0] + row.scores[1] + row.scores[2]
                                     + row.scores[3] + row.scores[4]) as real
            && (forall j :: 0 <= j < 5 ==> row.scoreFills[j] == ReliabilityFill(row.scores[j]))
            && (row.averageFill == High <==> row.average >= 4.0)
            && (row.averageFill == Medium <==> 3.0 <= row.average < 4.0)
  {
    var scores := Scores(source);
    SumOfFive(scores);
  }

  /** A source whose criteria all lie between two scores gets an average between them. */
  lemma SourceAverageBetween(arg: Argument, source: Source, lo: int, hi: int)
    requires forall j :: 0 <= j < 5 ==> lo <= Scores(source)[j] <= hi
    ensures lo as real <= SourceRowOf(arg, source).average <= hi as real
  {
    AverageBetween(Scores(source), lo, hi);
  }
}
