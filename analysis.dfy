/** The analysis record both report formatters read, and what they share: how a list of
    fallacies is rendered and how a source's CRAAP scores are averaged.  A field is `None`
    when its key is absent from the JSON object. */
module Analysis {
  import opened Wrappers
  import opened Text

  // ---------------------------------------------------------------- the record

  /** An entry of an argument's `fallacies` list: a plain label, an object with optional
      `name` and `severity`, or any other JSON value. */
  datatype Fallacy =
    | Label(text: string)
    | Detail(name: Option<string>, severity: Option<string>)
    | OtherItem

  /** A source's `craap_score` object. */
  datatype Craap = Craap(currency: Option<int>, relevance: Option<int>, authority: Option<int>,
                         accuracy: Option<int>, purpose: Option<int>)

  /** An entry of an argument's `sources_cited` list. */
  datatype Source = Source(name: Option<string>, craap: Option<Craap>)

  /** An entry of the record's `arguments` list. */
  datatype Argument = Argument(
    id: Option<int>,
    labelText: Option<string>,
    originalText: Option<string>,
    claim: Option<string>,
    reasoningType: Option<string>,
    fallacies: Option<seq<Fallacy>>,
    reliability: Option<int>,
    reliabilityRationale: Option<string>,
    comment: Option<string>,
    grounds: Option<string>,
    warrant: Option<string>,
    backing: Option<string>,
    qualifier: Option<string>,
    rebuttal: Option<string>,
    sourcesCited: Option<seq<Source>>)

  datatype Metadata = Metadata(title: Option<string>, source: Option<string>,
                               dateAnalysis: Option<string>, analyst: Option<string>)

  datatype Synthesis = Synthesis(strengths: Option<seq<string>>, weaknesses: Option<seq<string>>,
                                 recurringPatterns: Option<seq<string>>,
                                 methodologicalNote: Option<string>)

  datatype Record = Record(metadata: Option<Metadata>, synthesis: Option<Synthesis>,
                           arguments: Option<seq<Argument>>)

  const DefaultReliability := 3
  const NotExplicit := "Non explicité"
  const NotAcknowledged := "Non reconnu"

  /** `data.get("arguments", [])`. */
  function ArgumentsOf(data: Record): seq<Argument> {
    data.arguments.GetOr([])
  }

  /** `arg.get("reliability", 3)`. */
  function ReliabilityOf(arg: Argument): int {
    arg.reliability.GetOr(DefaultReliability)
  }

  /** `arg.get("sources_cited", [])`. */
  function SourcesOf(arg: Argument): seq<Source> {
    arg.sourcesCited.GetOr([])
  }

  // ---------------------------------------------------------------- fallacies

  const NoneDetected := "Aucun détecté"
  const UnknownName := "Inconnu"

  /** How `format_fallacies` renders one item: a label as it is, an object as its name
      (`Inconnu` when absent) followed by ` (severity)` when the severity is nonempty, and
      nothing for any other value.  This is the reference definition; RenderedAppend,
      RenderedCount and FallaciesTextCases state what the formatters build from it. */
  function ItemText(f: Fallacy): (r: Option<string>)
    ensures r.None? <==> f.OtherItem?
    ensures f.Label? ==> r == Some(f.text)
    ensures f.Detail? && f.severity.GetOr("") == [] ==> r == Some(f.name.GetOr(UnknownName))
    ensures f.Detail? && f.severity.GetOr("") != []
            ==> r == Some(f.name.GetOr(UnknownName) + " (" + f.severity.value + ")")
  {
    match f
    case Label(text) => Some(text)
    case Detail(name, severity) =>
      var n := name.GetOr(UnknownName);
      var s := severity.GetOr("");
      if s != [] then Some(n + " (" + s + ")") else Some(n)
    case OtherItem => None
  }

  /** The texts the loop of `format_fallacies` appends, in order. */
  function Rendered(items: seq<Fallacy>): seq<string>
    decreases |items|
  {
    if items == [] then []
    else
      var last := ItemText(items[|items| - 1]);
      Rendered(items[..|items| - 1]) + (if last.Some? then [last.value] else [])
  }

  /** What `format_fallacies` returns, the items joined with `sep`. */
  function FallaciesText(fallacies: Option<seq<Fallacy>>, sep: string): string {
    var items := fallacies.GetOr([]);
    if items == [] then NoneDetected
    else
      var rendered := Rendered(items);
      if rendered == [] then NoneDetected else Join(rendered, sep)
  }

  /** The loop both formatters run: each item is rendered and appended in turn, and the
      collected texts are joined with `sep`. */
  method FormatFallacies(fallacies: Option<seq<Fallacy>>, sep: string) returns (r: string)
    ensures r == FallaciesText(fallacies, sep)
  {
    var items := fallacies.GetOr([]);
    if items == [] {
      return NoneDetected;
    }
    var result: seq<string> := [];
    for i := 0 to |items|
      invariant result == Rendered(items[..i])
    {
      assert items[..i + 1][..i] == items[..i];
      var f := items[i];
      if f.Label? {
        result := result + [f.text];
      } else if f.Detail? {
        var name := f.name.GetOr(UnknownName);
        var severity := f.severity.GetOr("");
        if severity != [] {
          result := result + [name + " (" + severity + ")"];
        } else {
          result := result + [name];
        }
      }
    }
    assert items[..|items|] == items;
    if result == [] {
      r := NoneDetected;
    } else {
      r := Join(result, sep);
    }
  }

  /** Rendering a list renders its two halves one after the other: the order of the items
      is kept and each renders on its own. */
  lemma {:induction false} RenderedAppend(a: seq<Fallacy>, b: seq<Fallacy>)
    ensures Rendered(a + b) == Rendered(a) + Rendered(b)
    decreases |b|
  {
    if b == [] {
      assert a + b == a;
    } else {
      var b' := b[..|b| - 1];
      assert (a + b)[..|a + b| - 1] == a + b';
      assert (a + b)[|a + b| - 1] == b[|b| - 1];
      RenderedAppend(a, b');
    }
  }

  /** The number of items that are neither labels nor objects. */
  function Others(items: seq<Fallacy>): nat
    decreases |items|
  {
    if items == [] then 0
    else Others(items[..|items| - 1]) + (if items[|items| - 1].OtherItem? then 1 else 0)
  }

  /** Exactly the items that are neither labels nor objects are skipped. */
  lemma {:induction false} RenderedCount(items: seq<Fallacy>)
    ensures |Rendered(items)| + Others(items) == |items|
    decreases |items|
  {
    if items != [] {
      RenderedCount(items[..|items| - 1]);
    }
  }

  /** With no list, an empty list or nothing to render, the text is `Aucun détecté`;
      otherwise it is the rendered items joined. */
  lemma FallaciesTextCases(fallacies: Option<seq<Fallacy>>, sep: string)
    ensures Others(fallacies.GetOr([])) == |fallacies.GetOr([])| ==> FallaciesText(fallacies, sep) == NoneDetected
    ensures Others(fallacies.GetOr([])) < |fallacies.GetOr([])|
            ==> FallaciesText(fallacies, sep) == Join(Rendered(fallacies.GetOr([])), sep)
  {
    RenderedCount(fallacies.GetOr([]));
  }

  // ---------------------------------------------------------------- CRAAP scores

  /** The five criterion scores of a source, in column order; a missing object or score
      counts as 0. */
  function Scores(source: Source): (r: seq<int>)
    ensures |r| == 5
  {
    var c := source.craap.GetOr(Craap(None, None, None, None, None));
    [c.currency.GetOr(0), c.relevance.GetOr(0), c.authority.GetOr(0), c.accuracy.GetOr(0),
     c.purpose.GetOr(0)]
  }

  function SumOf(s: seq<int>): int
    decreases |s|
  {
    if s == [] then 0 else SumOf(s[..|s| - 1]) + s[|s| - 1]
  }

  lemma SumOfFive(s: seq<int>)
    requires |s| == 5
    ensures SumOf(s) == s[0] + s[1] + s[2] + s[3] + s[4]
  {
    assert s[..1][..0] == [];
    assert SumOf(s[..1]) == s[0];
    assert s[..2][..1] == s[..1];
    assert SumOf(s[..2]) == s[0] + s[1];
    assert s[..3][..2] == s[..2];
    assert SumOf(s[..3]) == s[0] + s[1] + s[2];
    assert s[..4][..3] == s[..3];
    assert SumOf(s[..4]) == s[0] + s[1] + s[2] + s[3];
    assert s[..4] == s[..|s| - 1];
  }

  /** `sum(scores) / len(scores)`, exactly. */
  function Average(scores: seq<int>): (avg: real)
    requires |scores| == 5
  {
    SumOf(scores) as real / 5.0
  }

  /** The average lies between the least and the greatest score. */
  lemma AverageBetween(scores: seq<int>, lo: int, hi: int)
    requires |scores| == 5
    requires forall i :: 0 <= i < 5 ==> lo <= scores[i] <= hi
    ensures lo as real <= Average(scores) <= hi as real
  {
    SumBounds(scores, lo, hi);
  }

  lemma {:induction false} SumBounds(s: seq<int>, lo: int, hi: int)
    requires forall i :: 0 <= i < |s| ==> lo <= s[i] <= hi
    ensures |s| * lo <= SumOf(s) <= |s| * hi
    decreases |s|
  {
    if s != [] {
      SumBounds(s[..|s| - 1], lo, hi);
      assert |s| * lo == (|s| - 1) * lo + lo;
      assert |s| * hi == (|s| - 1) * hi + hi;
    }
  }
}
