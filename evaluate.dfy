/** The benchmark scorer: a gold annotation and a predicted one are aligned by argument
    id, and fallacy detection is scored by precision, recall and F1 over label sets,
    globally and per fallacy type; reliability scores are compared by mean absolute
    error.  Ratios are exact reals. */
module Evaluate {
  import opened Wrappers
  import opened Text
  import opened Sums

  // ---------------------------------------------------------------- annotations

  /** One entry of an annotation's `arguments` list; a field is `None` when its key is
      absent from the JSON object. */
  datatype Argument = Argument(id: Option<int>, fallacies: Option<seq<string>>, reliability: Option<int>)

  /** An annotation record; `arguments` is `None` when the key is absent. */
  datatype Annotation = Annotation(arguments: Option<seq<Argument>>)

  const DefaultId := 0
  const DefaultReliability := 3

  /** `analysis.get("arguments", [])`. */
  function ArgumentsOf(a: Annotation): seq<Argument> {
    a.arguments.GetOr([])
  }

  /** `arg.get("id", 0)`. */
  function IdOf(arg: Argument): int {
    arg.id.GetOr(DefaultId)
  }

  /** `arg.get("reliability", 3)`. */
  function ReliabilityOf(arg: Argument): int {
    arg.reliability.GetOr(DefaultReliability)
  }

  // ---------------------------------------------------------------- label normalisation

  /** `f.lower().strip().replace(" ", "_")`: no upper-case letter, no space, and no
      whitespace at either end. */
  function NormalizeLabel(f: string): (r: string)
    ensures forall i :: 0 <= i < |r| ==> !IsUpper(r[i]) && r[i] != ' '
    ensures r == [] || (!IsSpace(r[0]) && !IsSpace(r[|r| - 1]))
  {
    ReplaceChar(Strip(Lower(f)), ' ', '_')
  }

  lemma LowerNoop(s: string)
    requires forall i :: 0 <= i < |s| ==> !IsUpper(s[i])
    ensures Lower(s) == s
  {
  }

  /** Normalising a normalised label changes nothing. */
  lemma NormalizeLabelIdempotent(f: string)
    ensures NormalizeLabel(NormalizeLabel(f)) == NormalizeLabel(f)
  {
    NormalizedIsFixed(NormalizeLabel(f));
  }

  /** A label with no upper-case letter, no space and no whitespace at either end is
      its own normal form. */
  lemma NormalizedIsFixed(r: string)
    requires forall i :: 0 <= i < |r| ==> !IsUpper(r[i]) && r[i] != ' '
    requires r == [] || (!IsSpace(r[0]) && !IsSpace(r[|r| - 1]))
    ensures NormalizeLabel(r) == r
  {
    LowerNoop(r);
    StripOfNoop(r, Whitespace);
    ReplaceCharNoop(r, ' ', '_');
  }

  lemma ReplaceCharNoop(s: string, from: char, to: char)
    requires from !in s
    ensures ReplaceChar(s, from, to) == s
  {
  }

  /** Normalisation ignores letter case. */
  lemma NormalizeLabelIgnoresCase(f: string)
    ensures NormalizeLabel(Lower(f)) == NormalizeLabel(f)
  {
    LowerNoop(Lower(f));
  }

  /** `[normalize(f) for f in fallacies if f]`: empty labels are dropped, the others are
      normalised in order. */
  function NormalizeLabels(fs: seq<string>): (r: seq<string>)
    ensures |r| <= |fs|
    ensures forall x :: x in r ==> exists f :: f in fs && f != "" && x == NormalizeLabel(f)
    ensures forall f :: f in fs && f != "" ==> NormalizeLabel(f) in r
  {
    if fs == [] then []
    else
      var rest := NormalizeLabels(fs[1..]);
      assert forall f :: f in fs <==> f == fs[0] || f in fs[1..];
      if fs[0] != "" then [NormalizeLabel(fs[0])] + rest else rest
  }

  /** The normalised labels of one argument (`arg.get("fallacies", [])`). */
  function LabelsOf(arg: Argument): seq<string> {
    NormalizeLabels(arg.fallacies.GetOr([]))
  }

  // ---------------------------------------------------------------- alignment by id

  /** `result[arg_id] = value(arg)` for every argument in order: the map a loop over
      the arguments builds.  Its meaning is given by `KeyedKeys` and `KeyedLastWins`. */
  function Keyed<V>(args: seq<Argument>, value: Argument -> V): map<int, V>
    decreases |args|
  {
    if args == [] then map[]
    else
      var last := args[|args| - 1];
      Keyed(args[..|args| - 1], value)[IdOf(last) := value(last)]
  }

  /** The keys are exactly the (defaulted) ids of the arguments. */
  lemma {:induction false} KeyedKeys<V>(args: seq<Argument>, value: Argument -> V)
    ensures Keyed(args, value).Keys == set i | 0 <= i < |args| :: IdOf(args[i])
    decreases |args|
  {
    if args != [] {
      var init := args[..|args| - 1];
      KeyedKeys(init, value);
      assert forall i :: 0 <= i < |init| ==> init[i] == args[i];
    }
  }

  /** When several arguments share an id, the last of them supplies the value. */
  lemma {:induction false} KeyedLastWins<V>(args: seq<Argument>, value: Argument -> V, i: int)
    requires 0 <= i < |args|
    requires forall j :: i < j < |args| ==> IdOf(args[j]) != IdOf(args[i])
    ensures IdOf(args[i]) in Keyed(args, value)
    ensures Keyed(args, value)[IdOf(args[i])] == value(args[i])
    decreases |args|
  {
    if i < |args| - 1 {
      var init := args[..|args| - 1];
      assert init[i] == args[i];
      KeyedLastWins(init, value, i);
    }
  }

  /** `extract_fallacies`: argument id to normalised labels, later arguments winning. */
  method ExtractFallacies(analysis: Annotation) returns (result: map<int, seq<string>>)
    ensures result == Keyed(ArgumentsOf(analysis), LabelsOf)
  {
    var args := ArgumentsOf(analysis);
    result := map[];
    for i := 0 to |args|
      invariant result == Keyed(args[..i], LabelsOf)
    {
      assert args[..i + 1][..i] == args[..i];
      result := result[IdOf(args[i]) := LabelsOf(args[i])];
    }
    assert args[..|args|] == args;
  }

  /** `extract_reliability_scores`: argument id to reliability (default 3), later
      arguments winning. */
  method ExtractReliabilityScores(analysis: Annotation) returns (result: map<int, int>)
    ensures result == Keyed(ArgumentsOf(analysis), ReliabilityOf)
  {
    var args := ArgumentsOf(analysis);
    result := map[];
    for i := 0 to |args|
      invariant result == Keyed(args[..i], ReliabilityOf)
    {
      assert args[..i + 1][..i] == args[..i];
      result := result[IdOf(args[i]) := ReliabilityOf(args[i])];
    }
    assert args[..|args|] == args;
  }

  // ---------------------------------------------------------------- counting

  type Labels = map<int, seq<string>>

  /** `set(m.get(id, []))`. */
  function LabelSet(m: Labels, id: int): set<string> {
    if id in m then set f | f in m[id] else {}
  }

  datatype Kind = TP | FP | FN

  /** The labels of one id that count as true positives (in both), false positives
      (predicted only) or false negatives (gold only). */
  function Part(gold: Labels, pred: Labels, id: int, k: Kind): set<string> {
    var g := LabelSet(gold, id);
    var p := LabelSet(pred, id);
    match k
    case TP => g * p
    case FP => p - g
    case FN => g - p
  }

  /** `set(gold.keys()) | set(pred.keys())`. */
  function Ids(gold: Labels, pred: Labels): set<int> {
    gold.Keys + pred.Keys
  }

  /** A `{"tp": .., "fp": .., "fn": ..}` counter. */
  datatype Counts = Counts(tp: nat, fp: nat, fn: nat)

  const Zero := Counts(0, 0, 0)

  function Get(c: Counts, k: Kind): nat {
    match k
    case TP => c.tp
    case FP => c.fp
    case FN => c.fn
  }

  /** `counts[k] += 1`: one counter goes up by one, the others keep their values. */
  function Bump(c: Counts, k: Kind): (r: Counts)
    ensures forall j :: Get(r, j) == Get(c, j) + (if j == k then 1 else 0)
  {
    match k
    case TP => c.(tp := c.tp + 1)
    case FP => c.(fp := c.fp + 1)
    case FN => c.(fn := c.fn + 1)
  }

  /** `details_by_type[c]` of the `defaultdict`: absent categories read as zero. */
  function Lookup(byType: map<string, Counts>, c: string): Counts {
    if c in byType then byType[c] else Zero
  }

  /** The global count of kind `k` over the ids in `ids`: the sum of the part sizes. */
  ghost function TotalOver(gold: Labels, pred: Labels, ids: set<int>, k: Kind): nat {
    var m := PartSizes(gold, pred, ids, k);
    SumValuesNonNegative(m);
    SumValues(m)
  }

  ghost function PartSizes(gold: Labels, pred: Labels, ids: set<int>, k: Kind): map<int, int> {
    map id | id in ids :: PartSize(gold, pred, id, k)
  }

  function PartSize(gold: Labels, pred: Labels, id: int, k: Kind): nat {
    |Part(gold, pred, id, k)|
  }

  /** The count of kind `k` for category `c`: the number of ids whose part holds `c`. */
  ghost function CountOver(gold: Labels, pred: Labels, ids: set<int>, c: string, k: Kind): nat {
    |set id | id in ids && c in Part(gold, pred, id, k)|
  }

  /** Category `c` gets an entry: some id has it in its gold or its predicted labels. */
  ghost predicate Seen(gold: Labels, pred: Labels, ids: set<int>, c: string) {
    exists id :: id in ids && c in LabelSet(gold, id) + LabelSet(pred, id)
  }

  /** The sum over all categories of their count of kind `k`. */
  ghost function SumField(byType: map<string, Counts>, k: Kind): int {
    SumValues(map c | c in byType :: Get(byType[c], k) as int)
  }

  ghost function Totals(gold: Labels, pred: Labels): Counts {
    var ids := Ids(gold, pred);
    Counts(TotalOver(gold, pred, ids, TP), TotalOver(gold, pred, ids, FP), TotalOver(gold, pred, ids, FN))
  }

  ghost function CountsOf(gold: Labels, pred: Labels, c: string): Counts {
    var ids := Ids(gold, pred);
    Counts(CountOver(gold, pred, ids, c, TP), CountOver(gold, pred, ids, c, FP), CountOver(gold, pred, ids, c, FN))
  }

  lemma BumpSumField(byType: map<string, Counts>, f: string, k: Kind, j: Kind)
    ensures SumField(byType[f := Bump(Lookup(byType, f), k)], j) == SumField(byType, j) + (if j == k then 1 else 0)
  {
    var m := map c | c in byType :: Get(byType[c], j) as int;
    var r := byType[f := Bump(Lookup(byType, f), k)];
    var v := Get(r[f], j) as int;
    assert (map c | c in r :: Get(r[c], j) as int) == m[f := v];
    SumValuesUpdate(m, f, v);
  }

  /** One `details_by_type[f][k] += 1`: only that counter moves, and the sum over all
      categories moves with it. */
  lemma BumpEffect(byType: map<string, Counts>, f: string, k: Kind)
    ensures var r := byType[f := Bump(Lookup(byType, f), k)];
      && (forall c, j :: Get(Lookup(r, c), j) == Get(Lookup(byType, c), j) + (if j == k && c == f then 1 else 0))
      && (forall j :: SumField(r, j) == SumField(byType, j) + (if j == k then 1 else 0))
  {
    forall j | true
      ensures SumField(byType[f := Bump(Lookup(byType, f), k)], j) == SumField(byType, j) + (if j == k then 1 else 0)
    {
      BumpSumField(byType, f, k, j);
    }
  }

  /** `r` is `byType` after one increment of counter `k` for every label of `part`:
      the categories of `part` are added, exactly their counter `k` goes up by one, and
      the sum of counter `k` over all categories goes up by `|part|`. */
  ghost predicate Tallied(byType: map<string, Counts>, part: set<string>, k: Kind, r: map<string, Counts>) {
    && (forall c :: c in r <==> c in byType || c in part)
    && (forall c, j :: Get(Lookup(r, c), j) == Get(Lookup(byType, c), j) + (if j == k && c in part then 1 else 0))
    && (forall j :: SumField(r, j) == SumField(byType, j) + (if j == k then |part| else 0))
  }

  /** One `details_by_type[f][k] += 1` extends the labels handled so far by `f`. */
  lemma TallyStep(byType: map<string, Counts>, done: set<string>, k: Kind, r: map<string, Counts>, f: string)
    requires Tallied(byType, done, k, r) && f !in done
    ensures Tallied(byType, done + {f}, k, r[f := Bump(Lookup(r, f), k)])
  {
    BumpEffect(r, f, k);
    assert |done + {f}| == |done| + 1;
  }

  /** `for f in part: details_by_type[f][k] += 1`. */
  method Tally(byType: map<string, Counts>, part: set<string>, k: Kind) returns (r: map<string, Counts>)
    ensures Tallied(byType, part, k, r)
  {
    r := byType;
    var todo := part;
    ghost var done: set<string> := {};
    while todo != {}
      invariant done == part - todo && todo <= part
      invariant Tallied(byType, done, k, r)
      decreases |todo|
    {
      var f :| f in todo;
      TallyStep(byType, done, k, r, f);
      r := r[f := Bump(Lookup(r, f), k)];
      todo := todo - {f};
      done := done + {f};
    }
    assert done == part;
  }

  /** The state of `compute_fallacy_metrics` after the ids of `done`: each global counter
      is the sum of the part sizes, the categories are those seen, each per-category
      counter counts the ids whose part holds the category, and the per-category
      counters add up to the global ones. */
  ghost predicate Counted(gold: Labels, pred: Labels, done: set<int>, totals: Counts, byType: map<string, Counts>) {
    && (forall k :: Get(totals, k) == TotalOver(gold, pred, done, k))
    && (forall c :: c in byType <==> Seen(gold, pred, done, c))
    && (forall c, k :: Get(Lookup(byType, c), k) == CountOver(gold, pred, done, c, k))
    && (forall k :: SumField(byType, k) == Get(totals, k))
  }

  lemma TotalOverAdd(gold: Labels, pred: Labels, done: set<int>, id: int, k: Kind)
    requires id !in done
    ensures TotalOver(gold, pred, done + {id}, k) == TotalOver(gold, pred, done, k) + |Part(gold, pred, id, k)|
  {
    var m := PartSizes(gold, pred, done, k);
    var m' := PartSizes(gold, pred, done + {id}, k);
    SumValuesExtend(m, m', id);
  }

  lemma CountOverAdd(gold: Labels, pred: Labels, done: set<int>, id: int, c: string, k: Kind)
    requires id !in done
    ensures CountOver(gold, pred, done + {id}, c, k)
         == CountOver(gold, pred, done, c, k) + (if c in Part(gold, pred, id, k) then 1 else 0)
  {
    var before := set i | i in done && c in Part(gold, pred, i, k);
    var after := set i | i in done + {id} && c in Part(gold, pred, i, k);
    if c in Part(gold, pred, id, k) {
      assert after == before + {id};
    } else {
      assert after == before;
    }
  }

  lemma SeenAdd(gold: Labels, pred: Labels, done: set<int>, id: int, c: string)
    ensures Seen(gold, pred, done + {id}, c)
        <==> Seen(gold, pred, done, c) || c in LabelSet(gold, id) + LabelSet(pred, id)
  {
    if c in LabelSet(gold, id) + LabelSet(pred, id) {
      assert id in done + {id};
    }
  }

  /** The three parts of one id, by kind. */
  function Select(tp: set<string>, fp: set<string>, fn: set<string>, k: Kind): set<string> {
    match k
    case TP => tp
    case FP => fp
    case FN => fn
  }

  /** `b3` is `byType` after the three tallies of one id. */
  ghost predicate TalliedAll(byType: map<string, Counts>, tp: set<string>, fp: set<string>, fn: set<string>,
                             b3: map<string, Counts>) {
    && (forall c :: c in b3 <==> c in byType || c in tp || c in fp || c in fn)
    && (forall c, j :: Get(Lookup(b3, c), j) == Get(Lookup(byType, c), j) + (if c in Select(tp, fp, fn, j) then 1 else 0))
    && (forall j :: SumField(b3, j) == SumField(byType, j) + |Select(tp, fp, fn, j)|)
  }

  lemma TallyThree(byType: map<string, Counts>, tp: set<string>, fp: set<string>, fn: set<string>,
                   b1: map<string, Counts>, b2: map<string, Counts>, b3: map<string, Counts>)
    requires Tallied(byType, tp, TP, b1) && Tallied(b1, fp, FP, b2) && Tallied(b2, fn, FN, b3)
    ensures TalliedAll(byType, tp, fp, fn, b3)
  {
    forall c, j | true
      ensures Get(Lookup(b3, c), j) == Get(Lookup(byType, c), j) + (if c in Select(tp, fp, fn, j) then 1 else 0)
    {
      assert Get(Lookup(b1, c), j) == Get(Lookup(byType, c), j) + (if j == TP && c in tp then 1 else 0);
      assert Get(Lookup(b2, c), j) == Get(Lookup(b1, c), j) + (if j == FP && c in fp then 1 else 0);
      assert Get(Lookup(b3, c), j) == Get(Lookup(b2, c), j) + (if j == FN && c in fn then 1 else 0);
    }
    forall j | true
      ensures SumField(b3, j) == SumField(byType, j) + |Select(tp, fp, fn, j)|
    {
      assert SumField(b1, j) == SumField(byType, j) + (if j == TP then |tp| else 0);
      assert SumField(b2, j) == SumField(b1, j) + (if j == FP then |fp| else 0);
      assert SumField(b3, j) == SumField(b2, j) + (if j == FN then |fn| else 0);
    }
  }

  lemma StepTotals(gold: Labels, pred: Labels, done: set<int>, totals: Counts, id: int)
    requires id !in done
    requires forall k :: Get(totals, k) == TotalOver(gold, pred, done, k)
    ensures forall k :: Get(Advance(totals, gold, pred, id), k) == TotalOver(gold, pred, done + {id}, k)
  {
    forall k | true
      ensures Get(Advance(totals, gold, pred, id), k) == TotalOver(gold, pred, done + {id}, k)
    {
      TotalOverAdd(gold, pred, done, id, k);
      assert Get(Advance(totals, gold, pred, id), k) == Get(totals, k) + PartSize(gold, pred, id, k);
    }
  }

  lemma StepSeen(gold: Labels, pred: Labels, done: set<int>, byType: map<string, Counts>, id: int, b3: map<string, Counts>)
    requires forall c :: c in byType <==> Seen(gold, pred, done, c)
    requires forall c :: c in b3 <==> (c in byType || c in Part(gold, pred, id, TP) || c in Part(gold, pred, id, FP)
                                       || c in Part(gold, pred, id, FN))
    ensures forall c :: c in b3 <==> Seen(gold, pred, done + {id}, c)
  {
    forall c | true
      ensures Seen(gold, pred, done + {id}, c)
          <==> Seen(gold, pred, done, c) || c in LabelSet(gold, id) + LabelSet(pred, id)
    {
      SeenAdd(gold, pred, done, id, c);
    }
  }

  lemma StepCounts(gold: Labels, pred: Labels, done: set<int>, byType: map<string, Counts>, id: int, b3: map<string, Counts>)
    requires id !in done
    requires forall c, k :: Get(Lookup(byType, c), k) == CountOver(gold, pred, done, c, k)
    requires forall c, j :: Get(Lookup(b3, c), j) == Get(Lookup(byType, c), j)
                            + (if c in Select(Part(gold, pred, id, TP), Part(gold, pred, id, FP), Part(gold, pred, id, FN), j) then 1 else 0)
    ensures forall c, k :: Get(Lookup(b3, c), k) == CountOver(gold, pred, done + {id}, c, k)
  {
    assert forall j :: Select(Part(gold, pred, id, TP), Part(gold, pred, id, FP), Part(gold, pred, id, FN), j)
                       == Part(gold, pred, id, j);
    forall c, k | true
      ensures CountOver(gold, pred, done + {id}, c, k)
           == CountOver(gold, pred, done, c, k) + (if c in Part(gold, pred, id, k) then 1 else 0)
    {
      CountOverAdd(gold, pred, done, id, c, k);
    }
  }

  /** The global counters after one more id. */
  function Advance(totals: Counts, gold: Labels, pred: Labels, id: int): Counts {
    Counts(totals.tp + PartSize(gold, pred, id, TP), totals.fp + PartSize(gold, pred, id, FP),
           totals.fn + PartSize(gold, pred, id, FN))
  }

  /** Handling one more id keeps `Counted`. */
  lemma CountStep(gold: Labels, pred: Labels, done: set<int>, totals: Counts, byType: map<string, Counts>,
                  id: int, b3: map<string, Counts>)
    requires id !in done && Counted(gold, pred, done, totals, byType)
    requires TalliedAll(byType, Part(gold, pred, id, TP), Part(gold, pred, id, FP), Part(gold, pred, id, FN), b3)
    ensures Counted(gold, pred, done + {id}, Advance(totals, gold, pred, id), b3)
  {
    StepTotals(gold, pred, done, totals, id);
    StepSeen(gold, pred, done, byType, id, b3);
    StepCounts(gold, pred, done, byType, id, b3);
    StepSums(gold, pred, totals, byType, id, b3);
  }

  lemma StepSums(gold: Labels, pred: Labels, totals: Counts, byType: map<string, Counts>, id: int, b3: map<string, Counts>)
    requires forall k :: SumField(byType, k) == Get(totals, k)
    requires forall j :: SumField(b3, j) == SumField(byType, j)
                         + |Select(Part(gold, pred, id, TP), Part(gold, pred, id, FP), Part(gold, pred, id, FN), j)|
    ensures forall k :: SumField(b3, k) == Get(Advance(totals, gold, pred, id), k)
  {
    forall k | true
      ensures SumField(b3, k) == Get(Advance(totals, gold, pred, id), k)
    {
      StepSum(gold, pred, totals, id, k, SumField(byType, k), SumField(b3, k));
    }
  }

  lemma StepSum(gold: Labels, pred: Labels, totals: Counts, id: int, k: Kind, before: int, after: int)
    requires before == Get(totals, k)
    requires after == before + |Select(Part(gold, pred, id, TP), Part(gold, pred, id, FP), Part(gold, pred, id, FN), k)|
    ensures after == Get(Advance(totals, gold, pred, id), k)
  {
    assert Select(Part(gold, pred, id, TP), Part(gold, pred, id, FP), Part(gold, pred, id, FN), k) == Part(gold, pred, id, k);
  }

  lemma CountsEqual(a: Counts, b: Counts)
    requires forall k :: Get(a, k) == Get(b, k)
    ensures a == b
  {
    assert Get(a, TP) == Get(b, TP) && Get(a, FP) == Get(b, FP) && Get(a, FN) == Get(b, FN);
  }

  /** The three inner loops of `compute_fallacy_metrics` for one id. */
  method TallyId(byType: map<string, Counts>, tp: set<string>, fp: set<string>, fn: set<string>)
    returns (b3: map<string, Counts>)
    ensures TalliedAll(byType, tp, fp, fn, b3)
  {
    var b1 := Tally(byType, tp, TP);
    var b2 := Tally(b1, fp, FP);
    b3 := Tally(b2, fn, FN);
    TallyThree(byType, tp, fp, fn, b1, b2, b3);
  }

  lemma CountedInit(gold: Labels, pred: Labels)
    ensures Counted(gold, pred, {}, Zero, map[])
  {
    assert PartSizes(gold, pred, {}, TP) == map[];
    assert PartSizes(gold, pred, {}, FP) == map[];
    assert PartSizes(gold, pred, {}, FN) == map[];
  }

  lemma CountedFinal(gold: Labels, pred: Labels, totals: Counts, byType: map<string, Counts>)
    requires Counted(gold, pred, Ids(gold, pred), totals, byType)
    ensures totals == Totals(gold, pred)
    ensures forall c :: c in byType <==> Seen(gold, pred, Ids(gold, pred), c)
    ensures forall c :: c in byType ==> byType[c] == CountsOf(gold, pred, c)
    ensures forall k :: SumField(byType, k) == Get(totals, k)
  {
    CountsEqual(totals, Totals(gold, pred));
    forall c | c in byType
      ensures byType[c] == CountsOf(gold, pred, c)
    {
      assert forall k :: Get(Lookup(byType, c), k) == CountOver(gold, pred, Ids(gold, pred), c, k);
      CountsEqual(byType[c], CountsOf(gold, pred, c));
    }
  }

  /** The body of the counting loop of `compute_fallacy_metrics` for one id. */
  method CountId(gold: Labels, pred: Labels, ghost done: set<int>, totals: Counts, byType: map<string, Counts>, id: int)
    returns (totals': Counts, byType': map<string, Counts>)
    requires id !in done && Counted(gold, pred, done, totals, byType)
    ensures Counted(gold, pred, done + {id}, totals', byType')
  {
    var goldSet := LabelSet(gold, id);
    var predSet := LabelSet(pred, id);
    var tp := goldSet * predSet;
    var fp := predSet - goldSet;
    var fn := goldSet - predSet;
    assert tp == Part(gold, pred, id, TP) && fp == Part(gold, pred, id, FP) && fn == Part(gold, pred, id, FN);
    byType' := TallyId(byType, tp, fp, fn);
    CountStep(gold, pred, done, totals, byType, id, byType');
    totals' := Counts(totals.tp + |tp|, totals.fp + |fp|, totals.fn + |fn|);
    assert totals' == Advance(totals, gold, pred, id);
  }

  /** The counting loop of `compute_fallacy_metrics`: for every id of either side, the
      global counters grow by the sizes of its three parts and each label of a part bumps
      its category's counter.  The per-category counters add up to the global ones. */
  method TallyCounts(gold: Labels, pred: Labels) returns (totals: Counts, byType: map<string, Counts>)
    ensures totals == Totals(gold, pred)
    ensures forall c :: c in byType <==> Seen(gold, pred, Ids(gold, pred), c)
    ensures forall c :: c in byType ==> byType[c] == CountsOf(gold, pred, c)
    ensures forall k :: SumField(byType, k) == Get(totals, k)
  {
    totals, byType := CountAll(gold, pred);
    CountedFinal(gold, pred, totals, byType);
  }

  /** The loop itself, visiting the ids in any order. */
  method CountAll(gold: Labels, pred: Labels) returns (totals: Counts, byType: map<string, Counts>)
    ensures Counted(gold, pred, Ids(gold, pred), totals, byType)
  {
    totals := Zero;
    byType := map[];
    var todo := Ids(gold, pred);
    ghost var done: set<int> := {};
    CountedInit(gold, pred);
    while todo != {}
      invariant done == Ids(gold, pred) - todo && todo <= Ids(gold, pred)
      invariant Counted(gold, pred, done, totals, byType)
      decreases |todo|
    {
      NonEmptyHasElement(todo);
      var id :| id in todo;
      totals, byType := CountId(gold, pred, done, totals, byType, id);
      todo := todo - {id};
      done := done + {id};
    }
    assert done == Ids(gold, pred);
  }

  // ---------------------------------------------------------------- scores

  /** `n / d if d > 0 else 0`, exactly. */
  function Ratio(n: nat, d: nat): (r: real)
    ensures d == 0 ==> r == 0.0
    ensures 0.0 <= r
    ensures n <= d ==> r <= 1.0
    ensures 0 < n <= d ==> 0.0 < r
    ensures 0 < n == d ==> r == 1.0
  {
    if d > 0 then n as real / d as real else 0.0
  }

  /** `2 * p * r / (p + r) if (p + r) > 0 else 0`: in [0,1] whenever `p` and `r` are. */
  function F1(p: real, r: real): (f: real)
    ensures 0.0 <= p <= 1.0 && 0.0 <= r <= 1.0 ==> 0.0 <= f <= 1.0
    ensures p + r == 0.0 ==> f == 0.0
  {
    if p + r > 0.0 then
      F1Bounds(p, r);
      2.0 * p * r / (p + r)
    else 0.0
  }

  lemma F1Bounds(p: real, r: real)
    requires p + r > 0.0
    ensures 0.0 <= p <= 1.0 && 0.0 <= r <= 1.0 ==> 0.0 <= 2.0 * p * r / (p + r) <= 1.0
  {
    if 0.0 <= p <= 1.0 && 0.0 <= r <= 1.0 {
      var q := p * r;
      assert q <= p by {
        MulAtMostOne(p, r);
      }
      assert q <= r by {
        MulAtMostOne(r, p);
      }
      assert 0.0 <= q;
      assert 2.0 * p * r == 2.0 * q;
      DivAtMostOne(2.0 * q, p + r);
    }
  }

  lemma MulAtMostOne(x: real, y: real)
    requires 0.0 <= x && 0.0 <= y <= 1.0
    ensures x * y <= x && x * y == y * x
  {
  }

  lemma DivAtMostOne(a: real, b: real)
    requires 0.0 <= a <= b && b > 0.0
    ensures 0.0 <= a / b <= 1.0
  {
  }

  /** Precision, recall and F1 of one set of counters. */
  datatype Scores = Scores(precision: real, recall: real, f1: real)

  /** The scores of a counter: precision tp/(tp+fp), recall tp/(tp+fn), each 0 when its
      denominator is 0, and their harmonic mean; all three lie in [0,1]. */
  function ScoresOf(c: Counts): (s: Scores)
    ensures 0.0 <= s.precision <= 1.0 && 0.0 <= s.recall <= 1.0 && 0.0 <= s.f1 <= 1.0
    ensures c.tp + c.fp == 0 ==> s.precision == 0.0
    ensures c.tp + c.fn == 0 ==> s.recall == 0.0
  {
    var p := Ratio(c.tp, c.tp + c.fp);
    var r := Ratio(c.tp, c.tp + c.fn);
    Scores(p, r, F1(p, r))
  }

  /** F1 is also 2tp / (2tp + fp + fn), and 0 when that denominator is 0. */
  lemma F1Reference(c: Counts)
    ensures ScoresOf(c).f1 == Ratio(2 * c.tp, 2 * c.tp + c.fp + c.fn)
  {
    if c.tp > 0 {
      F1ReferencePositive(c);
    } else {
      assert Ratio(0, c.fp) == 0.0 && Ratio(0, c.fn) == 0.0;
      assert ScoresOf(c) == Scores(0.0, 0.0, F1(0.0, 0.0));
      assert Ratio(0, c.fp + c.fn) == 0.0;
    }
  }

  lemma F1ReferencePositive(c: Counts)
    requires c.tp > 0
    ensures ScoresOf(c).f1 == Ratio(2 * c.tp, 2 * c.tp + c.fp + c.fn)
  {
    var t, d1, d2 := c.tp as real, (c.tp + c.fp) as real, (c.tp + c.fn) as real;
    var p, r := t / d1, t / d2;
    assert ScoresOf(c) == Scores(p, r, F1(p, r));
    HarmonicMean(t, d1, d2);
    assert F1(p, r) == 2.0 * p * r / (p + r);
    assert Ratio(2 * c.tp, 2 * c.tp + c.fp + c.fn) == (2.0 * t) / (d1 + d2);
  }

  /** The harmonic mean of t/d1 and t/d2 is 2t / (d1 + d2). */
  lemma HarmonicMean(t: real, d1: real, d2: real)
    requires 0.0 < t && 0.0 < d1 && 0.0 < d2
    ensures t / d1 + t / d2 > 0.0
    ensures 2.0 * (t / d1) * (t / d2) / (t / d1 + t / d2) == (2.0 * t) / (d1 + d2)
  {
    var p, r := t / d1, t / d2;
    assert p * d1 == t && r * d2 == t;
    assert 0.0 < p && 0.0 < r;
    calc {
      2.0 * p * r * (d1 + d2);
      2.0 * r * (p * d1) + 2.0 * p * (r * d2);
      2.0 * r * t + 2.0 * p * t;
      2.0 * t * (p + r);
    }
    CrossDivide(2.0 * p * r, p + r, 2.0 * t, d1 + d2);
  }

  lemma CrossDivide(x: real, y: real, z: real, w: real)
    requires y != 0.0 && w != 0.0 && x * w == z * y
    ensures x / y == z / w
  {
    calc {
      x / y;
      (x * w) / (y * w);
      (z * y) / (y * w);
      z / w;
    }
  }

  /** No wrong and no missed label, and at least one right one: every score is 1. */
  lemma ScoresPerfect(c: Counts)
    requires c.tp > 0 && c.fp == 0 && c.fn == 0
    ensures ScoresOf(c) == Scores(1.0, 1.0, 1.0)
  {
  }

  /** No right label: every score is 0. */
  lemma ScoresNoTruePositive(c: Counts)
    requires c.tp == 0
    ensures ScoresOf(c) == Scores(0.0, 0.0, 0.0)
  {
  }

  // ---------------------------------------------------------------- fallacy metrics

  /** `compute_fallacy_metrics`: global precision, recall and F1, and the same three
      scores for every fallacy type that occurs on either side. */
  method ComputeFallacyMetrics(gold: Labels, pred: Labels)
    returns (precision: real, recall: real, f1: real, details: map<string, Scores>)
    ensures Scores(precision, recall, f1) == ScoresOf(Totals(gold, pred))
    ensures 0.0 <= precision <= 1.0 && 0.0 <= recall <= 1.0 && 0.0 <= f1 <= 1.0
    ensures forall c :: c in details <==> Seen(gold, pred, Ids(gold, pred), c)
    ensures forall c :: c in details ==> details[c] == ScoresOf(CountsOf(gold, pred, c))
  {
    var totals, byType := TallyCounts(gold, pred);
    var global := ScoresOf(totals);
    precision, recall, f1 := global.precision, global.recall, global.f1;
    details := ScoreTypes(byType);
  }

  /** The per-type loop of `compute_fallacy_metrics`: the scores of every counter. */
  method ScoreTypes(byType: map<string, Counts>) returns (details: map<string, Scores>)
    ensures details.Keys == byType.Keys
    ensures forall c :: c in details ==> details[c] == ScoresOf(byType[c])
  {
    details := map[];
    var todo := byType.Keys;
    while todo != {}
      invariant todo <= byType.Keys
      invariant forall c :: c in details <==> c in byType && c !in todo
      invariant forall c :: c in details ==> details[c] == ScoresOf(byType[c])
      decreases |todo|
    {
      var c :| c in todo;
      details := details[c := ScoresOf(byType[c])];
      todo := todo - {c};
    }
  }

  /** An id on one side only has no true positive: all its labels are false positives
      (predicted side) or false negatives (gold side). */
  lemma OneSidedId(gold: Labels, pred: Labels, id: int)
    requires (id in gold) != (id in pred)
    ensures Part(gold, pred, id, TP) == {}
    ensures id in gold ==> Part(gold, pred, id, FP) == {} && Part(gold, pred, id, FN) == LabelSet(gold, id)
    ensures id in pred ==> Part(gold, pred, id, FN) == {} && Part(gold, pred, id, FP) == LabelSet(pred, id)
  {
  }

  /** True positives come only from ids present on both sides. */
  lemma TruePositivesFromCommonIds(gold: Labels, pred: Labels)
    ensures TotalOver(gold, pred, Ids(gold, pred), TP) == TotalOver(gold, pred, gold.Keys * pred.Keys, TP)
  {
    var common := gold.Keys * pred.Keys;
    forall id | id in Ids(gold, pred) - common
      ensures PartSize(gold, pred, id, TP) == 0
    {
      OneSidedId(gold, pred, id);
    }
    TotalOverRestrict(gold, pred, Ids(gold, pred), common, TP);
  }

  /** Ids whose part is empty can be left out of a global count. */
  lemma {:induction false} TotalOverRestrict(gold: Labels, pred: Labels, ids: set<int>, sub: set<int>, k: Kind)
    requires sub <= ids
    requires forall id :: id in ids - sub ==> PartSize(gold, pred, id, k) == 0
    ensures TotalOver(gold, pred, ids, k) == TotalOver(gold, pred, sub, k)
    decreases |ids|
  {
    if ids - sub == {} {
      assert ids == sub;
    } else {
      NonEmptyHasElement(ids - sub);
      var id :| id in ids - sub;
      var rest := ids - {id};
      TotalOverAdd(gold, pred, rest, id, k);
      assert rest + {id} == ids;
      TotalOverRestrict(gold, pred, rest, sub, k);
    }
  }

  /** The same for the true positives of each fallacy type. */
  lemma TypeTruePositivesFromCommonIds(gold: Labels, pred: Labels, c: string)
    ensures CountOver(gold, pred, Ids(gold, pred), c, TP) == CountOver(gold, pred, gold.Keys * pred.Keys, c, TP)
  {
    var common := gold.Keys * pred.Keys;
    var all := set id | id in Ids(gold, pred) && c in Part(gold, pred, id, TP);
    var both := set id | id in common && c in Part(gold, pred, id, TP);
    forall id | id in all
      ensures id in both
    {
      if id !in common {
        OneSidedId(gold, pred, id);
      }
    }
    assert all == both;
  }

  /** A prediction equal to the gold annotation, with at least one label somewhere,
      scores 1 on precision, recall and F1. */
  lemma PerfectMatch(gold: Labels, id: int)
    requires LabelSet(gold, id) != {}
    ensures ScoresOf(Totals(gold, gold)) == Scores(1.0, 1.0, 1.0)
  {
    var ids := Ids(gold, gold);
    SumValuesZero(PartSizes(gold, gold, ids, FP));
    SumValuesZero(PartSizes(gold, gold, ids, FN));
    var m := PartSizes(gold, gold, ids, TP);
    assert Part(gold, gold, id, TP) == LabelSet(gold, id);
    assert id in m && m[id] > 0;
    SumValuesPositive(m, id);
    ScoresPerfect(Totals(gold, gold));
  }

  /** The same holds for every fallacy type of a prediction equal to the gold one. */
  lemma PerfectMatchPerType(gold: Labels, c: string)
    requires Seen(gold, gold, Ids(gold, gold), c)
    ensures ScoresOf(CountsOf(gold, gold, c)) == Scores(1.0, 1.0, 1.0)
  {
    var ids := Ids(gold, gold);
    var id :| id in ids && c in LabelSet(gold, id) + LabelSet(gold, id);
    var tps := set i | i in ids && c in Part(gold, gold, i, TP);
    assert id in tps;
    assert (set i | i in ids && c in Part(gold, gold, i, FP)) == {};
    assert (set i | i in ids && c in Part(gold, gold, i, FN)) == {};
    assert CountsOf(gold, gold, c) == Counts(|tps|, 0, 0);
    ScoresPerfect(CountsOf(gold, gold, c));
  }

  /** When no id shares a label between the two sides, every score is 0. */
  lemma NoCommonLabel(gold: Labels, pred: Labels)
    requires forall id :: LabelSet(gold, id) * LabelSet(pred, id) == {}
    ensures ScoresOf(Totals(gold, pred)) == Scores(0.0, 0.0, 0.0)
  {
    SumValuesZero(PartSizes(gold, pred, Ids(gold, pred), TP));
    ScoresNoTruePositive(Totals(gold, pred));
  }

  // ---------------------------------------------------------------- reliability

  function Abs(x: int): nat {
    if x < 0 then -x else x
  }

  /** `abs(gold[i] - pred[i])` for each id present on both sides. */
  function Errors(gold: map<int, int>, pred: map<int, int>): (e: map<int, int>)
    ensures e.Keys == gold.Keys * pred.Keys
    ensures forall i :: i in e ==> e[i] == Abs(gold[i] - pred[i]) >= 0
  {
    map i | i in gold.Keys * pred.Keys :: Abs(gold[i] - pred[i])
  }

  /** `compute_reliability_mae`: the mean absolute difference over the common ids, 0 when
      there is none. */
  function ReliabilityMae(gold: map<int, int>, pred: map<int, int>): (mae: real)
    ensures 0.0 <= mae
  {
    var common := gold.Keys * pred.Keys;
    if common == {} then 0.0
    else
      var errors := Errors(gold, pred);
      SumValuesNonNegative(errors);
      SumInts(errors) as real / |common| as real
  }

  /** With at least one common id, the MAE is the order-free sum of the absolute errors
      over exactly the common ids, divided by their number. */
  lemma MaeIsMean(gold: map<int, int>, pred: map<int, int>)
    requires gold.Keys * pred.Keys != {}
    ensures ReliabilityMae(gold, pred) == SumValues(Errors(gold, pred)) as real / |gold.Keys * pred.Keys| as real
  {
  }

  lemma MaeSymmetric(gold: map<int, int>, pred: map<int, int>)
    ensures ReliabilityMae(gold, pred) == ReliabilityMae(pred, gold)
  {
    var e, e' := Errors(gold, pred), Errors(pred, gold);
    assert gold.Keys * pred.Keys == pred.Keys * gold.Keys;
    forall i | i in e
      ensures e[i] == e'[i]
    {
      assert Abs(gold[i] - pred[i]) == Abs(pred[i] - gold[i]);
    }
    assert e == e';
  }

  /** The MAE is 0 exactly when the two sides agree on every common id (in particular
      when they share no id). */
  lemma MaeZeroIff(gold: map<int, int>, pred: map<int, int>)
    ensures ReliabilityMae(gold, pred) == 0.0 <==> forall i :: i in gold && i in pred ==> gold[i] == pred[i]
  {
    var common := gold.Keys * pred.Keys;
    var errors := Errors(gold, pred);
    if common != {} {
      var n := |common| as real;
      var total := SumValues(errors);
      assert ReliabilityMae(gold, pred) == total as real / n;
      if forall i :: i in gold && i in pred ==> gold[i] == pred[i] {
        SumValuesZero(errors);
      } else {
        var i :| i in gold && i in pred && gold[i] != pred[i];
        SumValuesPositive(errors, i);
        assert total as real / n > 0.0;
      }
    }
  }

  /** When every absolute error is at most `b`, so is the MAE. */
  lemma MaeAtMost(gold: map<int, int>, pred: map<int, int>, b: nat)
    requires forall i :: i in gold && i in pred ==> Abs(gold[i] - pred[i]) <= b
    ensures ReliabilityMae(gold, pred) <= b as real
  {
    var common := gold.Keys * pred.Keys;
    if common != {} {
      var errors := Errors(gold, pred);
      var total := SumValues(errors);
      assert total <= b * |common| by {
        assert forall i :: i in errors ==> errors[i] <= b;
        SumValuesAtMost(errors, b);
      }
      MaeIsMean(gold, pred);
      DivAtMost(total, b, |common|);
    }
  }

  lemma DivAtMost(x: int, b: nat, n: nat)
    requires n > 0 && x <= b * n
    ensures x as real / n as real <= b as real
  {
    assert x as real <= b as real * n as real;
  }

  /** Reliability scores on the 1 to 5 scale give an MAE of at most 4. */
  lemma MaeOnScale(gold: map<int, int>, pred: map<int, int>)
    requires forall i :: i in gold ==> 1 <= gold[i] <= 5
    requires forall i :: i in pred ==> 1 <= pred[i] <= 5
    ensures ReliabilityMae(gold, pred) <= 4.0
  {
    MaeAtMost(gold, pred, 4);
  }

  // ---------------------------------------------------------------- evaluate_analysis

  /** The fields of `EvaluationMetrics` that `evaluate_analysis` fills in. */
  datatype EvaluationMetrics = EvaluationMetrics(
    fallacyPrecision: real,
    fallacyRecall: real,
    fallacyF1: real,
    fallacyDetails: map<string, Scores>,
    reliabilityMae: real,
    argumentCountGold: nat,
    argumentCountPredicted: nat)

  /** `evaluate_analysis`: the argument counts are the raw list lengths, the fallacy
      scores are those of the id-aligned label maps, and the MAE is that of the
      id-aligned reliability maps. */
  method EvaluateAnalysis(gold: Annotation, predicted: Annotation) returns (metrics: EvaluationMetrics)
    ensures metrics.argumentCountGold == |ArgumentsOf(gold)|
    ensures metrics.argumentCountPredicted == |ArgumentsOf(predicted)|
    ensures var gf, pf := Keyed(ArgumentsOf(gold), LabelsOf), Keyed(ArgumentsOf(predicted), LabelsOf);
      && Scores(metrics.fallacyPrecision, metrics.fallacyRecall, metrics.fallacyF1) == ScoresOf(Totals(gf, pf))
      && (forall c :: c in metrics.fallacyDetails <==> Seen(gf, pf, Ids(gf, pf), c))
      && (forall c :: c in metrics.fallacyDetails ==> metrics.fallacyDetails[c] == ScoresOf(CountsOf(gf, pf, c)))
    ensures metrics.reliabilityMae
         == ReliabilityMae(Keyed(ArgumentsOf(gold), ReliabilityOf), Keyed(ArgumentsOf(predicted), ReliabilityOf))
  {
    var countGold := |ArgumentsOf(gold)|;
    var countPredicted := |ArgumentsOf(predicted)|;
    var goldFallacies := ExtractFallacies(gold);
    var predFallacies := ExtractFallacies(predicted);
    var goldReliability := ExtractReliabilityScores(gold);
    var predReliability := ExtractReliabilityScores(predicted);
    var precision, recall, f1, details := ComputeFallacyMetrics(goldFallacies, predFallacies);
    var mae := ReliabilityMae(goldReliability, predReliability);
    metrics := EvaluationMetrics(precision, recall, f1, details, mae, countGold, countPredicted);
  }
}
