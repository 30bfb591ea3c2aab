/** The held-out evaluation metrics as exact ratios rounded to six digits, the checks on a
    stored detail, and the comparison of two results. A six-digit metric is held as its
    number of millionths. */
module Evaluation {
  import opened Wrappers

  datatype Detail = Detail(exampleId: string, predicted: int, expected: int, correct: bool, absoluteError: int)

  datatype Metric = Accuracy | MacroF1 | MeanAbsoluteError

  type Metrics = map<Metric, int>

  datatype Provenance = Provenance(
    datasetDigest: string,
    evaluatorName: string,
    evaluatorVersion: string,
    split: string,
    seed: int,
    exampleCount: int)

  datatype Result = Result(provenance: Provenance, metrics: Metrics, details: seq<Detail>)

  const MILLION := 1000000.0
  const MAX_EXAMPLES: nat := 10000

  // Rounding

  /** Millionths of a value clamped to [0, 1], rounded to the nearest, ties to even. */
  function Ratio(value: real): (r: int)
    ensures 0 <= r <= 1000000
    ensures 0.0 <= value <= 1.0 ==> -0.5 <= r as real - value * MILLION <= 0.5
  {
    var bounded := if value < 0.0 then 0.0 else if value > 1.0 then 1.0 else value;
    var scaled := bounded * MILLION;
    var whole := scaled.Floor;
    var part := scaled - whole as real;
    if part < 0.5 || (part == 0.5 && whole % 2 == 0) then whole else whole + 1
  }

  /** Rounding keeps the order of values. */
  lemma RatioMonotone(x: real, y: real)
    requires x <= y
    ensures Ratio(x) <= Ratio(y)
  {
    var a := if x < 0.0 then 0.0 else if x > 1.0 then 1.0 else x;
    var b := if y < 0.0 then 0.0 else if y > 1.0 then 1.0 else y;
    assert a * MILLION <= b * MILLION;
    assert (a * MILLION).Floor <= (b * MILLION).Floor;
  }

  // The metrics

  function Count(details: seq<Detail>, p: Detail -> bool): (n: nat)
    ensures n <= |details|
  {
    if details == [] then 0
    else Count(details[..|details|-1], p) + if p(details[|details|-1]) then 1 else 0
  }

  function ErrorSum(details: seq<Detail>): int
  {
    if details == [] then 0 else ErrorSum(details[..|details|-1]) + details[|details|-1].absoluteError
  }

  function Hits(details: seq<Detail>): nat
  {
    Count(details, (d: Detail) => d.correct)
  }

  function AccuracyOf(details: seq<Detail>): real
    requires details != []
  {
    Hits(details) as real / |details| as real
  }

  function ErrorOf(details: seq<Detail>): real
    requires details != []
  {
    ErrorSum(details) as real / |details| as real
  }

  function TruePositives(details: seq<Detail>, l: int): nat
  {
    Count(details, (d: Detail) => d.expected == l && d.predicted == l)
  }

  function FalsePositives(details: seq<Detail>, l: int): nat
  {
    Count(details, (d: Detail) => d.expected != l && d.predicted == l)
  }

  function FalseNegatives(details: seq<Detail>, l: int): nat
  {
    Count(details, (d: Detail) => d.expected == l && d.predicted != l)
  }

  function F1(details: seq<Detail>, l: int): (r: real)
    ensures 0.0 <= r <= 1.0
  {
    var denominator := 2 * TruePositives(details, l) + FalsePositives(details, l) + FalseNegatives(details, l);
    if denominator == 0 then 0.0
    else
      QuotientBounds(2 * TruePositives(details, l), denominator);
      (2 * TruePositives(details, l)) as real / denominator as real
  }

  lemma QuotientBounds(a: nat, b: nat)
    requires 0 < b && a <= b
    ensures 0.0 <= a as real / b as real <= 1.0
  {
  }

  function MacroF1Of(details: seq<Detail>): real
  {
    (F1(details, 0) + F1(details, 1)) / 2.0
  }

  function Total(scores: seq<real>): real
  {
    if scores == [] then 0.0 else Total(scores[..|scores|-1]) + scores[|scores|-1]
  }

  lemma TotalOfTwo(a: real, b: real)
    ensures Total([a, b]) == a + b
  {
    assert [a, b][..1] == [a] && [a][..0] == [];
    assert Total([a]) == a;
  }

  /** The loop over the two labels averages their F1 scores. */
  method AverageF1(details: seq<Detail>) returns (r: real)
    ensures r == MacroF1Of(details)
    ensures 0.0 <= r <= 1.0
  {
    var scores: seq<real> := [];
    var labels := [0, 1];
    for i := 0 to |labels|
      invariant |scores| == i
      invariant forall j :: 0 <= j < i ==> scores[j] == F1(details, labels[j])
    {
      var truePositive := TruePositives(details, labels[i]);
      var denominator := 2 * truePositive + FalsePositives(details, labels[i]) + FalseNegatives(details, labels[i]);
      scores := scores + [if denominator == 0 then 0.0 else (2 * truePositive) as real / denominator as real];
    }
    hide F1;
    assert scores == [F1(details, 0), F1(details, 1)];
    TotalOfTwo(F1(details, 0), F1(details, 1));
    r := Total(scores) / |scores| as real;
  }

  function MetricsOf(details: seq<Detail>): Metrics
    requires details != []
  {
    map[Accuracy := Ratio(AccuracyOf(details)),
        MacroF1 := Ratio(MacroF1Of(details)),
        MeanAbsoluteError := Ratio(ErrorOf(details))]
  }

  // Stored details

  predicate DetailOk(d: Detail)
  {
    && d.exampleId != "" && d.predicted in {0, 1} && d.expected in {0, 1}
    && d.correct == (d.predicted == d.expected)
    && d.absoluteError == if d.predicted == d.expected then 0 else 1
  }

  predicate DistinctIds(details: seq<Detail>)
  {
    forall i, j :: 0 <= i < j < |details| ==> details[i].exampleId != details[j].exampleId
  }

  predicate DetailsOk(details: seq<Detail>)
  {
    (forall i :: 0 <= i < |details| ==> DetailOk(details[i])) && DistinctIds(details)
  }

  /** An evaluation that reproduces from its own examples. */
  predicate Accepted(r: Result)
  {
    && r.provenance.seed >= 0 && 1 <= r.provenance.exampleCount <= MAX_EXAMPLES
    && |r.details| == r.provenance.exampleCount
    && DetailsOk(r.details) && r.metrics == MetricsOf(r.details)
  }

  /** Refuses a detail that is malformed or whose aggregate is not that of its examples. */
  method ParseDetail(document: Result) returns (ok: bool)
    ensures ok <==> Accepted(document)
  {
    var p := document.provenance;
    if p.seed < 0 || !(1 <= p.exampleCount <= MAX_EXAMPLES) || |document.details| != p.exampleCount {
      return false;
    }
    var rows: seq<Detail> := [];
    for i := 0 to |document.details|
      invariant rows == document.details[..i]
      invariant forall j :: 0 <= j < i ==> DetailOk(document.details[j])
    {
      var item := document.details[i];
      if item.exampleId == "" {
        return false;
      }
      if item.predicted !in {0, 1} || item.expected !in {0, 1} {
        return false;
      }
      if item.correct != (item.predicted == item.expected) {
        return false;
      }
      if item.absoluteError != Magnitude(item.predicted - item.expected) {
        return false;
      }
      rows := rows + [item];
    }
    assert rows == document.details;
    if !DistinctIds(rows) {
      return false;
    }
    var f1 := AverageF1(rows);
    var metrics := map[Accuracy := Ratio(AccuracyOf(rows)),
                       MacroF1 := Ratio(f1),
                       MeanAbsoluteError := Ratio(ErrorOf(rows))];
    ok := document.metrics == metrics;
  }

  function Magnitude(x: int): int
  {
    if x < 0 then -x else x
  }

  // Reproduction from the stored detail

  datatype Example = Example(exampleId: string, truth: int)

  predicate Identifies(r: Result, examples: seq<Example>, digest: seq<Example> -> string)
  {
    && |examples| == |r.details| && r.provenance.datasetDigest == digest(examples)
    && forall i :: 0 <= i < |examples| ==>
         r.details[i].exampleId == examples[i].exampleId && r.details[i].expected == examples[i].truth
  }

  function Replayed(r: Result, examples: seq<Example>): seq<Detail>
    requires |examples| == |r.details|
  {
    seq(|r.details|, i requires 0 <= i < |r.details| =>
      var d := r.details[i];
      Detail(d.exampleId, d.predicted, d.expected, d.predicted == d.expected,
             Magnitude(d.predicted - examples[i].truth)))
  }

  /** Re-derives the aggregate from the stored predictions; None is a refused detail. */
  function Recompute(r: Result, examples: seq<Example>, digest: seq<Example> -> string): Option<Result>
  {
    if !Identifies(r, examples, digest) || r.details == [] then None
    else Some(Result(r.provenance, MetricsOf(Replayed(r, examples)), Replayed(r, examples)))
  }

  /** An accepted result is reproduced exactly from its detail. */
  lemma RecomputeReproduces(r: Result, examples: seq<Example>, digest: seq<Example> -> string)
    requires Accepted(r) && Identifies(r, examples, digest)
    ensures Recompute(r, examples, digest) == Some(r)
  {
    forall i | 0 <= i < |r.details|
      ensures Replayed(r, examples)[i] == r.details[i]
    {
      assert DetailOk(r.details[i]);
    }
    assert Replayed(r, examples) == r.details;
  }

  /** Whatever a result claimed, its recomputation over valid binary rows is accepted. */
  lemma RecomputeIsAccepted(r: Result, examples: seq<Example>, digest: seq<Example> -> string)
    requires Recompute(r, examples, digest).Some? && DistinctIds(r.details)
    requires r.provenance.seed >= 0 && 1 <= r.provenance.exampleCount == |r.details| <= MAX_EXAMPLES
    requires forall i :: 0 <= i < |r.details| ==>
               r.details[i].exampleId != "" && r.details[i].predicted in {0, 1} && r.details[i].expected in {0, 1}
    ensures Accepted(Recompute(r, examples, digest).value)
  {
    var t := Replayed(r, examples);
    forall i | 0 <= i < |t|
      ensures DetailOk(t[i])
    {
      assert r.details[i].expected == examples[i].truth;
    }
    assert DistinctIds(t);
  }

  // Accuracy and error

  /** Every wrong example costs one: errors and hits make up the examples. */
  lemma {:induction false} ErrorsAreMisses(details: seq<Detail>)
    requires forall i :: 0 <= i < |details| ==> DetailOk(details[i])
    ensures ErrorSum(details) == |details| - Hits(details)
  {
    if details != [] {
      ErrorsAreMisses(details[..|details|-1]);
      assert DetailOk(details[|details|-1]);
    }
  }

  /** Hit counts k < m out of n differ by at least a ten-thousandth, a hundred millionths. */
  lemma QuotientGap(k: nat, m: nat, n: nat)
    requires k < m <= n && 1 <= n <= MAX_EXAMPLES
    ensures m as real / n as real * MILLION >= k as real / n as real * MILLION + 100.0
  {
    var a, b := k as real / n as real, m as real / n as real;
    assert a * n as real == k as real && b * n as real == m as real;
    assert (b - a) * n as real >= 1.0;
    GapBound(b - a, n);
  }

  lemma NonPositiveProduct(d: real, x: real)
    requires d <= 0.0 && x >= 0.0
    ensures d * x <= 0.0
  {
  }

  lemma GapBound(d: real, n: nat)
    requires 1 <= n <= MAX_EXAMPLES && d * n as real >= 1.0
    ensures d * MILLION >= 100.0
  {
    if d <= 0.0 {
      NonPositiveProduct(d, n as real);
      assert false;
    }
    assert d * 10000.0 >= d * n as real;
  }

  /** For equal counts of at most ten thousand, six-digit rounding neither merges nor reverses
      two different hit rates; they stay at least 99 millionths apart. */
  lemma RoundingSeparates(k: nat, m: nat, n: nat)
    requires k < m <= n && 1 <= n <= 10000
    ensures Ratio(k as real / n as real) + 99 <= Ratio(m as real / n as real)
  {
    QuotientBounds(k, n);
    QuotientBounds(m, n);
    QuotientGap(k, m, n);
    hide Ratio;
  }

  lemma RatesCompare(k: nat, m: nat, n: nat)
    requires k <= n && m <= n && 1 <= n <= MAX_EXAMPLES
    ensures Ratio(k as real / n as real) < Ratio(m as real / n as real) <==> k < m
    ensures Ratio(k as real / n as real) == Ratio(m as real / n as real) <==> k == m
  {
    hide Ratio;
    if k < m { RoundingSeparates(k, m, n); }
    if m < k { RoundingSeparates(m, k, n); }
  }

  // Comparison

  const REQUIRED_METRICS := [Accuracy, MacroF1, MeanAbsoluteError]

  datatype Direction = Better | Same | Worse

  datatype Delta = Delta(metric: Metric, baseline: int, candidate: int, direction: Direction)

  datatype Verdict = Improved | Regressed | Unchanged | Incomparable

  datatype Comparison =
    | Comparison(verdict: Verdict, deltas: seq<Delta>, missing: seq<Metric>, refused: bool)
    | MetricInvalid

  /** Higher is better, except for the error. */
  function DirectionOf(metric: Metric, left: int, right: int): Direction
  {
    var change := if metric.MeanAbsoluteError? then left - right else right - left;
    if change > 0 then Better else if change < 0 then Worse else Same
  }

  predicate Both(b: Metrics, c: Metrics, m: Metric)
  {
    m in b && m in c
  }

  predicate InRange(b: Metrics, c: Metrics, m: Metric)
    requires Both(b, c, m)
  {
    0 <= b[m] <= 1000000 && 0 <= c[m] <= 1000000
  }

  predicate Comparable(b: Metrics, c: Metrics)
  {
    forall m :: m in REQUIRED_METRICS && Both(b, c, m) ==> InRange(b, c, m)
  }

  function DeltaOf(b: Metrics, c: Metrics, m: Metric): Delta
    requires Both(b, c, m)
  {
    Delta(m, b[m], c[m], DirectionOf(m, b[m], c[m]))
  }

  function Deltas(b: Metrics, c: Metrics, ms: seq<Metric>): seq<Delta>
  {
    if ms == [] then []
    else
      Deltas(b, c, ms[..|ms|-1]) + if Both(b, c, ms[|ms|-1]) then [DeltaOf(b, c, ms[|ms|-1])] else []
  }

  function Missing(b: Metrics, c: Metrics, ms: seq<Metric>): seq<Metric>
  {
    if ms == [] then []
    else Missing(b, c, ms[..|ms|-1]) + if Both(b, c, ms[|ms|-1]) then [] else [ms[|ms|-1]]
  }

  predicate Goes(b: Metrics, c: Metrics, d: Direction)
  {
    exists m :: m in REQUIRED_METRICS && Both(b, c, m) && DirectionOf(m, b[m], c[m]) == d
  }

  /** Better somewhere and worse nowhere, and so on: the Pareto reading of a comparison. */
  function VerdictOf(b: Metrics, c: Metrics): Verdict
  {
    if Goes(b, c, Better) && Goes(b, c, Worse) then Incomparable
    else if Goes(b, c, Better) then Improved
    else if Goes(b, c, Worse) then Regressed
    else Unchanged
  }

  function Compared(b: Result, c: Result, fingerprint: Provenance -> string): Comparison
  {
    if fingerprint(b.provenance) != fingerprint(c.provenance) then
      Comparison(Incomparable, [], Missing(b.metrics, c.metrics, REQUIRED_METRICS), true)
    else if !Comparable(b.metrics, c.metrics) then MetricInvalid
    else
      var v := VerdictOf(b.metrics, c.metrics);
      Comparison(v, Deltas(b.metrics, c.metrics, REQUIRED_METRICS), Missing(b.metrics, c.metrics, REQUIRED_METRICS),
        v.Incomparable?)
  }

  function Going(deltas: seq<Delta>, d: Direction): nat
  {
    if deltas == [] then 0
    else Going(deltas[..|deltas|-1], d) + if deltas[|deltas|-1].direction == d then 1 else 0
  }

  lemma {:induction false} GoingPositive(deltas: seq<Delta>, d: Direction)
    ensures Going(deltas, d) > 0 <==> exists i :: 0 <= i < |deltas| && deltas[i].direction == d
  {
    if deltas != [] {
      var init := deltas[..|deltas|-1];
      GoingPositive(init, d);
      assert deltas == init + [deltas[|deltas|-1]];
      if i :| 0 <= i < |init| && init[i].direction == d {
        assert deltas[i].direction == d;
      }
    }
  }

  lemma {:induction false} DeltasAre(b: Metrics, c: Metrics, ms: seq<Metric>)
    ensures forall i :: 0 <= i < |Deltas(b, c, ms)| ==>
              var x := Deltas(b, c, ms)[i]; x.metric in ms && Both(b, c, x.metric) && x == DeltaOf(b, c, x.metric)
    ensures forall m :: m in ms && Both(b, c, m) ==> DeltaOf(b, c, m) in Deltas(b, c, ms)
  {
    if ms != [] {
      DeltasAre(b, c, ms[..|ms|-1]);
      assert ms == ms[..|ms|-1] + [ms[|ms|-1]];
      assert forall m :: m in ms <==> m in ms[..|ms|-1] || m == ms[|ms|-1];
    }
  }

  lemma GoesIffCounted(b: Metrics, c: Metrics, d: Direction)
    ensures Goes(b, c, d) <==> Going(Deltas(b, c, REQUIRED_METRICS), d) > 0
  {
    var deltas := Deltas(b, c, REQUIRED_METRICS);
    GoingPositive(deltas, d);
    DeltasAre(b, c, REQUIRED_METRICS);
    hide Going, Deltas, DirectionOf;
    if Goes(b, c, d) {
      var m :| m in REQUIRED_METRICS && Both(b, c, m) && DirectionOf(m, b[m], c[m]) == d;
      assert DeltaOf(b, c, m) in deltas;
    }
    if i :| 0 <= i < |deltas| && deltas[i].direction == d {
      assert deltas[i].metric in REQUIRED_METRICS;
    }
  }

  predicate Tracked(deltas: seq<Delta>, improved: nat, regressed: nat)
  {
    improved == Going(deltas, Better) && regressed == Going(deltas, Worse)
  }

  lemma TrackNext(deltas: seq<Delta>, x: Delta, improved: nat, regressed: nat)
    requires Tracked(deltas, improved, regressed)
    ensures x.direction.Better? ==> Tracked(deltas + [x], improved + 1, regressed)
    ensures x.direction.Worse? ==> Tracked(deltas + [x], improved, regressed + 1)
    ensures x.direction.Same? ==> Tracked(deltas + [x], improved, regressed)
  {
    assert (deltas + [x])[..|deltas|] == deltas;
  }

  lemma DeltasNext(b: Metrics, c: Metrics, i: nat)
    requires i < |REQUIRED_METRICS|
    ensures var m := REQUIRED_METRICS[i];
            Deltas(b, c, REQUIRED_METRICS[..i + 1]) ==
            Deltas(b, c, REQUIRED_METRICS[..i]) + if Both(b, c, m) then [DeltaOf(b, c, m)] else []
  {
    assert REQUIRED_METRICS[..i + 1][..i] == REQUIRED_METRICS[..i];
  }

  ghost predicate RangesOk(b: Metrics, c: Metrics, i: nat)
    requires i <= |REQUIRED_METRICS|
  {
    forall j :: 0 <= j < i && Both(b, c, REQUIRED_METRICS[j]) ==> InRange(b, c, REQUIRED_METRICS[j])
  }

  lemma RangesNext(b: Metrics, c: Metrics, i: nat)
    requires i < |REQUIRED_METRICS| && RangesOk(b, c, i)
    ensures var m := REQUIRED_METRICS[i];
            RangesOk(b, c, i + 1) <==> (Both(b, c, m) ==> InRange(b, c, m))
    ensures !RangesOk(b, c, i + 1) ==> !Comparable(b, c)
  {
    assert REQUIRED_METRICS[i] in REQUIRED_METRICS;
  }

  lemma VerdictFrom(b: Metrics, c: Metrics, improved: nat, regressed: nat)
    requires Tracked(Deltas(b, c, REQUIRED_METRICS), improved, regressed)
    ensures VerdictOf(b, c) ==
            if regressed != 0 && improved == 0 then Regressed
            else if improved != 0 && regressed == 0 then Improved
            else if improved == 0 && regressed == 0 then Unchanged
            else Incomparable
  {
    GoesIffCounted(b, c, Better);
    GoesIffCounted(b, c, Worse);
    hide Goes, Deltas, Going;
  }

  /** The loop over the required metrics, with its two counters. */
  method Compare(b: Result, c: Result, fingerprint: Provenance -> string) returns (r: Comparison)
    ensures r == Compared(b, c, fingerprint)
  {
    hide Missing, VerdictOf, DirectionOf;
    var missing := Missing(b.metrics, c.metrics, REQUIRED_METRICS);
    if fingerprint(b.provenance) != fingerprint(c.provenance) {
      return Comparison(Incomparable, [], missing, true);
    }
    var deltas: seq<Delta> := [];
    var improved, regressed := 0, 0;
    assert Tracked(deltas, improved, regressed) && Deltas(b.metrics, c.metrics, REQUIRED_METRICS[..0]) == [];
    hide Tracked, Deltas, Comparable, RangesOk;
    RangesStart(b.metrics, c.metrics);
    for i := 0 to |REQUIRED_METRICS|
      invariant deltas == Deltas(b.metrics, c.metrics, REQUIRED_METRICS[..i])
      invariant Tracked(deltas, improved, regressed) && RangesOk(b.metrics, c.metrics, i)
    {
      var metric := REQUIRED_METRICS[i];
      DeltasNext(b.metrics, c.metrics, i);
      RangesNext(b.metrics, c.metrics, i);
      if metric !in b.metrics || metric !in c.metrics {
        continue;
      }
      var left, right := b.metrics[metric], c.metrics[metric];
      if !(0 <= left <= 1000000) || !(0 <= right <= 1000000) {
        return MetricInvalid;
      }
      var direction := DirectionOf(metric, left, right);
      TrackNext(deltas, Delta(metric, left, right, direction), improved, regressed);
      if direction.Better? {
        improved := improved + 1;
      } else if direction.Worse? {
        regressed := regressed + 1;
      }
      deltas := deltas + [Delta(metric, left, right, direction)];
    }
    assert REQUIRED_METRICS[..|REQUIRED_METRICS|] == REQUIRED_METRICS;
    RangesEnd(b.metrics, c.metrics);
    VerdictFrom(b.metrics, c.metrics, improved, regressed);
    var verdict: Verdict;
    if regressed != 0 && improved == 0 {
      verdict := Regressed;
    } else if improved != 0 && regressed == 0 {
      verdict := Improved;
    } else if improved == 0 && regressed == 0 {
      verdict := Unchanged;
    } else {
      verdict := Incomparable;
    }
    r := Comparison(verdict, deltas, missing, improved != 0 && regressed != 0);
  }

  lemma RangesStart(b: Metrics, c: Metrics)
    ensures RangesOk(b, c, 0)
  {
  }

  lemma RangesEnd(b: Metrics, c: Metrics)
    requires RangesOk(b, c, |REQUIRED_METRICS|)
    ensures Comparable(b, c)
  {
    forall m | m in REQUIRED_METRICS && Both(b, c, m)
      ensures InRange(b, c, m)
    {
      var j :| 0 <= j < |REQUIRED_METRICS| && REQUIRED_METRICS[j] == m;
    }
  }

  predicate SupportsConclusion(r: Comparison)
  {
    r.Comparison? && !r.verdict.Incomparable? && r.missing == [] && |r.deltas| >= 2
  }

  // The comparison is a strict Pareto order

  function Flip(d: Direction): Direction
  {
    match d
    case Better => Worse
    case Same => Same
    case Worse => Better
  }

  function Reverse(v: Verdict): Verdict
  {
    match v
    case Improved => Regressed
    case Regressed => Improved
    case _ => v
  }

  lemma GoesFlips(b: Metrics, c: Metrics, d: Direction)
    ensures Goes(b, c, d) <==> Goes(c, b, Flip(d))
  {
    if Goes(b, c, d) {
      var m :| m in REQUIRED_METRICS && Both(b, c, m) && DirectionOf(m, b[m], c[m]) == d;
      assert DirectionOf(m, c[m], b[m]) == Flip(d) && Both(c, b, m);
    }
    if Goes(c, b, Flip(d)) {
      var m :| m in REQUIRED_METRICS && Both(c, b, m) && DirectionOf(m, c[m], b[m]) == Flip(d);
      assert DirectionOf(m, b[m], c[m]) == d && Both(b, c, m);
    }
  }

  /** The same metric, with its values swapped and its direction flipped. */
  function Mirrored(d: Delta): Delta
  {
    Delta(d.metric, d.candidate, d.baseline, Flip(d.direction))
  }

  lemma {:induction false} DeltasMirror(b: Metrics, c: Metrics, ms: seq<Metric>)
    ensures |Deltas(c, b, ms)| == |Deltas(b, c, ms)|
    ensures forall i :: 0 <= i < |Deltas(b, c, ms)| ==> Deltas(c, b, ms)[i] == Mirrored(Deltas(b, c, ms)[i])
  {
    if ms != [] {
      DeltasMirror(b, c, ms[..|ms|-1]);
    }
  }

  /** Swapping baseline and candidate swaps improved and regressed, mirrors every delta, and
      changes nothing else. */
  lemma SwapReverses(b: Result, c: Result, fingerprint: Provenance -> string)
    ensures var r, t := Compared(b, c, fingerprint), Compared(c, b, fingerprint);
            && (r.MetricInvalid? <==> t.MetricInvalid?)
            && (r.Comparison? && t.Comparison? ==>
                  && t.verdict == Reverse(r.verdict) && t.missing == r.missing && t.refused == r.refused
                  && |t.deltas| == |r.deltas|
                  && forall i :: 0 <= i < |r.deltas| ==> t.deltas[i] == Mirrored(r.deltas[i]))
  {
    DeltasMirror(b.metrics, c.metrics, REQUIRED_METRICS);
    GoesFlips(b.metrics, c.metrics, Better);
    GoesFlips(b.metrics, c.metrics, Worse);
    MissingSymmetric(b.metrics, c.metrics, REQUIRED_METRICS);
    hide Goes, Deltas, Missing;
    assert forall m :: Both(b.metrics, c.metrics, m) <==> Both(c.metrics, b.metrics, m);
    assert Comparable(b.metrics, c.metrics) <==> Comparable(c.metrics, b.metrics);
  }

  lemma {:induction false} MissingSymmetric(b: Metrics, c: Metrics, ms: seq<Metric>)
    ensures Missing(b, c, ms) == Missing(c, b, ms)
  {
    if ms != [] {
      MissingSymmetric(b, c, ms[..|ms|-1]);
    }
  }

  lemma AllMetrics(m: Metric)
    ensures m in REQUIRED_METRICS
  {
    assert REQUIRED_METRICS[0] == Accuracy && REQUIRED_METRICS[1] == MacroF1 &&
      REQUIRED_METRICS[2] == MeanAbsoluteError;
  }

  lemma ImprovedMeans(b: Metrics, c: Metrics)
    requires forall m :: m in b && m in c
    ensures VerdictOf(b, c).Improved? <==>
            (forall m :: !DirectionOf(m, b[m], c[m]).Worse?) && exists m :: DirectionOf(m, b[m], c[m]).Better?
  {
    forall m: Metric
      ensures m in REQUIRED_METRICS
    {
      AllMetrics(m);
    }
    assert forall m :: Both(b, c, m);
    hide DirectionOf;
  }

  /** A result with every required metric, each a ratio. */
  predicate Complete(r: Result)
  {
    forall m: Metric :: m in r.metrics && 0 <= r.metrics[m] <= 1000000
  }

  lemma BetterComposes(m: Metric, x: int, y: int, z: int)
    requires !DirectionOf(m, x, y).Worse? && !DirectionOf(m, y, z).Worse?
    ensures !DirectionOf(m, x, z).Worse?
    ensures DirectionOf(m, x, y).Better? || DirectionOf(m, y, z).Better? ==> DirectionOf(m, x, z).Better?
  {
  }

  lemma ImprovedComposes(a: Metrics, b: Metrics, c: Metrics)
    requires forall m: Metric :: m in a && m in b && m in c
    requires VerdictOf(a, b).Improved? && VerdictOf(b, c).Improved?
    ensures VerdictOf(a, c).Improved?
  {
    ImprovedMeans(a, b);
    ImprovedMeans(b, c);
    ImprovedMeans(a, c);
    hide VerdictOf, DirectionOf;
    forall m: Metric
      ensures !DirectionOf(m, a[m], c[m]).Worse?
      ensures DirectionOf(m, a[m], b[m]).Better? ==> DirectionOf(m, a[m], c[m]).Better?
    {
      BetterComposes(m, a[m], b[m], c[m]);
    }
    var m :| DirectionOf(m, a[m], b[m]).Better?;
    assert DirectionOf(m, a[m], c[m]).Better?;
  }

  predicate Improves(b: Result, c: Result, fingerprint: Provenance -> string)
  {
    Compared(b, c, fingerprint).Comparison? && Compared(b, c, fingerprint).verdict.Improved?
  }

  lemma ImprovesIff(b: Result, c: Result, fingerprint: Provenance -> string)
    requires Complete(b) && Complete(c)
    ensures Improves(b, c, fingerprint) <==>
            fingerprint(b.provenance) == fingerprint(c.provenance) && VerdictOf(b.metrics, c.metrics).Improved?
  {
    hide VerdictOf, Deltas, Missing;
  }

  /** Improvement is a strict order on complete results: transitive and never mutual. */
  lemma ImprovedIsTransitive(a: Result, b: Result, c: Result, fingerprint: Provenance -> string)
    requires Complete(a) && Complete(b) && Complete(c)
    requires Improves(a, b, fingerprint) && Improves(b, c, fingerprint)
    ensures Improves(a, c, fingerprint) && !Improves(c, a, fingerprint)
  {
    ImprovesIff(a, b, fingerprint);
    ImprovesIff(b, c, fingerprint);
    ImprovesIff(a, c, fingerprint);
    SwapReverses(a, c, fingerprint);
    hide VerdictOf, Compared;
    ImprovedComposes(a.metrics, b.metrics, c.metrics);
  }

  /** Accepted details are complete. */
  lemma AcceptedIsComplete(r: Result)
    requires Accepted(r)
    ensures Complete(r)
  {
    forall m: Metric
      ensures m in r.metrics && 0 <= r.metrics[m] <= 1000000
    {
      assert m.Accuracy? || m.MacroF1? || m.MeanAbsoluteError?;
    }
  }

  /** On accepted details with the same number of examples, accuracy and mean absolute error
      always point the same way. */
  lemma AccuracyAndErrorAgree(b: Result, c: Result)
    requires Accepted(b) && Accepted(c) && |b.details| == |c.details|
    ensures Accuracy in b.metrics && Accuracy in c.metrics
    ensures MeanAbsoluteError in b.metrics && MeanAbsoluteError in c.metrics
    ensures DirectionOf(Accuracy, b.metrics[Accuracy], c.metrics[Accuracy]) ==
            DirectionOf(MeanAbsoluteError, b.metrics[MeanAbsoluteError], c.metrics[MeanAbsoluteError])
    ensures DirectionOf(Accuracy, b.metrics[Accuracy], c.metrics[Accuracy]).Better? <==>
        Hits(b.details) < Hits(c.details)
  {
    var n := |b.details|;
    ErrorsAreMisses(b.details);
    ErrorsAreMisses(c.details);
    hide Hits, ErrorSum, Ratio, F1;
    RatesCompare(Hits(b.details), Hits(c.details), n);
    RatesCompare(n - Hits(b.details), n - Hits(c.details), n);
  }

  /** A conflict always involves macro F1 against both other metrics. */
  lemma ConflictInvolvesMacroF1(b: Result, c: Result, fingerprint: Provenance -> string)
    requires Accepted(b) && Accepted(c) && |b.details| == |c.details|
    requires fingerprint(b.provenance) == fingerprint(c.provenance)
    requires Compared(b, c, fingerprint).Comparison? && Compared(b, c, fingerprint).verdict.Incomparable?
    ensures MacroF1 in b.metrics && MacroF1 in c.metrics && Accuracy in b.metrics && Accuracy in c.metrics
    ensures DirectionOf(MacroF1, b.metrics[MacroF1], c.metrics[MacroF1]) !=
            DirectionOf(Accuracy, b.metrics[Accuracy], c.metrics[Accuracy])
    ensures !DirectionOf(MacroF1, b.metrics[MacroF1], c.metrics[MacroF1]).Same?
    ensures !DirectionOf(Accuracy, b.metrics[Accuracy], c.metrics[Accuracy]).Same?
  {
    AcceptedIsComplete(b);
    AcceptedIsComplete(c);
    AccuracyAndErrorAgree(b, c);
    hide Accepted, Deltas, Missing, DirectionOf;
    var m :| m in REQUIRED_METRICS && Both(b.metrics, c.metrics, m) &&
      DirectionOf(m, b.metrics[m], c.metrics[m]) == Better;
    var k :| k in REQUIRED_METRICS && Both(b.metrics, c.metrics, k) &&
      DirectionOf(k, b.metrics[k], c.metrics[k]) == Worse;
    assert m.MacroF1? || k.MacroF1?;
  }

  /** Complete results of one setup support a conclusion unless their metrics conflict. */
  lemma SupportIff(b: Result, c: Result, fingerprint: Provenance -> string)
    requires Complete(b) && Complete(c)
    ensures SupportsConclusion(Compared(b, c, fingerprint)) <==>
            fingerprint(b.provenance) == fingerprint(c.provenance) && !VerdictOf(b.metrics, c.metrics).Incomparable?
  {
    hide VerdictOf, DirectionOf;
    AllPresent(b.metrics, c.metrics);
  }

  lemma AllPresent(b: Metrics, c: Metrics)
    requires forall m: Metric :: m in b && m in c
    ensures |Deltas(b, c, REQUIRED_METRICS)| == 3 && Missing(b, c, REQUIRED_METRICS) == []
  {
    var ms := REQUIRED_METRICS;
    assert ms[..2][..1] == ms[..1] && ms[..1][..0] == [];
    assert |Deltas(b, c, ms[..1])| == 1 && Missing(b, c, ms[..1]) == [];
    assert |Deltas(b, c, ms[..2])| == 2 && Missing(b, c, ms[..2]) == [];
  }

  // Such a conflict exists

  function Row(id: string, predicted: int, expected: int): Detail
  {
    Detail(id, predicted, expected, predicted == expected, if predicted == expected then 0 else 1)
  }

  lemma CountFour(a: Detail, b: Detail, c: Detail, d: Detail, p: Detail -> bool)
    ensures Count([a, b, c, d], p) ==
            (if p(a) then 1 else 0) + (if p(b) then 1 else 0) + (if p(c) then 1 else 0) + (if p(d) then 1 else 0)
  {
    assert [a, b, c, d][..3] == [a, b, c] && [a, b, c][..2] == [a, b] && [a, b][..1] == [a] && [a][..0] == [];
    assert Count([a], p) == if p(a) then 1 else 0;
    assert Count([a, b], p) == (if p(a) then 1 else 0) + if p(b) then 1 else 0;
  }

  const MIXED := [Row("w", 0, 0), Row("x", 1, 0), Row("y", 1, 0), Row("z", 1, 1)]

  const MAJORITY := [Row("w", 0, 0), Row("x", 0, 0), Row("y", 0, 0), Row("z", 0, 1)]

  const SETUP := Provenance("dataset", "evaluator", "version", "split", 0, 4)

  function Evaluated(details: seq<Detail>): Result
    requires details != []
  {
    Result(SETUP, MetricsOf(details), details)
  }

  /** Four examples, three of them labelled 0. Always answering 0 is right three times, but it
      has a lower macro F1 than answering 1 three times and being right twice: two accepted
      results of one setup whose comparison is refused. */
  lemma AccuracyAndMacroF1Conflict(fingerprint: Provenance -> string)
    ensures Accepted(Evaluated(MIXED)) && Accepted(Evaluated(MAJORITY))
    ensures var r := Compared(Evaluated(MIXED), Evaluated(MAJORITY), fingerprint);
            r.Comparison? && r.verdict.Incomparable? && r.refused
  {
    MetricsConflict();
    AcceptedIsComplete(Evaluated(MIXED));
    AcceptedIsComplete(Evaluated(MAJORITY));
    hide Accepted, MetricsOf, VerdictOf, Deltas, Missing;
  }

  lemma MetricsConflict()
    ensures Accepted(Evaluated(MIXED)) && Accepted(Evaluated(MAJORITY))
    ensures VerdictOf(MetricsOf(MIXED), MetricsOf(MAJORITY)).Incomparable?
  {
    RowsOk();
    MixedCounts();
    MajorityCounts();
    var a, f, b, g := AccuracyOf(MIXED), MacroF1Of(MIXED), AccuracyOf(MAJORITY), MacroF1Of(MAJORITY);
    assert a == 0.5 && b == 0.75 && f == 0.5 && g == 3.0 / 7.0 by {
      hide Hits, F1;
    }
    hide AccuracyOf, MacroF1Of, ErrorOf, DetailsOk;
    ConflictingDirections(MetricsOf(MIXED), MetricsOf(MAJORITY));
  }

  lemma RowsOk()
    ensures DetailsOk(MIXED) && DetailsOk(MAJORITY)
  {
    assert "w"[0] == 'w' && "x"[0] == 'x' && "y"[0] == 'y' && "z"[0] == 'z';
  }

  lemma ConflictingDirections(x: Metrics, y: Metrics)
    requires Both(x, y, Accuracy) && Both(x, y, MacroF1)
    requires x[Accuracy] < y[Accuracy] && x[MacroF1] > y[MacroF1]
    ensures VerdictOf(x, y).Incomparable?
  {
    AllMetrics(Accuracy);
    AllMetrics(MacroF1);
    assert DirectionOf(Accuracy, x[Accuracy], y[Accuracy]) == Better;
    assert DirectionOf(MacroF1, x[MacroF1], y[MacroF1]) == Worse;
  }

  lemma MixedCounts()
    ensures Hits(MIXED) == 2 && F1(MIXED, 0) == 0.5 && F1(MIXED, 1) == 0.5
  {
    var w, x, y, z := Row("w", 0, 0), Row("x", 1, 0), Row("y", 1, 0), Row("z", 1, 1);
    CountFour(w, x, y, z, (d: Detail) => d.correct);
    CountFour(w, x, y, z, (d: Detail) => d.expected == 0 && d.predicted == 0);
    CountFour(w, x, y, z, (d: Detail) => d.expected != 0 && d.predicted == 0);
    CountFour(w, x, y, z, (d: Detail) => d.expected == 0 && d.predicted != 0);
    CountFour(w, x, y, z, (d: Detail) => d.expected == 1 && d.predicted == 1);
    CountFour(w, x, y, z, (d: Detail) => d.expected != 1 && d.predicted == 1);
    CountFour(w, x, y, z, (d: Detail) => d.expected == 1 && d.predicted != 1);
    hide Count;
    var b := MIXED;
    assert b == [w, x, y, z];
    assert TruePositives(b, 0) == 1 && FalsePositives(b, 0) == 0 && FalseNegatives(b, 0) == 2;
    assert TruePositives(b, 1) == 1 && FalsePositives(b, 1) == 2 && FalseNegatives(b, 1) == 0;
  }

  lemma MajorityCounts()
    ensures Hits(MAJORITY) == 3 && F1(MAJORITY, 0) == 6.0 / 7.0 && F1(MAJORITY, 1) == 0.0
  {
    var w, x, y, z := Row("w", 0, 0), Row("x", 0, 0), Row("y", 0, 0), Row("z", 0, 1);
    CountFour(w, x, y, z, (d: Detail) => d.correct);
    CountFour(w, x, y, z, (d: Detail) => d.expected == 0 && d.predicted == 0);
    CountFour(w, x, y, z, (d: Detail) => d.expected != 0 && d.predicted == 0);
    CountFour(w, x, y, z, (d: Detail) => d.expected == 0 && d.predicted != 0);
    CountFour(w, x, y, z, (d: Detail) => d.expected == 1 && d.predicted == 1);
    CountFour(w, x, y, z, (d: Detail) => d.expected != 1 && d.predicted == 1);
    CountFour(w, x, y, z, (d: Detail) => d.expected == 1 && d.predicted != 1);
    hide Count;
    var c := MAJORITY;
    assert c == [w, x, y, z];
    assert TruePositives(c, 0) == 3 && FalsePositives(c, 0) == 1 && FalseNegatives(c, 0) == 0;
    assert TruePositives(c, 1) == 0 && FalsePositives(c, 1) == 0 && FalseNegatives(c, 1) == 1;
  }
}
