/** What the rounded metrics and a comparison say, in terms of the stored examples and of the
    two results' own values. */
module ComparisonMeaning {
  import opened Wrappers
  import opened Evaluation

  // Rounding

  function Distance(n: int, x: real): real
  {
    if n as real < x then x - n as real else n as real - x
  }

  /** The rounded value is the nearest number of millionths, and the even one of two that are
      equally near; values outside the unit interval round to its ends. */
  lemma RatioIsNearestEven(value: real, n: int)
    ensures value <= 0.0 ==> Ratio(value) == 0
    ensures value >= 1.0 ==> Ratio(value) == 1000000
    ensures 0.0 <= value <= 1.0 ==> Distance(Ratio(value), value * 1000000.0) <= Distance(n, value * 1000000.0)
    ensures 0.0 <= value <= 1.0 && Distance(Ratio(value), value * 1000000.0) == Distance(n, value * 1000000.0) ==>
              n == Ratio(value) || Ratio(value) % 2 == 0
  {
    if 0.0 <= value <= 1.0 {
      var scaled := value * MILLION;
      NearestEven(scaled, Ratio(value), n);
    }
  }

  lemma NearestEven(x: real, r: int, n: int)
    requires r == var part := x - x.Floor as real;
                  if part < 0.5 || (part == 0.5 && x.Floor % 2 == 0) then x.Floor else x.Floor + 1
    ensures Distance(r, x) <= Distance(n, x)
    ensures n != r && Distance(r, x) == Distance(n, x) ==> r % 2 == 0
  {
    var whole := x.Floor;
    if n <= whole {
      assert n as real <= whole as real;
    } else {
      assert n as real >= (whole + 1) as real;
    }
  }

  // The F1 score

  function PredictedAs(details: seq<Detail>, l: int): nat
  {
    Count(details, (d: Detail) => d.predicted == l)
  }

  function ExpectedAs(details: seq<Detail>, l: int): nat
  {
    Count(details, (d: Detail) => d.expected == l)
  }

  lemma {:induction false} OutcomesSplit(details: seq<Detail>, l: int)
    ensures TruePositives(details, l) + FalsePositives(details, l) == PredictedAs(details, l)
    ensures TruePositives(details, l) + FalseNegatives(details, l) == ExpectedAs(details, l)
  {
    if details != [] {
      OutcomesSplit(details[..|details|-1], l);
    }
  }

  /** The score is the harmonic mean of precision and recall, written without division. */
  lemma F1BalancesPrecisionAndRecall(details: seq<Detail>, l: int)
    ensures F1(details, l) * (PredictedAs(details, l) + ExpectedAs(details, l)) as real ==
            2.0 * TruePositives(details, l) as real
    ensures PredictedAs(details, l) + ExpectedAs(details, l) == 0 ==> F1(details, l) == 0.0
  {
    OutcomesSplit(details, l);
    var t := TruePositives(details, l);
    var n := 2 * t + FalsePositives(details, l) + FalseNegatives(details, l);
    assert n == PredictedAs(details, l) + ExpectedAs(details, l);
    hide TruePositives, FalsePositives, FalseNegatives, PredictedAs, ExpectedAs;
    if n != 0 {
      QuotientTimes(2 * t, n);
    }
  }

  lemma QuotientTimes(a: nat, b: nat)
    requires b != 0
    ensures a as real / b as real * b as real == a as real
  {
  }

  // Accepted results

  function Indices(details: seq<Detail>, p: Detail -> bool): set<int>
  {
    set i | 0 <= i < |details| && p(details[i])
  }

  lemma {:induction false} CountIsNumber(details: seq<Detail>, p: Detail -> bool)
    ensures Count(details, p) == |Indices(details, p)|
  {
    if details == [] {
      assert Indices(details, p) == {};
    } else {
      var init, n := details[..|details|-1], |details| - 1;
      CountIsNumber(init, p);
      assert Indices(details, p) == if p(details[n]) then Indices(init, p) + {n} else Indices(init, p);
    }
  }

  predicate RightAt(details: seq<Detail>, i: int)
  {
    0 <= i < |details| && details[i].predicted == details[i].expected
  }

  /** How many predictions were right. */
  function RightAnswers(details: seq<Detail>): nat
  {
    |set i | 0 <= i < |details| && RightAt(details, i)|
  }

  lemma HitsAreRight(details: seq<Detail>)
    requires forall i :: 0 <= i < |details| ==> details[i].correct == (details[i].predicted == details[i].expected)
    ensures Hits(details) == RightAnswers(details)
  {
    var p := (d: Detail) => d.correct;
    CountIsNumber(details, p);
    assert Indices(details, p) == set i | 0 <= i < |details| && RightAt(details, i);
  }

  /** A row says what it says about one example: binary labels, and marks that agree with them. */
  predicate RowOk(d: Detail)
  {
    && d.exampleId != "" && (d.predicted == 0 || d.predicted == 1) && (d.expected == 0 || d.expected == 1)
    && (d.correct <==> d.predicted == d.expected)
    && d.absoluteError == Magnitude(d.predicted - d.expected)
  }

  /** A stored result is accepted exactly when it has between one and ten thousand sound rows
      with ids of their own, as many as it claims, and its metrics are the rounded rate of
      right answers, mean of the two F1 scores and rate of wrong answers of those rows. */
  lemma AcceptedExactly(r: Result)
    ensures Accepted(r) <==>
            && r.provenance.seed >= 0 && 1 <= |r.details| <= 10000 && r.provenance.exampleCount == |r.details|
            && (forall i :: 0 <= i < |r.details| ==> RowOk(r.details[i]))
            && (forall i, j :: 0 <= i < j < |r.details| ==> r.details[i].exampleId != r.details[j].exampleId)
            && r.metrics.Keys == {Accuracy, MacroF1, MeanAbsoluteError}
            && r.metrics[Accuracy] == Ratio(RightAnswers(r.details) as real / |r.details| as real)
            && r.metrics[MacroF1] == Ratio((F1(r.details, 0) + F1(r.details, 1)) / 2.0)
            && r.metrics[MeanAbsoluteError] ==
               Ratio((|r.details| - RightAnswers(r.details)) as real / |r.details| as real)
  {
    var ds := r.details;
    assert forall d :: DetailOk(d) <==> RowOk(d);
    if ds != [] && forall i :: 0 <= i < |ds| ==> DetailOk(ds[i]) {
      assert forall i :: 0 <= i < |ds| ==> ds[i].correct == (ds[i].predicted == ds[i].expected);
      HitsAreRight(ds);
      ErrorsAreMisses(ds);
      hide Ratio, F1, RightAnswers, Hits, ErrorSum, DetailOk, RowOk;
      assert MetricsOf(ds)[Accuracy] == Ratio(RightAnswers(ds) as real / |ds| as real);
      assert MetricsOf(ds)[MeanAbsoluteError] == Ratio((|ds| - RightAnswers(ds)) as real / |ds| as real);
    } else {
      hide Ratio, F1, RightAnswers, Hits, ErrorSum, DetailOk, RowOk;
    }
  }

  /** A recomputation is refused exactly when the detail is empty or is not that of the
      examples; otherwise it keeps the predictions and marks each against its example. */
  lemma RecomputeExactly(r: Result, examples: seq<Example>, digest: seq<Example> -> string)
    ensures var again := Recompute(r, examples, digest);
            && (again.Some? <==>
                  && 0 < |r.details| == |examples| && r.provenance.datasetDigest == digest(examples)
                  && forall i :: 0 <= i < |examples| ==>
                       r.details[i].exampleId == examples[i].exampleId && r.details[i].expected == examples[i].truth)
            && (again.Some? ==>
                  && again.value.provenance == r.provenance && |again.value.details| == |r.details|
                  && (forall i :: 0 <= i < |r.details| ==>
                        var d, e := again.value.details[i], examples[i];
                        && d.exampleId == e.exampleId && d.expected == e.truth && d.predicted == r.details[i].predicted
                        && (d.correct <==> d.predicted == e.truth)
                        && d.absoluteError == if d.predicted < e.truth then e.truth - d.predicted
                                              else d.predicted - e.truth))
  {
    hide MetricsOf;
  }

  // The comparison

  predicate Shared(b: Result, c: Result, m: Metric)
  {
    m in b.metrics && m in c.metrics
  }

  /** A higher score is better, a lower error is better. */
  predicate BetterIn(b: Result, c: Result, m: Metric)
  {
    Shared(b, c, m) &&
    match m
    case Accuracy => b.metrics[m] < c.metrics[m]
    case MacroF1 => b.metrics[m] < c.metrics[m]
    case MeanAbsoluteError => c.metrics[m] < b.metrics[m]
  }

  lemma DirectionMeans(b: Result, c: Result, m: Metric)
    requires Shared(b, c, m)
    ensures DirectionOf(m, b.metrics[m], c.metrics[m]) == Better <==> BetterIn(b, c, m)
    ensures DirectionOf(m, b.metrics[m], c.metrics[m]) == Worse <==> BetterIn(c, b, m)
  {
  }

  lemma GoesMeans(b: Result, c: Result)
    ensures Goes(b.metrics, c.metrics, Better) <==> exists m :: BetterIn(b, c, m)
    ensures Goes(b.metrics, c.metrics, Worse) <==> exists m :: BetterIn(c, b, m)
  {
    forall m | Shared(b, c, m)
      ensures DirectionOf(m, b.metrics[m], c.metrics[m]) == Better <==> BetterIn(b, c, m)
      ensures DirectionOf(m, b.metrics[m], c.metrics[m]) == Worse <==> BetterIn(c, b, m)
    {
      DirectionMeans(b, c, m);
    }
    assert forall m :: BetterIn(b, c, m) || BetterIn(c, b, m) ==> Shared(b, c, m);
    forall m
      ensures m in REQUIRED_METRICS
    {
      AllMetrics(m);
    }
    hide DirectionOf, BetterIn;
    if m :| BetterIn(b, c, m) {
      assert Both(b.metrics, c.metrics, m);
    }
    if m :| BetterIn(c, b, m) {
      assert Both(b.metrics, c.metrics, m);
    }
  }

  predicate AreRatios(b: Result, c: Result, m: Metric)
    requires Shared(b, c, m)
  {
    0 <= b.metrics[m] <= 1000000 && 0 <= c.metrics[m] <= 1000000
  }

  /** Refused outright when the two were evaluated on different material; invalid exactly when
      a value that would be compared is not a ratio. */
  lemma ComparedWhen(b: Result, c: Result, fingerprint: Provenance -> string)
    ensures var r := Compared(b, c, fingerprint);
            && (fingerprint(b.provenance) != fingerprint(c.provenance) ==>
                  r.Comparison? && r.verdict == Incomparable && r.deltas == [] && r.refused)
            && (r.MetricInvalid? <==>
                  && fingerprint(b.provenance) == fingerprint(c.provenance)
                  && exists m :: Shared(b, c, m) && !AreRatios(b, c, m))
  {
    forall m
      ensures m in REQUIRED_METRICS
    {
      AllMetrics(m);
    }
    hide Missing, Deltas, VerdictOf;
    if !Comparable(b.metrics, c.metrics) {
      var m :| m in REQUIRED_METRICS && Both(b.metrics, c.metrics, m) && !InRange(b.metrics, c.metrics, m);
      assert Shared(b, c, m) && !AreRatios(b, c, m);
    } else {
      forall m | Shared(b, c, m)
        ensures AreRatios(b, c, m)
      {
        assert m in REQUIRED_METRICS && Both(b.metrics, c.metrics, m);
      }
    }
  }

  /** Each delta carries the baseline's and the candidate's own values and the direction from
      the one to the other, and every metric that both report has one. */
  lemma DeltasCarryValues(b: Result, c: Result, fingerprint: Provenance -> string)
    requires Compared(b, c, fingerprint).Comparison?
    requires fingerprint(b.provenance) == fingerprint(c.provenance)
    ensures var deltas := Compared(b, c, fingerprint).deltas;
            && (forall i :: 0 <= i < |deltas| ==>
                  && Shared(b, c, deltas[i].metric)
                  && deltas[i].baseline == b.metrics[deltas[i].metric]
                  && deltas[i].candidate == c.metrics[deltas[i].metric]
                  && (deltas[i].direction == Better <==> BetterIn(b, c, deltas[i].metric))
                  && (deltas[i].direction == Worse <==> BetterIn(c, b, deltas[i].metric)))
            && (forall m :: Shared(b, c, m) ==> exists i :: 0 <= i < |deltas| && deltas[i].metric == m)
  {
    DeltasAre(b.metrics, c.metrics, REQUIRED_METRICS);
    var deltas := Deltas(b.metrics, c.metrics, REQUIRED_METRICS);
    assert Compared(b, c, fingerprint).deltas == deltas;
    hide Compared, Deltas;
    forall i | 0 <= i < |deltas|
      ensures deltas[i].direction == Better <==> BetterIn(b, c, deltas[i].metric)
      ensures deltas[i].direction == Worse <==> BetterIn(c, b, deltas[i].metric)
    {
      DirectionMeans(b, c, deltas[i].metric);
    }
    forall m | Shared(b, c, m)
      ensures exists i :: 0 <= i < |deltas| && deltas[i].metric == m
    {
      AllMetrics(m);
      assert DeltaOf(b.metrics, c.metrics, m) in deltas;
    }
  }

  lemma {:induction false} MissingAre(b: Metrics, c: Metrics, ms: seq<Metric>, m: Metric)
    ensures m in Missing(b, c, ms) <==> m in ms && !(m in b && m in c)
  {
    if ms != [] {
      MissingAre(b, c, ms[..|ms|-1], m);
      assert ms == ms[..|ms|-1] + [ms[|ms|-1]];
    }
  }

  /** The verdict read off the values: improved means better somewhere and worse nowhere. */
  lemma VerdictMeans(b: Result, c: Result, fingerprint: Provenance -> string)
    requires Compared(b, c, fingerprint).Comparison?
    ensures var r := Compared(b, c, fingerprint);
            var better, worse := exists m :: BetterIn(b, c, m), exists m :: BetterIn(c, b, m);
            && (fingerprint(b.provenance) == fingerprint(c.provenance) ==>
                  && (r.verdict == Improved <==> better && !worse)
                  && (r.verdict == Regressed <==> worse && !better)
                  && (r.verdict == Unchanged <==> !better && !worse))
            && (r.refused <==> r.verdict == Incomparable)
            && (forall m :: m in r.missing <==> m !in b.metrics || m !in c.metrics)
  {
    GoesMeans(b, c);
    forall m
      ensures m in Missing(b.metrics, c.metrics, REQUIRED_METRICS) <==> m !in b.metrics || m !in c.metrics
    {
      MissingAre(b.metrics, c.metrics, REQUIRED_METRICS, m);
      AllMetrics(m);
    }
    hide Goes, BetterIn, Missing, Deltas, Comparable;
  }

  lemma {:induction false} DeltaCount(b: Metrics, c: Metrics, ms: seq<Metric>)
    ensures |Deltas(b, c, ms)| + |Missing(b, c, ms)| == |ms|
  {
    if ms != [] {
      DeltaCount(b, c, ms[..|ms|-1]);
    }
  }

  /** A comparison supports a conclusion exactly when both results report every metric as a
      ratio on the same material and no metric contradicts another. */
  lemma SupportsExactly(b: Result, c: Result, fingerprint: Provenance -> string)
    ensures SupportsConclusion(Compared(b, c, fingerprint)) <==>
            && fingerprint(b.provenance) == fingerprint(c.provenance)
            && (forall m :: Shared(b, c, m) && AreRatios(b, c, m))
            && !((exists m :: BetterIn(b, c, m)) && exists m :: BetterIn(c, b, m))
  {
    var r := Compared(b, c, fingerprint);
    ComparedWhen(b, c, fingerprint);
    if r.Comparison? {
      VerdictMeans(b, c, fingerprint);
      NoneMissing(b, c, r);
      if fingerprint(b.provenance) == fingerprint(c.provenance) {
        DeltaCount(b.metrics, c.metrics, REQUIRED_METRICS);
        assert |r.deltas| + |r.missing| == 3;
      }
    }
    hide Compared, BetterIn, AreRatios;
  }

  lemma NoneMissing(b: Result, c: Result, r: Comparison)
    requires r.Comparison? && forall m :: m in r.missing <==> m !in b.metrics || m !in c.metrics
    ensures r.missing == [] <==> forall m :: Shared(b, c, m)
  {
    if r.missing != [] {
      assert r.missing[0] in r.missing;
      assert !Shared(b, c, r.missing[0]);
    }
  }
}
