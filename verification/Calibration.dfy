/** The search for the escalation threshold; thresholds are in hundredths, rates in millionths. */
module Calibration {
  import opened Wrappers
  import opened Runes
  import opened CalibrationDataset
  import opened Rates

  const TARGET := 60
  const LOWEST := 55
  const HIGHEST := 65
  const MAX_FALSE_POSITIVE_RATE := 50_000

  /** What calibration reads of a sample. */
  datatype Scored = Scored(expected: bool, confidence: Num)

  datatype Matrix = Matrix(tp: nat, fp: nat, tn: nat, fn: nat)

  /** `predicted_escalate`. */
  predicate Escalates(confidence: Num, threshold: int) {
    match confidence
    case Finite(v) => v < threshold as real / 100.0
    case Infinite(negative) => negative
    case _ => false
  }

  function Count(samples: seq<Scored>, p: Scored -> bool): (n: nat)
    ensures n <= |samples|
  {
    if samples == [] then 0
    else Count(samples[..|samples| - 1], p) + if p(samples[|samples| - 1]) then 1 else 0
  }

  function Positives(samples: seq<Scored>): nat {
    Count(samples, (s: Scored) => s.expected)
  }

  function Negatives(samples: seq<Scored>): nat {
    Count(samples, (s: Scored) => !s.expected)
  }

  /** The number of samples that are expected to escalate, or not to, and that a threshold escalates. */
  function Escalated(samples: seq<Scored>, expected: bool, threshold: int): nat {
    Count(samples, (s: Scored) => s.expected == expected && Escalates(s.confidence, threshold))
  }

  function MatrixOf(samples: seq<Scored>, threshold: int): Matrix {
    Matrix(Escalated(samples, true, threshold),
           Escalated(samples, false, threshold),
           Count(samples, (s: Scored) => !s.expected && !Escalates(s.confidence, threshold)),
           Count(samples, (s: Scored) => s.expected && !Escalates(s.confidence, threshold)))
  }

  /** `_confusion_matrix`. */
  method ConfusionMatrix(samples: seq<Scored>, threshold: int) returns (m: Matrix)
    ensures m == MatrixOf(samples, threshold)
  {
    hide Escalates;
    var tp, fp, tn, fn := 0, 0, 0, 0;
    for i := 0 to |samples|
      invariant Matrix(tp, fp, tn, fn) == MatrixOf(samples[..i], threshold)
    {
      assert samples[..i + 1][..i] == samples[..i];
      var expected := samples[i].expected;
      var predicted := Escalates(samples[i].confidence, threshold);
      if expected && predicted {
        tp := tp + 1;
      } else if expected && !predicted {
        fn := fn + 1;
      } else if !expected && predicted {
        fp := fp + 1;
      } else {
        tn := tn + 1;
      }
    }
    assert samples[..|samples|] == samples;
    m := Matrix(tp, fp, tn, fn);
  }

  /** The two rates of `_metrics` that the gates read. */
  function Recall(m: Matrix): nat {
    SafeRate(m.tp, m.tp + m.fn)
  }

  function FalsePositiveRate(m: Matrix): nat {
    SafeRate(m.fp, m.fp + m.tn)
  }

  predicate Passes(samples: seq<Scored>, threshold: int, minRecall: nat) {
    var m := MatrixOf(samples, threshold);
    Recall(m) >= minRecall && FalsePositiveRate(m) <= MAX_FALSE_POSITIVE_RATE
  }

  function Distance(threshold: int): nat {
    if threshold < TARGET then TARGET - threshold else threshold - TARGET
  }

  /** The key of the selection: nearest to the target, then lower. */
  predicate Preferred(a: int, b: int) {
    Distance(a) < Distance(b) || (Distance(a) == Distance(b) && a <= b)
  }

  /** The first of the preferred members, as `min` returns it. */
  method Select(passing: seq<int>) returns (best: int)
    requires passing != []
    ensures best in passing && forall t :: t in passing ==> Preferred(best, t)
  {
    best := passing[0];
    for i := 1 to |passing|
      invariant best in passing[..i] && forall t :: t in passing[..i] ==> Preferred(best, t)
    {
      if !Preferred(best, passing[i]) {
        best := passing[i];
      }
      assert passing[..i + 1] == passing[..i] + [passing[i]];
    }
    assert passing[..|passing|] == passing;
  }

  /** The nearest passing candidate, the lower of two equally near ones; nothing when no candidate passes. */
  ghost predicate Recommended(samples: seq<Scored>, candidates: seq<int>, minRecall: nat, r: Option<int>) {
    && (r.None? <==> forall t :: t in candidates ==> !Passes(samples, t, minRecall))
    && (r.Some? ==> r.value in candidates && Passes(samples, r.value, minRecall)
                    && forall t :: t in candidates && Passes(samples, t, minRecall) ==>
                         || Distance(r.value) < Distance(t)
                         || (Distance(r.value) == Distance(t) && r.value <= t))
  }

  /** `_recommend_threshold`; nothing stands for the error it raises. */
  method RecommendThreshold(samples: seq<Scored>, candidates: seq<int>, minRecall: nat) returns (r: Option<int>)
    ensures Recommended(samples, candidates, minRecall, r)
  {
    hide MatrixOf, Recall, FalsePositiveRate;
    var passing: seq<int> := [];
    for i := 0 to |candidates|
      invariant forall t :: t in passing <==> t in candidates[..i] && Passes(samples, t, minRecall)
    {
      var m := ConfusionMatrix(samples, candidates[i]);
      if Recall(m) >= minRecall && FalsePositiveRate(m) <= MAX_FALSE_POSITIVE_RATE {
        passing := passing + [candidates[i]];
      }
      assert candidates[..i + 1] == candidates[..i] + [candidates[i]];
    }
    assert candidates[..|candidates|] == candidates;
    if passing == [] {
      return None;
    }
    var best := Select(passing);
    return Some(best);
  }

  // ----- the gates are monotone

  lemma CountMonotone(samples: seq<Scored>, p: Scored -> bool, q: Scored -> bool)
    requires forall s :: s in samples && p(s) ==> q(s)
    ensures Count(samples, p) <= Count(samples, q)
  {
  }

  lemma CountSplits(samples: seq<Scored>, p: Scored -> bool, q: Scored -> bool, both: Scored -> bool)
    requires forall s :: s in samples ==> (both(s) <==> p(s) || q(s)) && !(p(s) && q(s))
    ensures Count(samples, p) + Count(samples, q) == Count(samples, both)
  {
  }

  /** The rows of the matrix add up to the numbers of samples of each kind, whatever the threshold. */
  lemma MatrixRows(samples: seq<Scored>, threshold: int)
    ensures var m := MatrixOf(samples, threshold);
            m.tp + m.fn == Positives(samples) && m.fp + m.tn == Negatives(samples)
  {
    CountSplits(samples, (s: Scored) => s.expected == true && Escalates(s.confidence, threshold),
                (s: Scored) => s.expected && !Escalates(s.confidence, threshold), (s: Scored) => s.expected);
    CountSplits(samples, (s: Scored) => s.expected == false && Escalates(s.confidence, threshold),
                (s: Scored) => !s.expected && !Escalates(s.confidence, threshold), (s: Scored) => !s.expected);
  }

  lemma EscalatesMonotone(confidence: Num, low: int, high: int)
    requires low <= high && Escalates(confidence, low)
    ensures Escalates(confidence, high)
  {
  }

  /** A higher threshold escalates more samples of either kind. */
  lemma EscalatedMonotone(samples: seq<Scored>, expected: bool, low: int, high: int)
    requires low <= high
    ensures Escalated(samples, expected, low) <= Escalated(samples, expected, high)
  {
    forall s | s in samples && Escalates(s.confidence, low)
      ensures Escalates(s.confidence, high)
    {
      EscalatesMonotone(s.confidence, low, high);
    }
    hide Escalates;
    CountMonotone(samples, (s: Scored) => s.expected == expected && Escalates(s.confidence, low),
                  (s: Scored) => s.expected == expected && Escalates(s.confidence, high));
  }

  /** Raising the threshold never lowers the rounded recall nor the rounded false-positive rate. */
  lemma RatesMonotone(samples: seq<Scored>, low: int, high: int)
    requires low <= high
    ensures Recall(MatrixOf(samples, low)) <= Recall(MatrixOf(samples, high))
    ensures FalsePositiveRate(MatrixOf(samples, low)) <= FalsePositiveRate(MatrixOf(samples, high))
  {
    MatrixRows(samples, low);
    MatrixRows(samples, high);
    EscalatedMonotone(samples, true, low, high);
    EscalatedMonotone(samples, false, low, high);
    hide Escalated, SafeRate;
    SafeRateMonotone(Escalated(samples, true, low), Escalated(samples, true, high), Positives(samples));
    SafeRateMonotone(Escalated(samples, false, low), Escalated(samples, false, high), Negatives(samples));
  }

  /** Between two thresholds that pass both gates every threshold passes. */
  lemma PassingIsConvex(samples: seq<Scored>, minRecall: nat, low: int, t: int, high: int)
    requires low <= t <= high && Passes(samples, low, minRecall) && Passes(samples, high, minRecall)
    ensures Passes(samples, t, minRecall)
  {
    RatesMonotone(samples, low, t);
    RatesMonotone(samples, t, high);
    hide MatrixOf, Recall, FalsePositiveRate;
  }

  // ----- the search is a clamp

  /** `_candidate_thresholds`. */
  function Candidates(low: int, high: int): (c: seq<int>)
    ensures forall t :: t in c <==> low <= t <= high
    decreases high - low
  {
    if low > high then [] else [low] + Candidates(low + 1, high)
  }

  /** The candidates that pass are exactly those from `first` to `last`. */
  ghost predicate PassingInterval(samples: seq<Scored>, candidates: seq<int>, minRecall: nat, first: int, last: int) {
    forall t :: t in candidates && Passes(samples, t, minRecall) <==> first <= t <= last
  }

  function Clamp(t: int, first: int, last: int): int {
    if t < first then first else if t > last then last else t
  }

  /** Whatever the samples, the passing candidates of a range of hundredths form an interval. */
  lemma PassingIsAnInterval(samples: seq<Scored>, low: int, high: int, minRecall: nat) returns (first: int, last: int)
    ensures PassingInterval(samples, Candidates(low, high), minRecall, first, last)
  {
    hide Passes;
    first := low;
    while first <= high && !Passes(samples, first, minRecall)
      invariant low <= first && forall t :: low <= t < first && t <= high ==> !Passes(samples, t, minRecall)
      decreases high - first
    {
      first := first + 1;
    }
    last := high;
    while last >= first && !Passes(samples, last, minRecall)
      invariant forall t :: last < t <= high ==> !Passes(samples, t, minRecall) || t < first
      invariant last <= high
      decreases last - first
    {
      last := last - 1;
    }
    forall t | low <= first <= t <= last <= high ensures Passes(samples, t, minRecall) {
      PassingIsConvex(samples, minRecall, first, t, last);
    }
  }

  /** The search returns the target clamped into the interval, and raises exactly when the interval is empty. */
  lemma RecommendationIsClamp(samples: seq<Scored>, low: int, high: int, minRecall: nat, first: int, last: int,
      r: Option<int>)
    requires PassingInterval(samples, Candidates(low, high), minRecall, first, last)
    requires Recommended(samples, Candidates(low, high), minRecall, r)
    ensures r == if first <= last then Some(Clamp(TARGET, first, last)) else None
  {
    hide Passes, Candidates;
    var candidates := Candidates(low, high);
    if first <= last {
      assert first in candidates && Passes(samples, first, minRecall);
      var best := Clamp(TARGET, first, last);
      assert best in candidates && Passes(samples, best, minRecall);
      assert Preferred(r.value, best);
    } else {
      forall t | t in candidates ensures !Passes(samples, t, minRecall) {
      }
    }
  }

  /** The second half of the selection key never decides: no other passing candidate is as near to the target. */
  lemma TieBreakNeverDecides(samples: seq<Scored>, low: int, high: int, minRecall: nat, best: int, other: int)
    requires Recommended(samples, Candidates(low, high), minRecall, Some(best))
    requires low <= other <= high && Passes(samples, other, minRecall) && other != best
    ensures Distance(best) < Distance(other)
  {
    hide Passes;
    var candidates := Candidates(low, high);
    assert best in candidates && Passes(samples, best, minRecall);
    assert Preferred(best, other);
    if best < other {
      MiddlePasses(samples, low, high, minRecall, best, other);
    } else {
      MiddlePasses(samples, low, high, minRecall, other, best);
    }
  }

  /** Between two passing candidates on either side of the target the target itself passes. */
  lemma MiddlePasses(samples: seq<Scored>, low: int, high: int, minRecall: nat, a: int, b: int)
    requires low <= a <= b <= high && Passes(samples, a, minRecall) && Passes(samples, b, minRecall)
    ensures a <= TARGET <= b ==> TARGET in Candidates(low, high) && Passes(samples, TARGET, minRecall)
  {
    hide Passes;
    if a <= TARGET <= b {
      PassingIsConvex(samples, minRecall, a, TARGET, b);
    }
  }

  // ----- calibrating a dataset

  function Score(s: Sample): Scored {
    if s.Sample? && s.expected.Flag? && s.confidence.Number? then Scored(s.expected.value, s.confidence.num)
    else Scored(false, NotANumber)
  }

  function Scores(samples: seq<Sample>): (r: seq<Scored>)
    ensures |r| == |samples| && forall i :: 0 <= i < |samples| ==> r[i] == Score(samples[i])
  {
    seq(|samples|, i requires 0 <= i < |samples| => Score(samples[i]))
  }

  /** `_min_recall_for_stage`, in hundredths. */
  function MinRecallPercent(stage: Field): nat {
    if stage == Str(Lit("M5")) then 98 else 95
  }

  /** Both gates, by exact comparison of the counts. */
  predicate MeetsPolicy(samples: seq<Scored>, threshold: int, percent: nat) {
    && AtLeast(Escalated(samples, true, threshold), Positives(samples), percent)
    && AtMost(Escalated(samples, false, threshold), Negatives(samples), 5)
  }

  lemma CountPositive(samples: seq<Scored>, p: Scored -> bool, i: nat)
    requires i < |samples| && p(samples[i])
    ensures Count(samples, p) > 0
  {
    if i < |samples| - 1 {
      CountPositive(samples[..|samples| - 1], p, i);
    }
  }

  /** A valid dataset has at most 200 samples, and some of either kind. */
  lemma ValidSizes(d: Dataset, forbidden: Text -> bool)
    requires ValidDataset(d, forbidden)
    ensures var samples := Scores(d.samples.value);
            && 0 < Positives(samples) <= 200 && 0 < Negatives(samples) <= 200
            && Positives(samples) + Negatives(samples) == |samples|
  {
    hide ValidSample;
    var raw, samples := d.samples.value, Scores(d.samples.value);
    var i :| 0 <= i < |raw| && Complete(raw[i]) && raw[i].expected == Flag(true);
    var j :| 0 <= j < |raw| && Complete(raw[j]) && raw[j].expected == Flag(false);
    ScoredAs(d, forbidden, i);
    ScoredAs(d, forbidden, j);
    CountPositive(samples, (s: Scored) => s.expected, i);
    CountPositive(samples, (s: Scored) => !s.expected, j);
    CountSplits(samples, (s: Scored) => s.expected, (s: Scored) => !s.expected, (s: Scored) => true);
    CountAll(samples);
  }

  lemma ScoredAs(d: Dataset, forbidden: Text -> bool, i: nat)
    requires ValidDataset(d, forbidden) && i < |d.samples.value|
    ensures var s := d.samples.value[i];
            s.Sample? && s.expected.Flag? && Scores(d.samples.value)[i].expected == s.expected.value
  {
    hide NonBlank, RightId, NeedsExcerpt, TargetCount, HasCategory, HasExpected;
    assert ValidSample(d.samples.value[i], i + 1, forbidden);
  }

  lemma CountAll(samples: seq<Scored>)
    ensures Count(samples, (s: Scored) => true) == |samples|
  {
  }

  /** On a valid dataset the rounded gates decide as the exact ones. */
  lemma ValidGatesExact(d: Dataset, forbidden: Text -> bool, threshold: int)
    requires ValidDataset(d, forbidden)
    ensures var samples, percent := Scores(d.samples.value), MinRecallPercent(d.stage);
            Passes(samples, threshold, percent * 10_000) <==> MeetsPolicy(samples, threshold, percent)
  {
    hide ValidDataset, Scores, MinRecallPercent, Passes, MeetsPolicy, Positives, Negatives;
    ValidSizes(d, forbidden);
    GatesExact(Scores(ValidSamples(d, forbidden)), threshold, MinRecallPercent(d.stage));
  }

  lemma GatesExact(samples: seq<Scored>, threshold: int, percent: nat)
    requires 0 < Positives(samples) < 20_000 && 0 < Negatives(samples) < 20_000
    ensures Passes(samples, threshold, percent * 10_000) <==> MeetsPolicy(samples, threshold, percent)
  {
    MatrixRows(samples, threshold);
    hide Escalated, SafeRate, Positives, Negatives, Count, AtLeast, AtMost;
    RoundingHarmless(Escalated(samples, true, threshold), Positives(samples), percent);
    RoundingHarmless(Escalated(samples, false, threshold), Negatives(samples), 5);
  }

  /** How a calibration ends. */
  datatype Outcome = Recommends(threshold: int, matrix: Matrix) | Invalid(verdict: Verdict) | BadRange | NoThreshold

  predicate GoodRange(low: int, high: int) {
    LOWEST <= low <= high <= HIGHEST
  }

  /**
   How a calibration must end: with the threshold nearest to the target among those of the range that meet the
   policy by exact comparison, and its matrix, or without one exactly when none meets it.
   */
  ghost predicate IsCalibration(d: Dataset, forbidden: Text -> bool, low: int, high: int, r: Outcome) {
    if !ValidDataset(d, forbidden) then r.Invalid?
    else if !GoodRange(low, high) then r.BadRange?
    else
      var samples, percent := Scores(d.samples.value), MinRecallPercent(d.stage);
      if r.Recommends? then
        && low <= r.threshold <= high && MeetsPolicy(samples, r.threshold, percent)
        && r.matrix == MatrixOf(samples, r.threshold)
        && (forall t :: low <= t <= high && t != r.threshold && MeetsPolicy(samples, t, percent) ==>
              Distance(r.threshold) < Distance(t))
      else r.NoThreshold? && forall t :: low <= t <= high ==> !MeetsPolicy(samples, t, percent)
  }

  /** No two outcomes qualify for a valid dataset. */
  lemma CalibrationUnique(d: Dataset, forbidden: Text -> bool, low: int, high: int, a: Outcome, b: Outcome)
    requires IsCalibration(d, forbidden, low, high, a)
    ensures ValidDataset(d, forbidden) ==> (IsCalibration(d, forbidden, low, high, b) <==> a == b)
  {
    hide ValidDataset, MeetsPolicy, MatrixOf;
  }

  /** `calibrate_dataset` on bounds in whole hundredths. */
  method CalibrateDataset(d: Dataset, forbidden: Text -> bool, low: int, high: int) returns (r: Outcome)
    ensures IsCalibration(d, forbidden, low, high, r)
    ensures r.Invalid? <==> !ValidDataset(d, forbidden)
  {
    hide ValidDataset, MatrixOf, Passes, MeetsPolicy;
    var verdict := ValidateDataset(d, forbidden);
    if !verdict.Accepted? {
      return Invalid(verdict);
    }
    if !GoodRange(low, high) {
      return BadRange;
    }
    var raw := ValidSamples(d, forbidden);
    var samples, percent := Scores(raw), MinRecallPercent(d.stage);
    var best := RecommendThreshold(samples, Candidates(low, high), percent * 10_000);
    forall t ensures Passes(samples, t, percent * 10_000) <==> MeetsPolicy(samples, t, percent) {
      ValidGatesExact(d, forbidden, t);
    }
    if best.None? {
      return NoThreshold;
    }
    forall t | low <= t <= high && t != best.value && MeetsPolicy(samples, t, percent)
      ensures Distance(best.value) < Distance(t)
    {
      TieBreakNeverDecides(samples, low, high, percent * 10_000, best.value, t);
    }
    var m := ConfusionMatrix(samples, best.value);
    return Recommends(best.value, m);
  }

  function ValidSamples(d: Dataset, forbidden: Text -> bool): (samples: seq<Sample>)
    requires ValidDataset(d, forbidden)
    ensures d.samples == Some(samples)
  {
    d.samples.value
  }
}
