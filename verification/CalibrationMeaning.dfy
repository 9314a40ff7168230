/** What a calibration gives, said of the samples themselves: which of them count in which cell. */
module CalibrationMeaning {
  import opened Wrappers
  import opened Runes
  import opened CalibrationDataset
  import opened Calibration
  import Rates

  /** A confidence that is lower than a threshold in hundredths; `NaN` is lower than none. */
  predicate IsBelow(confidence: Num, threshold: int) {
    match confidence
    case Finite(v) => 100.0 * v < threshold as real
    case Infinite(negative) => negative
    case NotANumber => false
    case TooLarge => false
  }

  lemma {:induction false} BelowIs(confidence: Num, threshold: int)
    ensures IsBelow(confidence, threshold) <==> Escalates(confidence, threshold)
  {
  }

  /** A cell of the matrix: the samples of a kind that a threshold escalates, or does not. */
  function Cell(samples: seq<Scored>, expected: bool, escalated: bool, threshold: int): set<nat> {
    set i: nat | i < |samples| && samples[i].expected == expected
                 && (IsBelow(samples[i].confidence, threshold) <==> escalated)
  }

  function Kind(samples: seq<Scored>, expected: bool): set<nat> {
    set i: nat | i < |samples| && samples[i].expected == expected
  }

  function Where(samples: seq<Scored>, p: Scored -> bool): set<nat> {
    set i: nat | i < |samples| && p(samples[i])
  }

  /** Counting is counting the positions. */
  lemma {:induction false} CountIsSize(samples: seq<Scored>, p: Scored -> bool)
    ensures Count(samples, p) == |Where(samples, p)|
  {
    if samples != [] {
      var n := |samples| - 1;
      CountIsSize(samples[..n], p);
      assert Where(samples, p) == Where(samples[..n], p) + if p(samples[n]) then {n} else {};
    }
  }

  /** The four counts are the sizes of the cells. */
  lemma {:induction false} MatrixIsCells(samples: seq<Scored>, threshold: int)
    ensures var m := MatrixOf(samples, threshold);
            && m.tp == |Cell(samples, true, true, threshold)| && m.fp == |Cell(samples, false, true, threshold)|
            && m.tn == |Cell(samples, false, false, threshold)| && m.fn == |Cell(samples, true, false, threshold)|
  {
    forall confidence ensures IsBelow(confidence, threshold) <==> Escalates(confidence, threshold) {
      BelowIs(confidence, threshold);
    }
    CellIsWhere(samples, true, true, threshold,
                (s: Scored) => s.expected == true && Escalates(s.confidence, threshold));
    CellIsWhere(samples, false, true, threshold,
                (s: Scored) => s.expected == false && Escalates(s.confidence, threshold));
    CellIsWhere(samples, false, false, threshold, (s: Scored) => !s.expected && !Escalates(s.confidence, threshold));
    CellIsWhere(samples, true, false, threshold, (s: Scored) => s.expected && !Escalates(s.confidence, threshold));
    hide Count, Cell, IsBelow, Escalates;
  }

  lemma {:induction false} CellIsWhere(
      samples: seq<Scored>, expected: bool, escalated: bool, threshold: int, p: Scored -> bool)
    requires forall s: Scored :: p(s) <==>
               s.expected == expected && (IsBelow(s.confidence, threshold) <==> escalated)
    ensures Count(samples, p) == |Cell(samples, expected, escalated, threshold)|
  {
    hide IsBelow;
    CountIsSize(samples, p);
    assert Where(samples, p) == Cell(samples, expected, escalated, threshold);
  }

  lemma {:induction false} KindIsCounted(samples: seq<Scored>)
    ensures Positives(samples) == |Kind(samples, true)| && Negatives(samples) == |Kind(samples, false)|
  {
    CountIsSize(samples, (s: Scored) => s.expected);
    CountIsSize(samples, (s: Scored) => !s.expected);
    assert Where(samples, (s: Scored) => s.expected) == Kind(samples, true);
    assert Where(samples, (s: Scored) => !s.expected) == Kind(samples, false);
  }

  /** A confidence exactly at the threshold does not escalate, and does one hundredth higher. */
  lemma {:induction false} AtTheThreshold(samples: seq<Scored>, i: nat, v: real, threshold: int)
    requires i < |samples| && samples[i].confidence == Finite(v) && 100.0 * v == threshold as real
    ensures i in Cell(samples, samples[i].expected, false, threshold)
    ensures i in Cell(samples, samples[i].expected, true, threshold + 1)
    ensures !Escalates(samples[i].confidence, threshold) && Escalates(samples[i].confidence, threshold + 1)
  {
    BelowIs(samples[i].confidence, threshold);
    BelowIs(samples[i].confidence, threshold + 1);
  }

  /** At a threshold, enough samples of one kind are escalated and few enough of the other. */
  predicate Meets(samples: seq<Scored>, threshold: int, percent: nat) {
    && 100 * |Cell(samples, true, true, threshold)| >= percent * |Kind(samples, true)|
    && 100 * |Cell(samples, false, true, threshold)| <= 5 * |Kind(samples, false)|
  }

  lemma {:induction false} MeetsIs(samples: seq<Scored>, threshold: int, percent: nat)
    ensures MeetsPolicy(samples, threshold, percent) <==> Meets(samples, threshold, percent)
  {
    KindIsCounted(samples);
    MatrixIsCells(samples, threshold);
    hide Cell, Kind, Positives, Negatives, Escalated;
  }

  function Gap(a: int, b: int): nat {
    if a < b then b - a else a - b
  }

  /** What calibration reads of a valid dataset: the expectation and the confidence of each sample, in order. */
  ghost predicate AreScores(d: Dataset, samples: seq<Scored>) {
    && d.samples.Some? && |samples| == |d.samples.value|
    && forall i :: 0 <= i < |samples| ==>
         && d.samples.value[i].Sample?
         && d.samples.value[i].expected == Flag(samples[i].expected)
         && d.samples.value[i].confidence == Number(samples[i].confidence)
  }

  /**
   A valid dataset calibrates to the meeting threshold that is strictly nearest to 0.60, with the sizes of its cells.
   */
  ghost predicate IsResult(samples: seq<Scored>, percent: nat, low: int, high: int, r: Outcome) {
    if low < 55 || 65 < high || high < low then r == BadRange
    else if forall t :: low <= t <= high ==> !Meets(samples, t, percent) then r == NoThreshold
    else
      && r.Recommends? && low <= r.threshold <= high && Meets(samples, r.threshold, percent)
      && (forall t :: low <= t <= high && t != r.threshold && Meets(samples, t, percent) ==>
            Gap(r.threshold, 60) < Gap(t, 60))
      && r.matrix.tp == |Cell(samples, true, true, r.threshold)|
      && r.matrix.fp == |Cell(samples, false, true, r.threshold)|
      && r.matrix.tn == |Cell(samples, false, false, r.threshold)|
      && r.matrix.fn == |Cell(samples, true, false, r.threshold)|
  }

  lemma {:induction false} ScoresAre(d: Dataset, forbidden: Text -> bool)
    requires ValidDataset(d, forbidden)
    ensures d.samples.Some? && AreScores(d, Scores(d.samples.value))
  {
    hide ValidDataset, Score;
    var raw := ValidSamples(d, forbidden);
    forall i | 0 <= i < |raw|
      ensures raw[i].Sample? && raw[i].expected == Flag(Score(raw[i]).expected)
      ensures raw[i].confidence == Number(Score(raw[i]).confidence) {
      SampleScored(d, forbidden, i);
    }
  }

  lemma {:induction false} SampleScored(d: Dataset, forbidden: Text -> bool, i: nat)
    requires ValidDataset(d, forbidden) && i < |d.samples.value|
    ensures var s := d.samples.value[i];
            && s.Sample? && s.expected == Flag(Score(s).expected) && s.confidence == Number(Score(s).confidence)
  {
    hide NonBlank, RightId, NeedsExcerpt, TargetCount, HasCategory, HasExpected, RequiredCategories;
    assert ValidSample(d.samples.value[i], i + 1, forbidden);
  }

  lemma {:induction false} SameScores(d: Dataset, a: seq<Scored>, b: seq<Scored>)
    requires AreScores(d, a) && AreScores(d, b)
    ensures a == b
  {
    forall i | 0 <= i < |a| ensures a[i] == b[i] {
      assert d.samples.value[i].expected == Flag(a[i].expected);
    }
  }

  lemma {:induction false} GapIs(t: int)
    ensures Distance(t) == Gap(t, 60)
  {
  }

  /**
   The outcome of a calibration, for every valid dataset and every range: the threshold of the range nearest to 0.60 at
   which 95 percent, 98 in stage M5, of the samples to escalate do so and at most 5 percent of the others.
   */
  lemma {:induction false} CalibrationMeans(
      d: Dataset, forbidden: Text -> bool, samples: seq<Scored>, low: int, high: int, r: Outcome)
    requires ValidDataset(d, forbidden) && AreScores(d, samples)
    ensures IsCalibration(d, forbidden, low, high, r) <==>
            IsResult(samples, if d.stage == Str(Lit("M5")) then 98 else 95, low, high, r)
  {
    hide ValidDataset, AreScores, Meets, MeetsPolicy, Cell, Scores, Lit, Gap, Distance, MatrixOf;
    ScoresAre(d, forbidden);
    SameScores(d, samples, Scores(d.samples.value));
    var percent: nat := if d.stage == Str(Lit("M5")) then 98 else 95;
    forall t ensures MeetsPolicy(samples, t, percent) <==> Meets(samples, t, percent) {
      MeetsIs(samples, t, percent);
    }
    forall t ensures Distance(t) == Gap(t, 60) {
      GapIs(t);
    }
    assert percent == MinRecallPercent(d.stage);
    assert GoodRange(low, high) <==> !(low < 55 || 65 < high || high < low);
    assert (forall t :: low <= t <= high ==> !Meets(samples, t, percent))
      <==> (forall t :: low <= t <= high ==> !MeetsPolicy(samples, t, percent));
    if r.Recommends? {
      MatrixIsCells(samples, r.threshold);
      var m := MatrixOf(samples, r.threshold);
      assert r.matrix == m <==>
             r.matrix.tp == m.tp && r.matrix.fp == m.fp && r.matrix.tn == m.tn && r.matrix.fn == m.fn;
    }
  }
}
