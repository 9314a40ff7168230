/** What a calibration dataset must be, said of its fields one by one. */
module DatasetMeaning {
  import opened Wrappers
  import opened Runes
  import opened CalibrationDataset

  /** A string with something on it. */
  predicate HasText(f: Field) {
    f.Str? && exists k :: 0 <= k < |f.text| && !IsSpace(f.text[k])
  }

  lemma {:induction false} TextIs(f: Field)
    ensures HasText(f) <==> NonBlank(f)
  {
    if f.Str? {
      BlankIs(f.text);
    }
  }

  lemma {:induction false} BlankIs(t: Text)
    ensures Strip(t) == [] <==> forall k :: 0 <= k < |t| ==> IsSpace(t[k])
  {
    hide IsSpace, LStrip, RStrip;
    var l := LStrip(t);
    assert l != [] ==> l[0] == t[|t| - |l|];
    assert RStrip(l) == [] ==> l == [];
    assert l == [] ==> RStrip(l) == [];
  }

  predicate IsDigitRune(c: Rune) {
    '0' as int <= c <= '9' as int
  }

  /** The id with a number: the prefix and the number in three digits. */
  predicate IsId(f: Field, n: nat) {
    && f.Str? && |f.text| == 17 && f.text[..14] == Lit("critic-cal-v1-")
    && IsDigitRune(f.text[14]) && IsDigitRune(f.text[15]) && IsDigitRune(f.text[16])
    && n == 100 * (f.text[14] - '0' as int) + 10 * (f.text[15] - '0' as int) + (f.text[16] - '0' as int)
  }

  lemma {:induction false} IdIs(f: Field, n: nat)
    ensures IsId(f, n) <==> RightId(f, n)
  {
    var prefix := Lit("critic-cal-v1-");
    assert |prefix| == 14;
    if n < 1000 {
      FromDigits(n);
      var id := ExpectedId(n);
      assert id[..14] == prefix && id[14] == Digit(n / 100) && id[15] == Digit(n / 10 % 10) && id[16] == Digit(n % 10);
      hide Lit;
      if IsId(f, n) {
        DigitsUnique(n, f.text[14] - '0' as int, f.text[15] - '0' as int, f.text[16] - '0' as int);
        assert f.text == f.text[..14] + [f.text[14], f.text[15], f.text[16]];
      }
    }
  }

  lemma {:induction false} DigitsUnique(n: nat, a: int, b: int, c: int)
    requires 0 <= a < 10 && 0 <= b < 10 && 0 <= c < 10 && n == 100 * a + 10 * b + c
    ensures a == n / 100 && b == n / 10 % 10 && c == n % 10
  {
    assert n / 10 == 10 * a + b;
  }

  /** A confidence that passes: a number in [0, 1], or `NaN`. */
  predicate IsConfidence(f: Field) {
    && f.Number? && (f.num.Finite? ==> 0.0 <= f.num.value <= 1.0)
    && !f.num.Infinite? && !f.num.TooLarge?
  }

  /** A sample with a number. */
  predicate IsSample(s: Sample, n: nat, forbidden: Text -> bool) {
    && s.Sample? && IsId(s.id, n)
    && HasText(s.prompt) && HasText(s.reason) && HasText(s.category) && HasText(s.story) && !forbidden(s.prompt.text)
    && s.expected.Flag? && IsConfidence(s.confidence)
    && (s.story == Str(Lit("M3.5b")) || s.story == Str(Lit("M5")) ==>
          HasText(s.excerpt) && |s.excerpt.text| <= 280 && !forbidden(s.excerpt.text))
  }

  lemma {:induction false} ConfidenceIs(f: Field)
    ensures IsConfidence(f) <==> ConfidenceAccepted(f)
  {
  }

  lemma {:induction false} SampleIs(s: Sample, n: nat, forbidden: Text -> bool)
    ensures IsSample(s, n, forbidden) <==> ValidSample(s, n, forbidden)
  {
    hide IsId, RightId, HasText, NonBlank, Lit, IsConfidence, ConfidenceAccepted;
    if s.Sample? {
      IdIs(s.id, n);
      TextIs(s.prompt);
      TextIs(s.reason);
      TextIs(s.category);
      TextIs(s.story);
      TextIs(s.excerpt);
      ConfidenceIs(s.confidence);
      NotAbsent(s.id, n);
      StringsOnly(s.prompt);
      StringsOnly(s.reason);
      StringsOnly(s.category);
      StringsOnly(s.story);
      StringsOnly(s.excerpt);
      AConfidence(s.confidence);
    }
  }

  lemma {:induction false} NotAbsent(f: Field, n: nat)
    ensures IsId(f, n) ==> f.Str?
  {
  }

  lemma {:induction false} AConfidence(f: Field)
    ensures IsConfidence(f) ==> f.Number?
  {
  }

  predicate HasSize(stage: Field, size: nat) {
    || (stage == Str(Lit("M3")) && size == 30)
    || (stage == Str(Lit("M3.5b")) && size == 50)
    || (stage == Str(Lit("M5")) && size == 200)
  }

  predicate Uses(samples: seq<Sample>, category: string) {
    exists i :: 0 <= i < |samples| && samples[i].Sample? && samples[i].category == Str(Lit(category))
  }

  predicate Expects(samples: seq<Sample>, expected: bool) {
    exists i :: 0 <= i < |samples| && samples[i].Sample? && samples[i].expected == Flag(expected)
  }

  /** A dataset: its version, its stage and as many samples as that needs, of all categories and of both kinds. */
  predicate IsDataset(d: Dataset, forbidden: Text -> bool) {
    && d.version == Str(Lit("ground_truth_v1")) && d.policyIsObject && d.samples.Some?
    && var samples := d.samples.value;
       && HasSize(d.stage, |samples|)
       && (forall i :: 0 <= i < |samples| ==> IsSample(samples[i], i + 1, forbidden))
       && Uses(samples, "unsafe_code") && Uses(samples, "schema_error") && Uses(samples, "logic_error")
       && Uses(samples, "sandbox_risk") && Uses(samples, "benign") && Uses(samples, "low_risk_style")
       && Expects(samples, true) && Expects(samples, false)
  }

  lemma {:induction false} SizeIs(stage: Field, size: nat)
    ensures HasSize(stage, size) <==> stage.Str? && TargetCount(stage.text) == Some(size)
  {
    assert |Lit("M3")| == 2 && |Lit("M3.5b")| == 5 && |Lit("M5")| == 2 && Lit("M3")[1] != Lit("M5")[1];
    hide Lit;
  }

  lemma {:induction false} UsesIs(samples: seq<Sample>, category: string, forbidden: Text -> bool)
    requires forall i :: 0 <= i < |samples| ==> ValidSample(samples[i], i + 1, forbidden)
    ensures Uses(samples, category) <==> HasCategory(samples, |samples|, Lit(category))
  {
    hide NonBlank, RightId, ConfidenceAccepted, NeedsExcerpt, Lit;
  }

  lemma {:induction false} ExpectsIs(samples: seq<Sample>, expected: bool, forbidden: Text -> bool)
    requires forall i :: 0 <= i < |samples| ==> ValidSample(samples[i], i + 1, forbidden)
    ensures Expects(samples, expected) <==> HasExpected(samples, |samples|, expected)
  {
    hide NonBlank, RightId, ConfidenceAccepted, NeedsExcerpt;
  }

  lemma {:induction false} CategoriesAre(samples: seq<Sample>, forbidden: Text -> bool)
    requires forall i :: 0 <= i < |samples| ==> ValidSample(samples[i], i + 1, forbidden)
    ensures (forall c :: c in RequiredCategories() ==> HasCategory(samples, |samples|, c)) <==>
            && Uses(samples, "unsafe_code") && Uses(samples, "schema_error") && Uses(samples, "logic_error")
            && Uses(samples, "sandbox_risk") && Uses(samples, "benign") && Uses(samples, "low_risk_style")
  {
    hide HasCategory, Uses, ValidSample, Lit;
    UsesIs(samples, "unsafe_code", forbidden);
    UsesIs(samples, "schema_error", forbidden);
    UsesIs(samples, "logic_error", forbidden);
    UsesIs(samples, "sandbox_risk", forbidden);
    UsesIs(samples, "benign", forbidden);
    UsesIs(samples, "low_risk_style", forbidden);
  }

  lemma {:induction false} SamplesAre(samples: seq<Sample>, forbidden: Text -> bool)
    ensures (forall i :: 0 <= i < |samples| ==> IsSample(samples[i], i + 1, forbidden)) <==>
            AllValid(samples, |samples|, forbidden)
  {
    hide IsSample, ValidSample;
    forall i | 0 <= i < |samples|
      ensures IsSample(samples[i], i + 1, forbidden) <==> ValidSample(samples[i], i + 1, forbidden) {
      SampleIs(samples[i], i + 1, forbidden);
    }
  }

  lemma {:induction false} AllOf(samples: seq<Sample>, forbidden: Text -> bool)
    requires AllValid(samples, |samples|, forbidden)
    ensures forall i :: 0 <= i < |samples| ==> ValidSample(samples[i], i + 1, forbidden)
  {
    hide ValidSample;
  }

  /** Validation accepts what a dataset must be, field by field. */
  lemma {:induction false} ValidMeans(d: Dataset, forbidden: Text -> bool)
    ensures ValidDataset(d, forbidden) <==> IsDataset(d, forbidden)
  {
    hide AllValid, ValidSample, IsSample, TargetCount, HasSize, Uses, Expects, HasCategory, HasExpected,
         RequiredCategories, Lit;
    if d.samples.Some? {
      var samples := d.samples.value;
      SizeIs(d.stage, |samples|);
      SamplesAre(samples, forbidden);
      if AllValid(samples, |samples|, forbidden) {
        AllOf(samples, forbidden);
        CategoriesAre(samples, forbidden);
        ExpectsIs(samples, true, forbidden);
        ExpectsIs(samples, false, forbidden);
      }
    }
  }
}
