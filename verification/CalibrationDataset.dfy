/** The ground-truth dataset of the critic calibration, and the validation that guards every use of it. */
module CalibrationDataset {
  import opened Wrappers
  import opened Runes

  /**
   A JSON number as a float; `json.loads` also reads `NaN` and `Infinity`. An integer beyond the range of a float is
   `TooLarge`: converting it raises.
   */
  datatype Num = Finite(value: real) | Infinite(negative: bool) | NotANumber | TooLarge

  /** The value of a field of a sample. A list or an object is `Unhashable`: it cannot be a member of a set. */
  datatype Field = Absent | Str(text: Text) | Flag(value: bool) | Number(num: Num) | Unhashable | Other

  datatype Sample =
    | NotAnObject
    | Sample(id: Field, prompt: Field, expected: Field, confidence: Field, reason: Field, category: Field, story: Field,
             excerpt: Field)

  datatype Dataset = Dataset(version: Field, stage: Field, policyIsObject: bool, samples: Option<seq<Sample>>)

  datatype Problem =
    | BadVersion | BadStage | BadPolicy | SamplesNotAList | WrongCount
    | NotObject(index: nat) | MissingFields(index: nat)
    | BadId(index: nat) | DuplicateId(index: nat) | BlankText(index: nat) | ForbiddenPrompt(index: nat)
    | BadExpected(index: nat) | BadConfidence(index: nat) | BlankExcerpt(index: nat) | LongExcerpt(index: nat)
    | ForbiddenExcerpt(index: nat) | MissingCategories | NothingToEscalate | NothingToPass

  /** Validation accepts, refuses with the problems it collected, or ends in an exception it does not foresee. */
  datatype Verdict = Accepted | Refused(problems: seq<Problem>) | Raised

  const EXCERPT_LIMIT := 280

  function TargetCount(stage: Text): Option<nat> {
    if stage == Lit("M3") then Some(30)
    else if stage == Lit("M3.5b") then Some(50)
    else if stage == Lit("M5") then Some(200)
    else None
  }

  function RequiredCategories(): set<Text> {
    {Lit("unsafe_code"), Lit("schema_error"), Lit("logic_error"), Lit("sandbox_risk"), Lit("benign"),
     Lit("low_risk_style")}
  }

  function Digit(d: nat): Rune
    requires d < 10
  {
    '0' as int + d
  }

  /** The id of the sample at a position, counted from 1 and written with three digits. */
  function ExpectedId(index: nat): Text
    requires index < 1000
  {
    Lit("critic-cal-v1-") + [Digit(index / 100), Digit(index / 10 % 10), Digit(index % 10)]
  }

  lemma ExpectedIdInjective(a: nat, b: nat)
    requires a < 1000 && b < 1000 && ExpectedId(a) == ExpectedId(b)
    ensures a == b
  {
    var prefix := Lit("critic-cal-v1-");
    var x, y := ExpectedId(a), ExpectedId(b);
    assert x[|prefix|] == y[|prefix|] && x[|prefix| + 1] == y[|prefix| + 1] && x[|prefix| + 2] == y[|prefix| + 2];
    FromDigits(a);
    FromDigits(b);
  }

  lemma FromDigits(n: nat)
    ensures n == n / 100 * 100 + n / 10 % 10 * 10 + n % 10
  {
    assert n / 10 == n / 10 / 10 * 10 + n / 10 % 10;
    assert n / 10 / 10 == n / 100;
  }

  lemma StringsOnly(f: Field)
    ensures NonBlank(f) ==> f.Str?
  {
  }

  predicate Complete(s: Sample) {
    s.Sample? && !s.id.Absent? && !s.prompt.Absent? && !s.expected.Absent? && !s.confidence.Absent? && !s.reason.Absent?
    && !s.category.Absent? && !s.story.Absent?
  }

  predicate NonBlank(f: Field) {
    f.Str? && Strip(f.text) != []
  }

  /** The id pattern allows three digits only, so no id is right beyond position 999. */
  predicate RightId(f: Field, index: nat) {
    index < 1000 && f == Str(ExpectedId(index))
  }

  /** `_confidence_value`: a comparison with a NaN is false, so a NaN passes. */
  predicate ConfidenceAccepted(f: Field) {
    f.Number? && match f.num
                 case Finite(v) => !(v < 0.0 || v > 1.0)
                 case Infinite(_) => false
                 case NotANumber => true
                 case TooLarge => false
  }

  predicate NeedsExcerpt(story: Field) {
    story == Str(Lit("M3.5b")) || story == Str(Lit("M5"))
  }

  function ExcerptProblems(s: Sample, index: nat, forbidden: Text -> bool): seq<Problem>
    requires s.Sample?
  {
    if !NeedsExcerpt(s.story) then []
    else if !NonBlank(s.excerpt) then [BlankExcerpt(index)]
    else if |s.excerpt.text| > EXCERPT_LIMIT then [LongExcerpt(index)]
    else if forbidden(s.excerpt.text) then [ForbiddenExcerpt(index)]
    else []
  }

  /** What a sample must be. */
  predicate ValidSample(s: Sample, index: nat, forbidden: Text -> bool) {
    && Complete(s)
    && RightId(s.id, index)
    && NonBlank(s.prompt) && NonBlank(s.reason) && NonBlank(s.category) && NonBlank(s.story)
    && !forbidden(s.prompt.text)
    && s.expected.Flag?
    && ConfidenceAccepted(s.confidence)
    && (NeedsExcerpt(s.story) ==>
          NonBlank(s.excerpt) && |s.excerpt.text| <= EXCERPT_LIMIT && !forbidden(s.excerpt.text))
  }

  /** The first `n` samples are what they must be. */
  predicate AllValid(samples: seq<Sample>, n: nat, forbidden: Text -> bool)
    requires n <= |samples|
  {
    forall i :: 0 <= i < n ==> ValidSample(samples[i], i + 1, forbidden)
  }

  predicate HasCategory(samples: seq<Sample>, n: nat, category: Text)
    requires n <= |samples|
  {
    exists i :: 0 <= i < n && Complete(samples[i]) && samples[i].category == Str(category)
  }

  predicate HasExpected(samples: seq<Sample>, n: nat, expected: bool)
    requires n <= |samples|
  {
    exists i :: 0 <= i < n && Complete(samples[i]) && samples[i].expected == Flag(expected)
  }

  /** What a dataset must be. */
  predicate ValidDataset(d: Dataset, forbidden: Text -> bool) {
    && d.version == Str(Lit("ground_truth_v1"))
    && d.stage.Str? && TargetCount(d.stage.text).Some?
    && d.policyIsObject
    && d.samples.Some?
    && |d.samples.value| == TargetCount(d.stage.text).value
    && AllValid(d.samples.value, |d.samples.value|, forbidden)
    && (forall c :: c in RequiredCategories() ==> HasCategory(d.samples.value, |d.samples.value|, c))
    && HasExpected(d.samples.value, |d.samples.value|, true)
    && HasExpected(d.samples.value, |d.samples.value|, false)
  }

  /** A list or an object where a hashable value is expected, or a confidence beyond the range of a float. */
  predicate Crashes(d: Dataset) {
    || d.stage.Unhashable?
    || (d.samples.Some? && exists i :: 0 <= i < |d.samples.value| && CrashesOn(d.samples.value[i]))
  }

  predicate CrashesOn(s: Sample) {
    Complete(s) && (s.id.Unhashable? || s.confidence == Number(TooLarge) || s.story.Unhashable?)
  }

  /** The text fields that are not a non-empty string, in the order of the check. */
  method CheckTexts(fields: seq<Field>, index: nat) returns (problems: seq<Problem>)
    ensures problems == [] <==> forall j :: 0 <= j < |fields| ==> NonBlank(fields[j])
  {
    hide NonBlank;
    problems := [];
    for i := 0 to |fields|
      invariant problems == [] <==> forall j :: 0 <= j < i ==> NonBlank(fields[j])
    {
      if !NonBlank(fields[i]) {
        problems := problems + [BlankText(index)];
      }
    }
  }

  /** The problems of one complete sample, in the order of the checks; `seen` are the ids before it. */
  method CheckSample(s: Sample, index: nat, seen: set<Field>, forbidden: Text -> bool) returns (problems: seq<Problem>)
    requires Complete(s)
    ensures problems == [] <==> ValidSample(s, index, forbidden) && s.id !in seen
  {
    TextFields(s, index, forbidden);
    hide RightId, ConfidenceAccepted, NeedsExcerpt, NonBlank, ValidSample, ExcerptProblems;
    problems := if RightId(s.id, index) then [] else [BadId(index)];
    if s.id in seen {
      problems := problems + [DuplicateId(index)];
    }
    var blank := CheckTexts([s.prompt, s.reason, s.category, s.story], index);
    FourFields(s.prompt, s.reason, s.category, s.story);
    problems := problems + blank;
    if s.prompt.Str? && forbidden(s.prompt.text) {
      problems := problems + [ForbiddenPrompt(index)];
    }
    if !s.expected.Flag? {
      problems := problems + [BadExpected(index)];
    }
    if !ConfidenceAccepted(s.confidence) {
      problems := problems + [BadConfidence(index)];
    }
    problems := problems + ExcerptProblems(s, index, forbidden);
  }

  /** `ValidSample`, in terms of the checks. */
  lemma TextFields(s: Sample, index: nat, forbidden: Text -> bool)
    requires Complete(s)
    ensures ValidSample(s, index, forbidden) <==>
            && RightId(s.id, index)
            && NonBlank(s.prompt) && NonBlank(s.reason) && NonBlank(s.category) && NonBlank(s.story)
            && !(s.prompt.Str? && forbidden(s.prompt.text))
            && s.expected.Flag? && ConfidenceAccepted(s.confidence) && ExcerptProblems(s, index, forbidden) == []
    ensures NonBlank(s.prompt) ==> s.prompt.Str?
  {
    StringsOnly(s.prompt);
    StringsOnly(s.excerpt);
    hide RightId, ConfidenceAccepted, NeedsExcerpt, NonBlank;
  }

  lemma FourFields(a: Field, b: Field, c: Field, d: Field)
    ensures (var fields := [a, b, c, d]; forall j :: 0 <= j < |fields| ==> NonBlank(fields[j]))
            <==> NonBlank(a) && NonBlank(b) && NonBlank(c) && NonBlank(d)
  {
    hide NonBlank;
    var fields := [a, b, c, d];
    if forall j :: 0 <= j < |fields| ==> NonBlank(fields[j]) {
      assert NonBlank(fields[0]) && NonBlank(fields[1]) && NonBlank(fields[2]) && NonBlank(fields[3]);
    }
  }

  /** The ids of valid samples never repeat, so the check for duplicates refuses nothing that the others accept. */
  lemma NotSeen(samples: seq<Sample>, i: nat, seen: set<Field>, forbidden: Text -> bool)
    requires i < |samples| && AllValid(samples, i, forbidden) && ValidSample(samples[i], i + 1, forbidden)
    requires forall f :: f in seen ==> exists j :: 0 <= j < i && samples[j].Sample? && samples[j].id == f
    ensures samples[i].id !in seen
  {
    hide NonBlank, NeedsExcerpt, ConfidenceAccepted, ExpectedId;
    if samples[i].id in seen {
      var j :| 0 <= j < i && samples[j].Sample? && samples[j].id == samples[i].id;
      ExpectedIdInjective(j + 1, i + 1);
    }
  }

  /**
   Validation accepts exactly the datasets that are what they must be, and it ends in an unforeseen exception
   exactly when a list or an object stands where a hashable value is expected or a confidence is beyond a float.
   */
  method ValidateDataset(d: Dataset, forbidden: Text -> bool) returns (v: Verdict)
    ensures v.Accepted? <==> ValidDataset(d, forbidden)
    ensures v.Raised? <==> Crashes(d)
    ensures v.Refused? ==> v.problems != []
  {
    hide ValidSample, NonBlank, RightId, TargetCount;
    var problems := [];
    if d.version != Str(Lit("ground_truth_v1")) {
      problems := problems + [BadVersion];
    }
    if d.stage.Unhashable? {
      return Raised;
    }
    var target := if d.stage.Str? then TargetCount(d.stage.text) else None;
    if target.None? {
      problems := problems + [BadStage];
    }
    if !d.policyIsObject {
      problems := problems + [BadPolicy];
    }
    if d.samples.None? {
      return Refused([SamplesNotAList]);
    }
    var samples := d.samples.value;
    if target.Some? && |samples| != target.value {
      problems := problems + [WrongCount];
    }
    var found := CheckSamples(samples, forbidden);
    if found.None? {
      return Raised;
    }
    problems := problems + found.value.problems;
    if exists c :: c in RequiredCategories() && c !in found.value.categories {
      problems := problems + [MissingCategories];
    }
    if found.value.expectedTrue == 0 {
      problems := problems + [NothingToEscalate];
    }
    if found.value.expectedFalse == 0 {
      problems := problems + [NothingToPass];
    }
    v := if problems == [] then Accepted else Refused(problems);
  }

  /** What the loop over the samples collects. */
  datatype Findings = Findings(problems: seq<Problem>, categories: set<Text>, expectedTrue: nat, expectedFalse: nat)

  /** The loop over the samples; nothing when it ends in an unforeseen exception. */
  method CheckSamples(samples: seq<Sample>, forbidden: Text -> bool) returns (r: Option<Findings>)
    ensures r.None? <==> exists i :: 0 <= i < |samples| && CrashesOn(samples[i])
    ensures r.None? ==> !AllValid(samples, |samples|, forbidden)
    ensures r.Some? ==>
              && (r.value.problems == [] <==> AllValid(samples, |samples|, forbidden))
              && (forall c :: c in r.value.categories <==> HasCategory(samples, |samples|, c))
              && (r.value.expectedTrue > 0 <==> HasExpected(samples, |samples|, true))
              && (r.value.expectedFalse > 0 <==> HasExpected(samples, |samples|, false))
  {
    hide ValidSample, NonBlank, RightId;
    var problems, seen, categories, yes, no := [], {}, {}, 0, 0;
    for i := 0 to |samples|
      invariant forall j :: 0 <= j < i ==> !CrashesOn(samples[j])
      invariant problems == [] <==> AllValid(samples, i, forbidden)
      invariant forall f :: f in seen ==> exists j :: 0 <= j < i && samples[j].Sample? && samples[j].id == f
      invariant forall c :: c in categories <==> HasCategory(samples, i, c)
      invariant yes > 0 <==> HasExpected(samples, i, true)
      invariant no > 0 <==> HasExpected(samples, i, false)
    {
      var s := samples[i];
      Extend(samples, i, forbidden);
      if s.NotAnObject? {
        problems := problems + [NotObject(i + 1)];
      } else if !Complete(s) {
        problems := problems + [MissingFields(i + 1)];
      } else {
        if s.id.Unhashable? || s.confidence == Number(TooLarge) || s.story.Unhashable? {
          return None;
        }
        if AllValid(samples, i + 1, forbidden) {
          NotSeen(samples, i, seen, forbidden);
        }
        var more := CheckSample(s, i + 1, seen, forbidden);
        problems := problems + more;
        seen := seen + {s.id};
        if s.expected == Flag(true) {
          yes := yes + 1;
        } else if s.expected == Flag(false) {
          no := no + 1;
        }
        if s.category.Str? {
          categories := categories + {s.category.text};
        }
      }
    }
    r := Some(Findings(problems, categories, yes, no));
  }

  /** One more sample. */
  lemma {:induction false} Extend(samples: seq<Sample>, i: nat, forbidden: Text -> bool)
    requires i < |samples|
    ensures AllValid(samples, i + 1, forbidden) <==>
            AllValid(samples, i, forbidden) && ValidSample(samples[i], i + 1, forbidden)
    ensures ValidSample(samples[i], i + 1, forbidden) ==> Complete(samples[i]) && !CrashesOn(samples[i])
    ensures forall c :: HasCategory(samples, i + 1, c) <==>
              HasCategory(samples, i, c) || (Complete(samples[i]) && samples[i].category == Str(c))
    ensures forall e :: HasExpected(samples, i + 1, e) <==>
              HasExpected(samples, i, e) || (Complete(samples[i]) && samples[i].expected == Flag(e))
  {
    ValidIsHashable(samples[i], i + 1, forbidden);
    hide ValidSample, Complete, CrashesOn;
  }

  lemma {:induction false} ValidIsHashable(s: Sample, index: nat, forbidden: Text -> bool)
    ensures ValidSample(s, index, forbidden) ==> Complete(s) && !CrashesOn(s)
  {
    StringsOnly(if s.Sample? then s.story else Absent);
    hide NonBlank, ExpectedId, NeedsExcerpt;
  }

  // ----- confidences

  /** In a valid dataset a confidence is a number in [0, 1] exactly when it is not the special value NaN. */
  lemma {:induction false} ConfidenceInRange(d: Dataset, forbidden: Text -> bool, i: nat)
    requires ValidDataset(d, forbidden) && i < |d.samples.value|
    ensures d.samples.value[i].Sample? && d.samples.value[i].confidence.Number?
    ensures var num := d.samples.value[i].confidence.num;
            num.Finite? && 0.0 <= num.value <= 1.0 <==> !num.NotANumber?
  {
    hide NonBlank, RightId, NeedsExcerpt, TargetCount, HasCategory, HasExpected, RequiredCategories;
    assert ValidSample(d.samples.value[i], i + 1, forbidden);
  }

  function WithConfidence(d: Dataset, i: nat, confidence: Field): Dataset
    requires d.samples.Some? && i < |d.samples.value| && d.samples.value[i].Sample?
  {
    d.(samples := Some(d.samples.value[i := d.samples.value[i].(confidence := confidence)]))
  }

  lemma {:induction false} ConfidenceOnly(s: Sample, index: nat, forbidden: Text -> bool, confidence: Field)
    requires ValidSample(s, index, forbidden)
    ensures s.Sample?
            && (ValidSample(s.(confidence := confidence), index, forbidden) <==> ConfidenceAccepted(confidence))
  {
    hide NonBlank, RightId, NeedsExcerpt;
  }

  lemma {:induction false} AllValidReplaced(samples: seq<Sample>, forbidden: Text -> bool, i: nat, confidence: Field)
    requires AllValid(samples, |samples|, forbidden) && i < |samples|
    ensures samples[i].Sample?
    ensures AllValid(samples[i := samples[i].(confidence := confidence)], |samples|, forbidden) <==>
            ConfidenceAccepted(confidence)
  {
    assert ValidSample(samples[i], i + 1, forbidden);
    ConfidenceOnly(samples[i], i + 1, forbidden, confidence);
    hide ValidSample, ConfidenceAccepted;
    var replaced := samples[i := samples[i].(confidence := confidence)];
    if !ConfidenceAccepted(confidence) {
      assert !ValidSample(replaced[i], i + 1, forbidden);
    }
  }

  /**
   Any confidence of a valid dataset can be replaced by any value that is accepted, NaN among them, and by no other.
   */
  lemma {:induction false} ConfidenceReplaced(d: Dataset, forbidden: Text -> bool, i: nat, confidence: Field)
    requires ValidDataset(d, forbidden) && i < |d.samples.value|
    ensures d.samples.value[i].Sample?
    ensures ValidDataset(WithConfidence(d, i, confidence), forbidden) <==> ConfidenceAccepted(confidence)
  {
    hide AllValid, HasCategory, HasExpected, ConfidenceAccepted, TargetCount, RequiredCategories, Lit;
    var samples := d.samples.value;
    AllValidReplaced(samples, forbidden, i, confidence);
    if ConfidenceAccepted(confidence) {
      forall c | c in RequiredCategories()
        ensures HasCategory(samples[i := samples[i].(confidence := confidence)], |samples|, c)
      {
        CategoryKept(samples, i, confidence, c);
      }
      ExpectedKept(samples, i, confidence, true);
      ExpectedKept(samples, i, confidence, false);
    }
  }

  lemma {:induction false} CategoryKept(samples: seq<Sample>, i: nat, confidence: Field, c: Text)
    requires i < |samples| && samples[i].Sample? && ConfidenceAccepted(confidence) && HasCategory(samples, |samples|, c)
    ensures HasCategory(samples[i := samples[i].(confidence := confidence)], |samples|, c)
  {
    var replaced := samples[i := samples[i].(confidence := confidence)];
    var k :| 0 <= k < |samples| && Complete(samples[k]) && samples[k].category == Str(c);
    assert Complete(replaced[k]) && replaced[k].category == Str(c);
  }

  lemma {:induction false} ExpectedKept(samples: seq<Sample>, i: nat, confidence: Field, e: bool)
    requires i < |samples| && samples[i].Sample? && ConfidenceAccepted(confidence) && HasExpected(samples, |samples|, e)
    ensures HasExpected(samples[i := samples[i].(confidence := confidence)], |samples|, e)
  {
    var replaced := samples[i := samples[i].(confidence := confidence)];
    var k :| 0 <= k < |samples| && Complete(samples[k]) && samples[k].expected == Flag(e);
    assert Complete(replaced[k]) && replaced[k].expected == Flag(e);
  }

  // ----- there are such datasets

  function CategoryAt(k: nat): (name: string)
    ensures name != "" && 'a' <= name[0] <= 'z' && 'a' <= name[|name| - 1] <= 'z'
  {
    if k == 0 then "unsafe_code" else if k == 1 then "schema_error" else if k == 2 then "logic_error"
    else if k == 3 then "sandbox_risk" else if k == 4 then "benign" else "low_risk_style"
  }

  function ExampleSample(i: nat): Sample
    requires i < 30
  {
    var text := Str(Lit("x"));
    Sample(Str(ExpectedId(i + 1)), text, Flag(i % 2 == 0), Number(Finite(0.5)), text, Str(Lit(CategoryAt(i % 6))),
           Str(Lit("M3")), Absent)
  }

  function ExampleSamples(): (samples: seq<Sample>)
    ensures |samples| == 30 && forall i :: 0 <= i < 30 ==> samples[i] == ExampleSample(i)
  {
    seq(30, i requires 0 <= i < 30 => ExampleSample(i))
  }

  lemma {:induction false} WordNonBlank(name: string)
    requires name != "" && '0' <= name[0] <= 'z' && '0' <= name[|name| - 1] <= 'z'
    ensures NonBlank(Str(Lit(name)))
  {
    var t := Lit(name);
    assert !IsSpace(t[0]) && !IsSpace(t[|t| - 1]);
    hide IsSpace, Lit;
  }

  lemma {:induction false} ExampleSampleValid(i: nat)
    requires i < 30
    ensures ValidSample(ExampleSample(i), i + 1, _ => false) && Complete(ExampleSample(i))
  {
    hide NonBlank, ExpectedId, NeedsExcerpt, Lit, CategoryAt;
    WordNonBlank("x");
    WordNonBlank("M3");
    WordNonBlank(CategoryAt(i % 6));
    ShortStory();
  }

  lemma ShortStory()
    ensures !NeedsExcerpt(Str(Lit("M3")))
  {
    assert |Lit("M3")| == 2 && |Lit("M3.5b")| == 5 && Lit("M3")[1] == '3' as int && Lit("M5")[1] == '5' as int;
  }

  lemma {:induction false} ExampleAllValid()
    ensures AllValid(ExampleSamples(), 30, _ => false)
  {
    hide ValidSample, ExampleSample;
    forall i: nat | i < 30 ensures ValidSample(ExampleSamples()[i], i + 1, _ => false) {
      ExampleSampleValid(i);
    }
  }

  lemma {:induction false} ExampleHas(i: nat)
    requires i < 30
    ensures HasExpected(ExampleSamples(), 30, i % 2 == 0)
    ensures HasCategory(ExampleSamples(), 30, Lit(CategoryAt(i % 6)))
  {
    hide ValidSample, Lit, ExpectedId, CategoryAt;
    ExampleSampleValid(i);
    assert ExampleSamples()[i] == ExampleSample(i);
  }

  lemma {:induction false} CategoriesListed(c: Text)
    requires c in RequiredCategories()
    ensures exists k: nat :: k < 6 && c == Lit(CategoryAt(k))
  {
    hide Lit;
    assert CategoryAt(0) == "unsafe_code" && CategoryAt(1) == "schema_error" && CategoryAt(2) == "logic_error";
    assert CategoryAt(3) == "sandbox_risk" && CategoryAt(4) == "benign" && CategoryAt(5) == "low_risk_style";
  }

  function ExampleDataset(): Dataset {
    Dataset(Str(Lit("ground_truth_v1")), Str(Lit("M3")), true, Some(ExampleSamples()))
  }

  /** A dataset of the first stage that validation accepts. */
  lemma {:induction false} ExampleValid()
    ensures ValidDataset(ExampleDataset(), _ => false)
  {
    hide AllValid, HasExpected, HasCategory, Lit, RequiredCategories, CategoryAt, ExampleSamples;
    ExampleAllValid();
    ExampleHas(0);
    ExampleHas(1);
    forall c | c in RequiredCategories() ensures HasCategory(ExampleSamples(), 30, c) {
      CategoriesListed(c);
      var k: nat :| k < 6 && c == Lit(CategoryAt(k));
      ExampleHas(k);
    }
  }

  /** Validation accepts the same dataset with a confidence of NaN, although its message asks for a number in [0, 1]. */
  lemma {:induction false} NanAccepted()
    ensures ExampleDataset().samples.value[0].Sample?
    ensures ValidDataset(WithConfidence(ExampleDataset(), 0, Number(NotANumber)), _ => false)
  {
    ExampleValid();
    hide ValidDataset, ExampleSamples;
    ConfidenceReplaced(ExampleDataset(), _ => false, 0, Number(NotANumber));
  }

  /** A list or an object for the id of any one sample turns a valid dataset into one that ends in an exception. */
  lemma {:induction false} UnhashableIdCrashes(d: Dataset, forbidden: Text -> bool, i: nat)
    requires ValidDataset(d, forbidden) && i < |d.samples.value|
    ensures d.samples.value[i].Sample?
    ensures Crashes(d.(samples := Some(d.samples.value[i := d.samples.value[i].(id := Unhashable)])))
  {
    hide NonBlank, RightId, NeedsExcerpt, TargetCount, HasCategory, HasExpected, RequiredCategories;
    var samples := d.samples.value;
    assert ValidSample(samples[i], i + 1, forbidden);
    var broken := samples[i := samples[i].(id := Unhashable)];
    assert CrashesOn(broken[i]);
  }

  /** So does a confidence that is an integer beyond the range of a float. */
  lemma {:induction false} TooLargeCrashes(d: Dataset, forbidden: Text -> bool, i: nat)
    requires ValidDataset(d, forbidden) && i < |d.samples.value|
    ensures d.samples.value[i].Sample? && Crashes(WithConfidence(d, i, Number(TooLarge)))
  {
    hide NonBlank, RightId, NeedsExcerpt, TargetCount, HasCategory, HasExpected, RequiredCategories;
    assert ValidSample(d.samples.value[i], i + 1, forbidden);
    assert CrashesOn(WithConfidence(d, i, Number(TooLarge)).samples.value[i]);
  }

  /** Such datasets exist, of either kind. */
  lemma {:induction false} CrashReached()
    ensures ExampleDataset().samples.value[0].Sample?
    ensures Crashes(WithConfidence(ExampleDataset(), 0, Number(TooLarge)))
    ensures var samples := ExampleSamples();
            Crashes(ExampleDataset().(samples := Some(samples[0 := samples[0].(id := Unhashable)])))
  {
    ExampleValid();
    hide ValidDataset, Crashes, ExampleSamples;
    UnhashableIdCrashes(ExampleDataset(), _ => false, 0);
    TooLargeCrashes(ExampleDataset(), _ => false, 0);
  }
}
