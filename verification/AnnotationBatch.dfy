/** The weekly annotation batch cut from a calibration dataset, and the monthly report that accepts one. */
module AnnotationBatch {
  import opened Wrappers
  import opened Runes
  import opened CalibrationDataset
  import Calibration
  import Json

  const M5_TARGET := 200

  // ----- the order of the samples

  /** The digits behind the last dash. */
  function IdNumber(id: Text): nat {
    var tail := id[RFind(id, '-' as int, |id|) + 1..];
    if forall i :: 0 <= i < |tail| ==> Json.IsDigit(tail[i]) then Json.DecimalValue(tail) else 0
  }

  /** `_sample_number`. */
  function SampleNumber(s: Sample): nat {
    if s.Sample? && s.id.Str? then IdNumber(s.id.text) else 0
  }

  /** A stable insertion into a sequence that is sorted by sample number. */
  function Insert(s: Sample, sorted: seq<Sample>): seq<Sample> {
    if sorted == [] || SampleNumber(s) <= SampleNumber(sorted[0]) then [s] + sorted
    else [sorted[0]] + Insert(s, sorted[1..])
  }

  /** `sorted(samples, key=_sample_number)`: the sort is stable, so its result is this one. */
  function Sorted(samples: seq<Sample>): seq<Sample> {
    if samples == [] then [] else Insert(samples[0], Sorted(samples[1..]))
  }

  lemma {:induction false} SortedInOrder(samples: seq<Sample>)
    requires forall i, j :: 0 <= i < j < |samples| ==> SampleNumber(samples[i]) <= SampleNumber(samples[j])
    ensures Sorted(samples) == samples
  {
    hide SampleNumber;
    if samples != [] {
      SortedInOrder(samples[1..]);
    }
  }

  lemma ThreeDigits(a: nat, b: nat, c: nat)
    requires a < 10 && b < 10 && c < 10
    ensures var t := [Digit(a), Digit(b), Digit(c)];
            (forall i :: 0 <= i < |t| ==> Json.IsDigit(t[i])) && Json.DecimalValue(t) == 100 * a + 10 * b + c
  {
    var t := [Digit(a), Digit(b), Digit(c)];
    assert t[..2] == [Digit(a), Digit(b)] && t[..2][..1] == [Digit(a)] && t[..1][..0] == [];
    assert Json.DecimalValue([Digit(a)]) == a;
    assert Json.DecimalValue([Digit(a), Digit(b)]) == 10 * a + b by {
      assert [Digit(a), Digit(b)][..1] == [Digit(a)];
    }
  }

  lemma NumberOfExpectedId(index: nat)
    requires index < 1000
    ensures IdNumber(ExpectedId(index)) == index
  {
    var x, y, z := index / 100, index / 10 % 10, index % 10;
    var prefix, id := Lit("critic-cal-v1-"), ExpectedId(index);
    assert id == prefix + [Digit(x), Digit(y), Digit(z)];
    assert id[13] == prefix[13] == '-' as int;
    assert id[14] == Digit(x) && id[15] == Digit(y) && id[16] == Digit(z);
    assert RFind(id, '-' as int, |id|) == 13;
    assert id[14..] == [Digit(x), Digit(y), Digit(z)];
    ThreeDigits(x, y, z);
    FromDigits(index);
  }

  /** A sample with the id of its position, and with an excerpt if its story needs one. */
  predicate Numbered(s: Sample, number: nat) {
    && number < 1000 && s.Sample? && s.id == Str(ExpectedId(number))
    && (NeedsExcerpt(s.story) ==> s.excerpt.Str?)
  }

  predicate Series(samples: seq<Sample>) {
    |samples| < 1000 && forall i: nat :: i < |samples| ==> Numbered(samples[i], i + 1)
  }

  lemma ValidNumbered(s: Sample, number: nat, forbidden: Text -> bool)
    requires ValidSample(s, number, forbidden)
    ensures Numbered(s, number)
  {
    StringsOnly(if s.Sample? then s.excerpt else Absent);
    hide ExpectedId, NeedsExcerpt, NonBlank, ConfidenceAccepted;
  }

  lemma SizeBound(d: Dataset, forbidden: Text -> bool)
    requires ValidDataset(d, forbidden)
    ensures 30 <= |d.samples.value| <= 200
  {
    hide Lit, ValidSample, AllValid, HasCategory, HasExpected, RequiredCategories;
  }

  lemma ValidIsSeries(d: Dataset, forbidden: Text -> bool)
    requires ValidDataset(d, forbidden)
    ensures 30 <= |d.samples.value| <= 200 && Series(d.samples.value)
  {
    SizeBound(d, forbidden);
    hide AllValid, Series, Lit, TargetCount, RequiredCategories, HasCategory, HasExpected;
    AllValidSeries(d.samples.value, forbidden);
  }

  lemma AllValidSeries(samples: seq<Sample>, forbidden: Text -> bool)
    requires |samples| < 1000 && AllValid(samples, |samples|, forbidden)
    ensures Series(samples)
  {
    hide Numbered, ValidSample;
    forall i: nat | i < |samples| ensures Numbered(samples[i], i + 1) {
      ValidNumbered(samples[i], i + 1, forbidden);
    }
  }

  lemma NumberOf(s: Sample, number: nat)
    requires Numbered(s, number)
    ensures SampleNumber(s) == number
  {
    hide ExpectedId, IdNumber, NeedsExcerpt;
    NumberOfExpectedId(number);
  }

  /** The samples of a valid dataset are in the order of their numbers already. */
  lemma SeriesInOrder(samples: seq<Sample>)
    requires Series(samples)
    ensures Sorted(samples) == samples
  {
    hide SampleNumber, Numbered;
    forall i: nat | i < |samples| ensures SampleNumber(samples[i]) == i + 1 {
      NumberOf(samples[i], i + 1);
    }
    SortedInOrder(samples);
  }

  // ----- the weekly batch

  datatype Ticket = Ticket(number: nat, sampleId: Field, category: Field, confidence: Field, expected: Field,
                           excerpt: Field, prompt: Field)

  datatype BatchResult =
    | Batch(tickets: seq<Ticket>)
    | CountNotPositive
    | InvalidDataset
    | WeekNotMonday
    | TooFewSamples
    | WrongStory
    | ExcerptMissing

  function TicketFor(s: Sample, number: nat): Ticket
    requires s.Sample?
  {
    Ticket(number, s.id, s.category, s.confidence, s.expected, s.excerpt, s.prompt)
  }

  /** `samples[-n:]`: all of them for `n == 0` too. */
  function Newest(samples: seq<Sample>, n: nat): (r: seq<Sample>)
    ensures 0 < n <= |samples| ==> |r| == n
  {
    if n == 0 || n >= |samples| then samples else samples[|samples| - n..]
  }

  predicate AllOfStory(samples: seq<Sample>, stage: Field) {
    forall i :: 0 <= i < |samples| ==> samples[i].Sample? && samples[i].story == stage
  }

  /** Ticket `k` of a batch of `count` is made of the sample that is `count - k` from the end, with its right id. */
  ghost predicate NewestTicket(samples: seq<Sample>, count: nat, k: nat, t: Ticket)
    requires k < count <= |samples|
  {
    var at := |samples| - count + k;
    && at + 1 < 1000
    && samples[at].Sample?
    && t.number == k + 1 && t.sampleId == samples[at].id && t.category == samples[at].category
    && t.confidence == samples[at].confidence && t.expected == samples[at].expected
    && t.excerpt == samples[at].excerpt && t.prompt == samples[at].prompt
    && t.sampleId == Str(ExpectedId(at + 1))
    && !t.excerpt.Absent?
  }

  /** What the batch of `count` samples consists of: the last `count` ids of the dataset, in order. */
  ghost predicate IsNewestBatch(samples: seq<Sample>, count: nat, tickets: seq<Ticket>) {
    |tickets| == count <= |samples| && forall k: nat :: k < count ==> NewestTicket(samples, count, k, tickets[k])
  }

  predicate LacksExcerpt(samples: seq<Sample>) {
    exists k :: 0 <= k < |samples| && samples[k].Sample? && samples[k].excerpt.Absent?
  }

  /** How a batch creation must end. */
  ghost predicate BatchEnds(d: Dataset, forbidden: Text -> bool, monday: bool, count: int, r: BatchResult) {
    if count <= 0 then r.CountNotPositive?
    else if !ValidDataset(d, forbidden) then r.InvalidDataset?
    else if !monday then r.WeekNotMonday?
    else if |d.samples.value| < count then r.TooFewSamples?
    else if !AllOfStory(Newest(d.samples.value, count), d.stage) then r.WrongStory?
    else if !NeedsExcerpt(d.stage) && LacksExcerpt(Newest(d.samples.value, count)) then r.ExcerptMissing?
    else r.Batch? && IsNewestBatch(d.samples.value, count, r.tickets)
  }

  /**
   `create_batch_payload`: it holds the newest samples in order. For the stages other than the first it cannot fail
   on a missing excerpt; for the first it does when one of the newest samples has none.
   */
  method CreateBatch(d: Dataset, forbidden: Text -> bool, monday: bool, count: int) returns (r: BatchResult)
    ensures BatchEnds(d, forbidden, monday, count, r)
  {
    hide ValidDataset, NeedsExcerpt, NewestTicket, Series, LacksExcerpt, AllOfStory, Newest;
    if count <= 0 {
      return CountNotPositive;
    }
    var verdict := ValidateDataset(d, forbidden);
    if !verdict.Accepted? {
      return InvalidDataset;
    }
    if !monday {
      return WeekNotMonday;
    }
    var raw := Calibration.ValidSamples(d, forbidden);
    ValidIsSeries(d, forbidden);
    SeriesInOrder(raw);
    var samples := Sorted(raw);
    if |samples| < count {
      return TooFewSamples;
    }
    var newest := Newest(samples, count);
    if !AllOfStory(newest, d.stage) {
      return WrongStory;
    }
    NewestIsRight(samples, d.stage, count);
    var tickets := MakeTickets(newest);
    if tickets.None? {
      return ExcerptMissing;
    }
    return Batch(tickets.value);
  }

  /**
   The newest samples of the right story have an excerpt when their story demands one, and tickets with the right ids.
   */
  lemma NewestIsRight(samples: seq<Sample>, stage: Field, count: nat)
    requires Series(samples) && 0 < count <= |samples| && AllOfStory(Newest(samples, count), stage)
    ensures var newest := Newest(samples, count);
            && |newest| == count && (forall k :: 0 <= k < count ==> newest[k].Sample?)
            && (NeedsExcerpt(stage) ==> !LacksExcerpt(newest))
            && (!LacksExcerpt(newest) ==>
                  forall k: nat :: k < count ==> NewestTicket(samples, count, k, TicketFor(newest[k], k + 1)))
  {
    var newest := Newest(samples, count);
    forall k: nat | k < count
      ensures newest[k].Sample?
      ensures NeedsExcerpt(stage) ==> !newest[k].excerpt.Absent?
      ensures !newest[k].excerpt.Absent? ==> NewestTicket(samples, count, k, TicketFor(newest[k], k + 1))
    {
      hide NeedsExcerpt, ExpectedId;
      assert newest[k] == samples[|samples| - count + k];
      assert Numbered(samples[|samples| - count + k], |samples| - count + k + 1);
    }
    hide NeedsExcerpt, NewestTicket, Series, Numbered;
  }

  /** The loop over the newest samples; nothing stands for the `KeyError` of a sample without an excerpt. */
  method MakeTickets(newest: seq<Sample>) returns (r: Option<seq<Ticket>>)
    requires forall k :: 0 <= k < |newest| ==> newest[k].Sample?
    ensures r.None? <==> LacksExcerpt(newest)
    ensures r.Some? ==> |r.value| == |newest| && forall k :: 0 <= k < |newest| ==>
            r.value[k] == TicketFor(newest[k], k + 1)
  {
    var tickets: seq<Ticket> := [];
    for k := 0 to |newest|
      invariant |tickets| == k
      invariant forall j :: 0 <= j < k ==> tickets[j] == TicketFor(newest[j], j + 1) && !newest[j].excerpt.Absent?
    {
      if newest[k].excerpt.Absent? {
        return None;
      }
      tickets := tickets + [TicketFor(newest[k], k + 1)];
    }
    r := Some(tickets);
  }

  lemma {:induction false} ExampleNewest(count: nat)
    requires 0 < count <= 30
    ensures var newest := Newest(ExampleSamples(), count); LacksExcerpt(newest) && AllOfStory(newest, Str(Lit("M3")))
  {
    hide Lit, ExpectedId, CategoryAt;
    var samples := ExampleSamples();
    var newest := Newest(samples, count);
    forall k | 0 <= k < count
      ensures newest[k].Sample? && newest[k].excerpt.Absent? && newest[k].story == Str(Lit("M3"))
    {
      assert newest[k] == samples[30 - count + k] == ExampleSample(30 - count + k);
    }
    assert newest[0].excerpt.Absent?;
  }

  /** A valid dataset of the first stage, from which no batch can be made, of any size: no sample has an excerpt. */
  lemma {:induction false} FirstStageBatchFails(count: nat, r: BatchResult)
    requires 0 < count <= 30
    ensures ValidDataset(ExampleDataset(), _ => false)
    ensures BatchEnds(ExampleDataset(), _ => false, true, count, r) <==> r.ExcerptMissing?
  {
    ExampleValid();
    ShortStory();
    ExampleNewest(count);
    hide ValidDataset, NeedsExcerpt, Lit, ExampleSamples, Newest, LacksExcerpt, AllOfStory, IsNewestBatch;
  }

  // ----- the monthly report

  /** A batch file: its count, and for each ticket the sample id if it is an object with a string there. */
  datatype BatchFile = BatchFile(sampleCount: Field, tickets: Option<seq<Option<Text>>>)

  datatype ReportResult =
    | Report(ids: seq<Text>, threshold: int, remaining: int)
    | DatasetRejected
    | NothingRecommended
    | ConfigMismatch
    | BatchRejected

  /** Equality of a JSON value with an integer: booleans are the integers 0 and 1. */
  predicate EqualsInt(f: Field, n: nat) {
    match f
    case Number(Finite(v)) => v == n as real
    case Flag(b) => n == if b then 1 else 0
    case _ => false
  }

  /** The batch file lists exactly the newest ids of the dataset, at least one, in order, all of the target stage. */
  ghost predicate Acceptable(samples: seq<Sample>, stage: Field, batch: BatchFile) {
    && batch.tickets.Some?
    && EqualsInt(batch.sampleCount, |batch.tickets.value|)
    && 0 < |batch.tickets.value| <= |samples| < 1000
    && AllOfStory(Newest(samples, |batch.tickets.value|), stage)
    && forall k: nat :: k < |batch.tickets.value| ==>
         batch.tickets.value[k].Some? && NewestId(samples, |batch.tickets.value|, k, batch.tickets.value[k])
  }

  ghost predicate NewestId(samples: seq<Sample>, count: nat, k: nat, id: Option<Text>)
    requires k < count <= |samples| < 1000
  {
    id == Some(ExpectedId(|samples| - count + k + 1))
  }

  /** The ids of the tickets; nothing when a ticket has no string for an id. */
  method TicketIds(tickets: seq<Option<Text>>) returns (r: Option<seq<Text>>)
    ensures r.None? <==> exists k :: 0 <= k < |tickets| && tickets[k].None?
    ensures r.Some? ==> |r.value| == |tickets| && forall k :: 0 <= k < |tickets| ==> tickets[k] == Some(r.value[k])
  {
    var ids: seq<Text> := [];
    for k := 0 to |tickets|
      invariant |ids| == k && forall j :: 0 <= j < k ==> tickets[j] == Some(ids[j])
    {
      if tickets[k].None? {
        return None;
      }
      ids := ids + [tickets[k].value];
    }
    return Some(ids);
  }

  predicate HasDuplicates(ids: seq<Text>) {
    exists i, j :: 0 <= i < j < |ids| && ids[i] == ids[j]
  }

  function IdOf(s: Sample): Text {
    if s.Sample? && s.id.Str? then s.id.text else []
  }

  function IdsOf(samples: seq<Sample>): (ids: seq<Text>)
    ensures |ids| == |samples|
    ensures forall i :: 0 <= i < |samples| ==> ids[i] == IdOf(samples[i])
  {
    seq(|samples|, i requires 0 <= i < |samples| => IdOf(samples[i]))
  }

  /** The checks on the ids of a batch, in their order: duplicates, unknown ids, the stage and the newest ids. */
  predicate IdsPass(samples: seq<Sample>, stage: Field, ids: seq<Text>) {
    var expected := Newest(samples, |ids|);
    && !HasDuplicates(ids)
    && (forall id :: id in ids ==> id in IdsOf(samples))
    && AllOfStory(expected, stage)
    && ids == IdsOf(expected)
  }

  /** The ids of a batch are those of the newest samples. */
  ghost predicate AreNewest(samples: seq<Sample>, ids: seq<Text>) {
    0 < |ids| <= |samples| < 1000 && forall k: nat :: k < |ids| ==> NewestId(samples, |ids|, k, Some(ids[k]))
  }

  /** An empty batch never passes: the slice of the last zero samples is the whole dataset. */
  lemma IdsPassExactly(samples: seq<Sample>, stage: Field, ids: seq<Text>)
    requires Series(samples) && samples != []
    ensures IdsPass(samples, stage, ids) <==> AreNewest(samples, ids) && AllOfStory(Newest(samples, |ids|), stage)
  {
    hide AllOfStory, HasDuplicates, NewestId;
    if 0 < |ids| <= |samples| {
      NewestIds(samples, |ids|);
      var expected := IdsOf(Newest(samples, |ids|));
      assert forall k: nat :: k < |ids| ==> NewestId(samples, |ids|, k, Some(expected[k]));
      if ids == expected {
        NewestDistinct(samples, ids);
      } else if AreNewest(samples, ids) {
        forall k: nat | k < |ids| ensures ids[k] == expected[k] {
          SameNewestId(samples, |ids|, k, ids[k], expected[k]);
        }
      }
    }
  }

  lemma SameNewestId(samples: seq<Sample>, count: nat, k: nat, a: Text, b: Text)
    requires k < count <= |samples| < 1000 && NewestId(samples, count, k, Some(a))
             && NewestId(samples, count, k, Some(b))
    ensures a == b
  {
    hide ExpectedId;
  }

  lemma NewestIds(samples: seq<Sample>, count: nat)
    requires Series(samples) && 0 < count <= |samples|
    ensures forall k: nat :: k < count ==> NewestId(samples, count, k, Some(IdsOf(Newest(samples, count))[k]))
  {
    forall k: nat | k < count ensures NewestId(samples, count, k, Some(IdsOf(Newest(samples, count))[k])) {
      hide ExpectedId, NeedsExcerpt;
      assert Newest(samples, count)[k] == samples[|samples| - count + k];
      assert Numbered(samples[|samples| - count + k], |samples| - count + k + 1);
    }
  }

  lemma NewestDistinct(samples: seq<Sample>, ids: seq<Text>)
    requires Series(samples) && AreNewest(samples, ids)
    ensures !HasDuplicates(ids)
    ensures forall id :: id in ids ==> id in IdsOf(samples)
  {
    hide ExpectedId, NeedsExcerpt;
    forall i: nat, j: nat | i < j < |ids| ensures ids[i] != ids[j] {
      assert NewestId(samples, |ids|, i, Some(ids[i])) && NewestId(samples, |ids|, j, Some(ids[j]));
      if ids[i] == ids[j] {
        ExpectedIdInjective(|samples| - |ids| + i + 1, |samples| - |ids| + j + 1);
      }
    }
    forall id | id in ids ensures id in IdsOf(samples) {
      var k :| 0 <= k < |ids| && ids[k] == id;
      var at := |samples| - |ids| + k;
      assert NewestId(samples, |ids|, k, Some(ids[k])) && Numbered(samples[at], at + 1);
      assert IdsOf(samples)[at] == id;
    }
  }

  /**
   `create_monthly_report_payload`: it accepts exactly the batches that list the newest samples of a valid dataset in
   order, with a configuration that is the result of calibrating that dataset; the checks for duplicate and for
   unknown ids refuse nothing that the last comparison would let through.
   */
  method MonthlyReport(d: Dataset, forbidden: Text -> bool, batch: BatchFile, config: Calibration.Outcome)
      returns (r: ReportResult)
    ensures r.DatasetRejected? <==> !ValidDataset(d, forbidden)
    ensures r.Report? <==>
            && ValidDataset(d, forbidden) && config.Recommends?
            && Calibration.IsCalibration(d, forbidden, Calibration.LOWEST, Calibration.HIGHEST, config)
            && Acceptable(d.samples.value, d.stage, batch)
    ensures r.Report? ==>
              && r.threshold == config.threshold && r.remaining == 200 - |d.samples.value|
              && |r.ids| == |batch.tickets.value|
              && forall k: nat :: k < |r.ids| ==> batch.tickets.value[k] == Some(r.ids[k])
  {
    hide ValidDataset, Calibration.IsCalibration, IdsPass, AllOfStory, NewestId, Series, EqualsInt;
    var calibration := Calibration.CalibrateDataset(d, forbidden, Calibration.LOWEST, Calibration.HIGHEST);
    if calibration.Invalid? {
      return DatasetRejected;
    }
    if !calibration.Recommends? {
      Calibration.CalibrationUnique(d, forbidden, Calibration.LOWEST, Calibration.HIGHEST, calibration, config);
      return NothingRecommended;
    }
    Calibration.CalibrationUnique(d, forbidden, Calibration.LOWEST, Calibration.HIGHEST, calibration, config);
    if calibration != config {
      return ConfigMismatch;
    }
    if batch.tickets.None? || !EqualsInt(batch.sampleCount, |batch.tickets.value|) {
      return BatchRejected;
    }
    var ids := TicketIds(batch.tickets.value);
    if ids.None? {
      return BatchRejected;
    }
    var samples := Calibration.ValidSamples(d, forbidden);
    ValidIsSeries(d, forbidden);
    SeriesInOrder(samples);
    IdsPassExactly(samples, d.stage, ids.value);
    if !IdsPass(Sorted(samples), d.stage, ids.value) {
      return BatchRejected;
    }
    return Report(ids.value, calibration.threshold, M5_TARGET - |samples|);
  }

  /** The file that a created batch is written to. */
  function FileOf(tickets: seq<Ticket>): BatchFile {
    BatchFile(Number(Finite(|tickets| as real)),
              Some(seq(|tickets|, k requires 0 <= k < |tickets| =>
                if tickets[k].sampleId.Str? then Some(tickets[k].sampleId.text) else None)))
  }

  /** Every batch that can be created is accepted by the report on the same dataset. */
  lemma CreatedBatchAccepted(d: Dataset, forbidden: Text -> bool, monday: bool, count: int, r: BatchResult)
    requires BatchEnds(d, forbidden, monday, count, r) && r.Batch?
    ensures ValidDataset(d, forbidden) && Acceptable(d.samples.value, d.stage, FileOf(r.tickets))
  {
    hide ValidDataset, AllOfStory, Series, LacksExcerpt, NeedsExcerpt, IsNewestBatch, Acceptable, Newest, FileOf;
    ValidIsSeries(d, forbidden);
    NewestBatchAccepted(Calibration.ValidSamples(d, forbidden), d.stage, count, r.tickets);
  }

  lemma NewestBatchAccepted(samples: seq<Sample>, stage: Field, count: nat, tickets: seq<Ticket>)
    requires |samples| < 1000 && 0 < count && IsNewestBatch(samples, count, tickets)
             && AllOfStory(Newest(samples, count), stage)
    ensures Acceptable(samples, stage, FileOf(tickets))
  {
    hide AllOfStory, NewestTicket, NewestId;
    var file := FileOf(tickets);
    forall k: nat | k < count
      ensures file.tickets.value[k].Some? && NewestId(samples, count, k, file.tickets.value[k]) {
      TicketId(samples, count, k, tickets[k]);
    }
  }

  lemma TicketId(samples: seq<Sample>, count: nat, k: nat, t: Ticket)
    requires k < count <= |samples| < 1000 && NewestTicket(samples, count, k, t)
    ensures t.sampleId.Str? && NewestId(samples, count, k, Some(t.sampleId.text))
  {
    hide ExpectedId;
  }

  /** A count that is `true` or `false` passes for 1 or 0. */
  lemma {:induction false} CountMeans(f: Field, n: nat)
    ensures EqualsInt(f, n) <==>
            f == Number(Finite(n as real)) || (f == Flag(true) && n == 1) || (f == Flag(false) && n == 0)
  {
  }
}
