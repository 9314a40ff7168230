/** What counts as a payload of a stream, and what each payload counts for. */
module TokenLaws {
  import opened Wrappers
  import opened Runes
  import opened ChatLoad
  import opened Trimming
  import Json

  // ----- the payload of a line

  /** The line is `data:` and the payload, with blanks wherever they may stand. */
  ghost predicate Carries(line: Text, payload: Text) {
    payload != [] && exists content: Text :: IsTrimmed(line, Lit("data:") + content) && IsTrimmed(content, payload)
  }

  /** A line gives a payload exactly when it carries it; every other line gives nothing. */
  lemma {:induction false} PayloadMeans(line: Text, payload: Text)
    ensures DataOf(line) == Some(payload) <==> Carries(line, payload)
  {
    var stripped := Strip(line);
    StripMeans(line, stripped);
    hide IsTrimmed, Strip, Lit;
    if Lit("data:") <= stripped {
      var content := stripped[5..];
      assert stripped == Lit("data:") + content;
      StripMeans(content, payload);
    }
    if content: Text :| IsTrimmed(line, Lit("data:") + content) && IsTrimmed(content, payload) {
      StripMeans(line, Lit("data:") + content);
      StripMeans(content, payload);
      assert (Lit("data:") + content)[5..] == content;
    }
  }

  // ----- words

  /** A word begins here. */
  predicate StartsWord(t: Text, i: nat) {
    i < |t| && !IsSpace(t[i]) && (i == 0 || IsSpace(t[i - 1]))
  }

  function WordStarts(t: Text): set<nat> {
    set i: nat | i < |t| && StartsWord(t, i)
  }

  lemma {:induction false} WordsAreStarts(t: Text)
    ensures WordCount(t) == |WordStarts(t)|
  {
    hide IsSpace;
    if t != [] {
      var n := |t| - 1;
      WordsAreStarts(t[..n]);
      assert forall i: nat :: i < n ==> (StartsWord(t, i) <==> StartsWord(t[..n], i));
      assert WordStarts(t) == WordStarts(t[..n]) + if StartsWord(t, n) then {n} else {};
    }
  }

  lemma {:induction false} BlankInFront(t: Text)
    requires t != [] && IsSpace(t[0])
    ensures WordCount(t) == WordCount(t[1..])
  {
    hide IsSpace;
    if |t| > 1 {
      var n := |t| - 1;
      BlankInFront(t[..n]);
      assert t[..n][1..] == t[1..][..n - 1];
    }
  }

  lemma {:induction false} WordsWithoutFront(t: Text)
    ensures WordCount(LStrip(t)) == WordCount(t)
  {
    hide IsSpace;
    if t != [] && IsSpace(t[0]) {
      BlankInFront(t);
      WordsWithoutFront(t[1..]);
    }
  }

  lemma {:induction false} WordsWithoutEnd(t: Text)
    ensures WordCount(RStrip(t)) == WordCount(t)
  {
    hide IsSpace;
    if t != [] && IsSpace(t[|t| - 1]) {
      WordsWithoutEnd(t[..|t| - 1]);
    }
  }

  /** The units of a text are its words. */
  function WordsOf(value: Option<Json.Json>): nat {
    if value.Some? && value.value.Str? then |WordStarts(value.value.s)| else 0
  }

  lemma {:induction false} TextUnitsMean(value: Option<Json.Json>)
    ensures TextUnits(value) == WordsOf(value)
  {
    if value.Some? && value.value.Str? {
      var s := value.value.s;
      TextUnitsAreWords(s);
      WordsWithoutFront(s);
      WordsWithoutEnd(LStrip(s));
      WordsAreStarts(s);
      hide WordStarts, WordCount, LStrip, RStrip;
    }
  }

  // ----- the units of a payload

  /**
   A payload that is no JSON object counts one, unless it is blank or the end marker; the provider reported nothing.
   */
  lemma {:induction false} OtherPayload(data: Text)
    requires !(Json.Loads(data).Some? && Json.Loads(data).value.Obj?)
    ensures TokenUnits(data) == (if IsBlank(data) || IsTrimmed(data, Lit("[DONE]")) then 0 else 1, Approximation)
  {
    StripMeans(data, []);
    StripMeans(data, Lit("[DONE]"));
    hide Json.Loads, Strip, IsTrimmed, IsSpace;
    assert IsTrimmed(data, []) <==> IsBlank(data) by { BlankIs(data); }
  }

  lemma {:induction false} BlankIs(t: Text)
    ensures IsTrimmed(t, []) <==> IsBlank(t)
  {
    hide IsSpace;
    if IsBlank(t) {
      assert t[0..0] == [] && IsTrimmedAt(t, [], 0);
    }
  }

  /** The end marker is no JSON text. */
  lemma {:induction false} DoneIsNoJson()
    ensures Json.Loads(Lit("[DONE]")).None?
  {
    var t := Lit("[DONE]");
    assert t[0] == '[' as int && t[1] == 'D' as int;
    Json.SkipNone('[' as int, t[1..]);
    assert t == ['[' as int] + t[1..];
    Json.SkipNone('D' as int, t[2..]);
    assert t[1..] == ['D' as int] + t[2..];
    NoValue(t[1..]);
    hide Json.SkipSpace, Json.ParseNumber, Json.ParseMembers, Json.ParseString;
  }

  lemma {:induction false} NoValue(t: Text)
    requires t != [] && t[0] == 'D' as int
    ensures Json.ParseValue(t).Fail?
  {
    hide Json.ParseMembers, Json.ParseItems, Json.ParseString, Json.SkipSpace;
    assert Json.DigitsPrefix(t) == 0;
  }

  lemma {:induction false} DoneCountsNothing()
    ensures TokenUnits(Lit("[DONE]")) == (0, Approximation)
  {
    DoneIsNoJson();
    DoneIsSolid();
    hide Lit, Json.Loads, Strip;
    OtherPayload(Lit("[DONE]"));
    StripMeans(Lit("[DONE]"), Lit("[DONE]"));
    hide IsTrimmed, IsBlank, TokenUnits;
  }

  const DONE_CODES: Text := [0x5B, 0x44, 0x4F, 0x4E, 0x45, 0x5D]

  lemma {:induction false} DoneIs()
    ensures Lit("[DONE]") == DONE_CODES
  {
    assert |"[DONE]"| == 6;
  }

  lemma {:induction false} SolidText(t: Text)
    requires t != [] && !IsSpace(t[0]) && !IsSpace(t[|t| - 1]) && forall i :: 0 <= i < |t| ==> t[i] != NEWLINE
    ensures Strip(t) == t && NEWLINE !in t
  {
    hide Strip, IsSpace;
    StripSolid(t);
  }

  lemma {:induction false} DoneIsSolid()
    ensures Strip(Lit("[DONE]")) == Lit("[DONE]") && NEWLINE !in Lit("[DONE]") && Lit("[DONE]") != []
  {
    DoneIs();
    hide Lit, Strip;
    SolidText(DONE_CODES);
  }

  /** The number that a usage field reports: a positive integer, with `true` for one. */
  function Reported(value: Option<Json.Json>): nat {
    match value
    case Some(Int(n)) => if n > 0 then n else 0
    case Some(Bool(b)) => if b then 1 else 0
    case _ => 0
  }

  /** The usage that an object reports: the first of three fields with a positive number. */
  function ReportedUsage(members: seq<(Text, Json.Json)>): nat {
    var usage := Json.Get(members, Lit("usage"));
    if usage.None? || !usage.value.Obj? then 0
    else
      var fields := usage.value.members;
      var a := Reported(Json.Get(fields, Lit("completion_tokens")));
      var b := Reported(Json.Get(fields, Lit("output_tokens")));
      if a > 0 then a else if b > 0 then b else Reported(Json.Get(fields, Lit("tokens")))
  }

  lemma {:induction false} UsageIs(members: seq<(Text, Json.Json)>)
    ensures ProviderUnits(members) == ReportedUsage(members)
  {
    hide Lit, Json.Get;
    var usage := Json.Get(members, Lit("usage"));
    if usage.Some? && usage.value.Obj? {
      var fields := usage.value.members;
      var a, b, c := Lit("completion_tokens"), Lit("output_tokens"), Lit("tokens");
      UsageFirst(fields, a, [b, c]);
      UsageFirst(fields, b, [c]);
      UsageFirst(fields, c, []);
      assert [a] + [b, c] == [a, b, c] && [b] + [c] == [b, c] && [c] + [] == [c];
    }
  }

  lemma {:induction false} UsageFirst(fields: seq<(Text, Json.Json)>, key: Text, rest: seq<Text>)
    ensures UsageUnits(fields, [key] + rest)
            == (if Reported(Json.Get(fields, key)) > 0 then Reported(Json.Get(fields, key))
                else UsageUnits(fields, rest))
    ensures UsageUnits(fields, []) == 0
  {
    hide Json.Get;
    assert ([key] + rest)[1..] == rest;
  }

  /** A positive usage wins over all texts. */
  lemma {:induction false} UsageWins(data: Text, members: seq<(Text, Json.Json)>)
    requires Json.Loads(data) == Some(Json.Obj(members)) && ReportedUsage(members) > 0
    ensures TokenUnits(data) == (ReportedUsage(members), ProviderUsage)
  {
    UsageIs(members);
    hide Json.Loads, ReportedUsage, ProviderUnits;
  }

  /** Without one, the words of three fields and of the content of the delta are counted together. */
  lemma {:induction false} WordsOtherwise(data: Text, members: seq<(Text, Json.Json)>)
    requires Json.Loads(data) == Some(Json.Obj(members)) && ReportedUsage(members) == 0
    ensures var delta := Json.Get(members, Lit("delta"));
            var content :=
                if delta.Some? && delta.value.Obj? then Json.Get(delta.value.members, Lit("content")) else None;
            TokenUnits(data)
            == (WordsOf(Json.Get(members, Lit("content"))) + WordsOf(Json.Get(members, Lit("token")))
                + WordsOf(Json.Get(members, Lit("text"))) + WordsOf(content), Approximation)
  {
    hide Lit, Json.Loads, ReportedUsage, ProviderUnits, Json.Get, TextUnits, WordsOf;
    UsageIs(members);
    TextUnitsMean(Json.Get(members, Lit("content")));
    TextUnitsMean(Json.Get(members, Lit("token")));
    TextUnitsMean(Json.Get(members, Lit("text")));
    TextUnitsMean(DeltaContent(members));
  }

  // ----- the end marker in a stream

  lemma {:induction false} SilentPayload(data: seq<Text>, last: Text)
    requires TokenUnits(last).0 == 0
    ensures TotalUnits(data + [last]) == TotalUnits(data)
    ensures AnyUnits(data + [last]) <==> AnyUnits(data)
    ensures AnyProvider(data + [last]) <==> AnyProvider(data)
  {
    hide TokenUnits;
    var longer := data + [last];
    assert longer[..|data|] == data && longer[|data|] == last;
    if AnyUnits(data) {
      var i :| 0 <= i < |data| && Counts(data[i]);
      assert Counts(longer[i]);
    }
    if AnyProvider(data) {
      var i :| 0 <= i < |data| && Counts(data[i]) && TokenUnits(data[i]).1.ProviderUsage?;
      assert Counts(longer[i]);
    }
  }

  lemma {:induction false} DoneIsSendable()
    ensures Sendable(Lit("[DONE]"))
  {
    DoneIsSolid();
    hide Lit, Strip;
  }

  /**
   The end marker changes nothing of what is measured: a stream that ends in it has the units, the method and the
   completion of the payloads before it, whatever its chunks; and a stream of nothing but the marker is not completed.
   */
  lemma {:induction false} DoneChangesNothing(payloads: seq<Text>, chunks: seq<Chunk>)
    requires forall i :: 0 <= i < |payloads| ==> Sendable(payloads[i])
    requires Joined(chunks) == EmitAll(payloads + [Lit("[DONE]")])
    ensures var data := DataLines(Joined(chunks));
            && TotalUnits(data) == TotalUnits(payloads)
            && (AnyUnits(data) <==> AnyUnits(payloads)) && (AnyProvider(data) <==> AnyProvider(payloads))
            && (payloads == [] ==> TotalUnits(data) == 0 && !AnyUnits(data))
  {
    DoneCountsNothing();
    DoneIsSendable();
    hide Lit, Sendable, DataLines, EmitAll, Joined, TokenUnits;
    EmittedComeBack(payloads + [Lit("[DONE]")]);
    SilentPayload(payloads, Lit("[DONE]"));
  }
}
