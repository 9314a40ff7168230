/** The texts that the filter returns, character by character. */
module FilterTexts {
  import opened Wrappers
  import opened Runes
  import opened BlockPatterns
  import opened AigcFilter
  import FilterLaws
  import Utf8
  import Json
  import ZeroWidth

  const MARKER: Text := Lit("本回答由 AI 生成，仅供参考")
  const REPLACEMENT: Text := Lit("内容因安全与合规策略已被拦截。")

  predicate StandsAt(t: Text, i: nat) {
    i + |MARKER| <= |t| && t[i..i + |MARKER|] == MARKER
  }

  /** The visible marker stands somewhere in the text. */
  ghost predicate Shows(t: Text) {
    exists i: nat :: StandsAt(t, i)
  }

  lemma {:induction false} ShowsIs(t: Text)
    ensures Shows(t) <==> Contains(t, VISIBLE_MARKER)
  {
    hide Lit;
    if i :| 0 <= i <= |t| && VISIBLE_MARKER <= t[i..] {
      assert t[i..i + |MARKER|] == t[i..][..|MARKER|];
      assert StandsAt(t, i);
    }
    if i: nat :| StandsAt(t, i) {
      assert t[i..][..|MARKER|] == t[i..i + |MARKER|];
    }
  }

  /** A text with the visible marker: as it was, or with an empty line and the marker behind it. */
  ghost function Marked(t: Text): Text {
    if Shows(t) then t else t + [0x0A, 0x0A] + MARKER
  }

  /** The trace id that belongs to a text: the prefix and sixteen digits of its digest. */
  function DerivedId(t: Text, sha256: Digest): Text
    requires Encodable(t)
  {
    Lit("trc_") + sha256(Utf8.Encode(t).value)[..16]
  }

  /** The payload carries a trace id, in this version and by this module. */
  predicate CarriesId(payload: Text, id: Text) {
    && ZeroWidth.IsPayload(payload)
    && DecodePayload(payload)
       == Some(Json.PrintObject([(Lit("module_version"), Lit("0.1.0")), (Lit("provider"), Lit("opticloud-aigc-filter")),
                                 (Lit("trace_id"), id)]))
  }

  /** A text with its marker and, at the very end, a frame for a trace id. */
  ghost predicate IsWatermarked(t: Text, id: Text, result: Text) {
    exists payload: Text :: CarriesId(payload, id) && result == Marked(t) + ([0x200B] + payload + [0x2060])
  }

  lemma {:induction false} VisibleIs(t: Text)
    ensures Visible(t) == Marked(t)
  {
    ShowsIs(t);
    hide Lit, Contains, Shows;
  }

  lemma {:induction false} DerivedIs(t: Text, sha256: Digest)
    requires Encodable(t)
    ensures TraceIdFor(t, sha256) == Some(DerivedId(t, sha256))
  {
    hide Lit;
  }

  /**
   Adding a watermark leaves a watermarked text alone. To any other it adds the visible marker, unless it is there, and
   the frame of the trace id: the one that was given, or the one derived from the text.
   */
  lemma {:induction false} AddWatermarkText(t: Text, traceId: Option<Text>, sha256: Digest)
    requires AddWatermark(t, traceId, sha256).Some?
    ensures var result := AddWatermark(t, traceId, sha256).value;
            && (DetectWatermark(t).Present? ==> result == t)
            && (DetectWatermark(t).Absent? && traceId.Some? && traceId.value != [] ==>
                  IsWatermarked(t, traceId.value, result))
            && (DetectWatermark(t).Absent? && (traceId.None? || traceId.value == []) ==>
                  Encodable(t) && IsWatermarked(t, DerivedId(t, sha256), result))
  {
    if DetectWatermark(t).Absent? {
      var id := EffectiveTraceId(t, traceId, sha256).value;
      if traceId.None? || traceId.value == [] {
        TraceIdForDefined(t, sha256);
        DerivedIs(t, sha256);
      }
      FramedText(t, id);
    }
    hide AddWatermark, DetectWatermark, TraceIdFor, IsWatermarked, DerivedId;
  }

  lemma {:induction false} FramedText(t: Text, id: Text)
    requires EncodePayload(id, VERSION, PROVIDER_MARKER).Some?
    ensures IsWatermarked(t, id, Visible(t) + ZeroWidth.Frame(EncodePayload(id, VERSION, PROVIDER_MARKER).value))
  {
    VisibleIs(t);
    PayloadCarries(id);
    var payload := EncodePayload(id, VERSION, PROVIDER_MARKER).value;
    hide Visible, Marked, EncodePayload, CarriesId, Lit;
    assert ZeroWidth.Frame(payload) == [0x200B] + payload + [0x2060];
  }

  lemma {:induction false} PayloadCarries(id: Text)
    requires EncodePayload(id, VERSION, PROVIDER_MARKER).Some?
    ensures CarriesId(EncodePayload(id, VERSION, PROVIDER_MARKER).value, id)
  {
    hide EncodePayload, DecodePayload, ZeroWidth.IsPayload, Json.PrintObject, Lit;
    PayloadRoundTrip(id, VERSION, PROVIDER_MARKER);
  }

  /**
   The text of every result. A clean text with a watermark comes back as it is. Any other result is the text, or the
   replacement when the text is blocked, with its marker and the frame of the result's trace id; that is the trace id of
   the watermark there was, or else the one derived from the text that was given.
   */
  lemma {:induction false} FilterText(t: Text, tierName: string, sha256: Digest, r: FilterResult)
    requires Filter(t, tierName, sha256) == Result(r)
    ensures tierName == "strict" || tierName == "loose"
    ensures r.tier == if tierName == "strict" then Strict else Loose
    ensures r.blocked <==> !Clean(t, r.tier)
    ensures DetectWatermark(t).Present? ==> r.traceId == DetectWatermark(t).traceId
    ensures DetectWatermark(t).Absent? ==> Encodable(t) && r.traceId == DerivedId(t, sha256)
    ensures if !r.blocked && DetectWatermark(t).Present? then r.text == t
            else IsWatermarked(if r.blocked then REPLACEMENT else t, r.traceId, r.text)
  {
    NoReasonsIffClean(t, r.tier);
    FilterParts(t, tierName, sha256, r);
    FilterLaws.BlockedTextUnmarked();
    TraceIdForDefined(t, sha256);
    DetectedPrefix(t);
    hide Filter, Reasons, Clean, DetectWatermark, AddWatermark, IsWatermarked, Lit;
    if DetectWatermark(t).Absent? {
      DerivedIs(t, sha256);
    }
    if r.blocked {
      AddWatermarkText(BLOCKED_TEXT, Some(r.traceId), sha256);
    } else if DetectWatermark(t).Absent? {
      AddWatermarkText(t, Some(r.traceId), sha256);
    }
  }

  lemma {:induction false} DetectedPrefix(t: Text)
    ensures DetectWatermark(t).Present? ==> DetectWatermark(t).traceId != []
  {
    hide ZeroWidth.PayloadsReverse, FirstPresent;
    DetectedFields(ZeroWidth.PayloadsReverse(t));
  }

  /** What a result is made of. */
  lemma {:induction false} FilterParts(t: Text, tierName: string, sha256: Digest, r: FilterResult)
    requires Filter(t, tierName, sha256) == Result(r)
    ensures tierName == "strict" || tierName == "loose"
    ensures r.tier == if tierName == "strict" then Strict else Loose
    ensures r.blocked <==> Reasons(t, r.tier) != []
    ensures r.reasonCodes == Reasons(t, r.tier)
    ensures if DetectWatermark(t).Present? then r.traceId == DetectWatermark(t).traceId
            else TraceIdFor(t, sha256) == Some(r.traceId)
    ensures !r.blocked && DetectWatermark(t).Present? ==> r.text == t
    ensures !r.blocked && DetectWatermark(t).Absent? ==> AddWatermark(t, Some(r.traceId), sha256) == Some(r.text)
    ensures r.blocked ==> AddWatermark(BLOCKED_TEXT, Some(r.traceId), sha256) == Some(r.text)
  {
    hide Reasons, DetectWatermark, AddWatermark, TraceIdFor;
  }

  lemma {:induction false} MarkedShows(t: Text, rest: Text)
    ensures Shows(Marked(t) + rest)
  {
    hide Lit;
    var out := Marked(t) + rest;
    if Shows(t) {
      var i: nat :| StandsAt(t, i);
      assert out[i..i + |MARKER|] == t[i..i + |MARKER|];
      assert StandsAt(out, i);
    } else {
      assert out[|t| + 2..|t| + 2 + |MARKER|] == MARKER;
      assert StandsAt(out, |t| + 2);
    }
  }

  /** The visible marker stands in every result but a clean watermarked text that came without it. */
  lemma {:induction false} ResultShowsMarker(t: Text, tierName: string, sha256: Digest, r: FilterResult)
    requires Filter(t, tierName, sha256) == Result(r)
    ensures Shows(r.text) <==> r.blocked || DetectWatermark(t).Absent? || Shows(t)
  {
    hide Filter, Shows, Marked, DetectWatermark, CarriesId, Clean, DerivedId, Lit;
    FilterText(t, tierName, sha256, r);
    if r.blocked || DetectWatermark(t).Absent? {
      var base, id := if r.blocked then REPLACEMENT else t, r.traceId;
      var payload: Text :| CarriesId(payload, id) && r.text == Marked(base) + ([0x200B] + payload + [0x2060]);
      MarkedShows(base, [0x200B] + payload + [0x2060]);
    }
  }
}
