/** The AIGC output filter: detection, blocking and re-watermarking of a text. */
module AigcFilter {
  import opened Wrappers
  import opened Runes
  import opened BlockPatterns
  import Utf8
  import Base64Url
  import Json
  import ZeroWidth

  const VERSION: Text := Lit("0.1.0")
  const PROVIDER_MARKER: Text := Lit("opticloud-aigc-filter")
  const VISIBLE_MARKER: Text := Lit("本回答由 AI 生成，仅供参考")
  const BLOCKED_TEXT: Text := Lit("内容因安全与合规策略已被拦截。")
  const BLANK_LINE: Text := [0x0A, 0x0A]
  const TRACE_PREFIX: Text := Lit("trc_")

  datatype Detection = Absent | Present(traceId: Text, moduleVersion: Text, provider: Text)

  datatype Watermark = Watermark(traceId: Text, moduleVersion: Text, provider: Text)

  datatype FilterResult = FilterResult(
    text: Text, blocked: bool, reasonCodes: seq<string>, tier: Tier, traceId: Text, watermark: Watermark)

  /** How a call can end: a result, `ValueError` for the tier, or `UnicodeEncodeError`. */
  datatype Outcome = Result(r: FilterResult) | BadTier | NotEncodable

  /** SHA-256 of a byte string, in hexadecimal; nothing about it is used but its length and that it is printable. */
  type Digest = h: Utf8.Bytes -> Text | forall b :: |h(b)| == 64 && Encodable(h(b))
      witness (_ => seq(64, _ => '0' as int))

  // ----- the codec

  /** The metadata as `json.dumps(..., sort_keys=True)` writes it: the three keys are in sorted order. */
  function MetadataJson(traceId: Text, version: Text, provider: Text): Text {
    Json.PrintObject([(Lit("module_version"), version), (Lit("provider"), provider), (Lit("trace_id"), traceId)])
  }

  /** The payload of `_encode_zero_width`; None when the metadata has no UTF-8 encoding. */
  function EncodePayload(traceId: Text, version: Text, provider: Text): (p: Option<Text>)
  {
    var raw :- Utf8.Encode(MetadataJson(traceId, version, provider));
    Some(ZeroWidth.EncodeBits(Base64Url.Encode(raw)))
  }

  function DecodePayload(payload: Text): Option<Text> {
    var encoded :- ZeroWidth.DecodeBits(payload);
    var raw :- Base64Url.Decode(encoded);
    Utf8.Decode(raw)
  }

  function DetectPayload(payload: Text): Detection {
    match DecodePayload(payload)
    case None => Absent
    case Some(decoded) =>
      match Json.Loads(decoded)
      case Some(Obj(members)) => DetectMembers(members)
      case _ => Absent
  }

  function DetectMembers(members: seq<(Text, Json.Json)>): Detection {
    var traceId := Json.Get(members, Lit("trace_id"));
    var version := Json.Get(members, Lit("module_version"));
    var provider := Json.Get(members, Lit("provider"));
    if && traceId.Some? && traceId.value.Str? && traceId.value.s != [] && TRACE_PREFIX <= traceId.value.s
       && version.Some? && version.value.Str? && version.value.s != []
       && provider == Some(Json.Str(PROVIDER_MARKER))
    then Present(traceId.value.s, version.value.s, PROVIDER_MARKER)
    else Absent
  }

  // ----- the public operations

  function FirstPresent(payloads: seq<Text>): Detection {
    if payloads == [] then Absent
    else if DetectPayload(payloads[0]).Present? then DetectPayload(payloads[0])
    else FirstPresent(payloads[1..])
  }

  function DetectWatermark(t: Text): Detection {
    FirstPresent(ZeroWidth.PayloadsReverse(t))
  }

  function TraceIdFor(t: Text, sha256: Digest): Option<Text> {
    var raw :- Utf8.Encode(t);
    Some(TRACE_PREFIX + sha256(raw)[..16])
  }

  /** An absent and an empty trace id are treated alike. */
  function EffectiveTraceId(t: Text, traceId: Option<Text>, sha256: Digest): Option<Text> {
    if traceId.Some? && traceId.value != [] then traceId else TraceIdFor(t, sha256)
  }

  function Visible(t: Text): Text {
    if Contains(t, VISIBLE_MARKER) then t else t + BLANK_LINE + VISIBLE_MARKER
  }

  function AddWatermark(t: Text, traceId: Option<Text>, sha256: Digest): Option<Text> {
    if DetectWatermark(t).Present? then Some(t)
    else
      var id :- EffectiveTraceId(t, traceId, sha256);
      var payload :- EncodePayload(id, VERSION, PROVIDER_MARKER);
      Some(Visible(t) + ZeroWidth.Frame(payload))
  }

  function ValidateTier(tier: string): Option<Tier> {
    if tier == "strict" then Some(Strict) else if tier == "loose" then Some(Loose) else None
  }

  /** The text of the result and the trace id that goes with it. */
  function CleanText(t: Text, existing: Detection, blocked: bool, sha256: Digest): Option<(Text, Text)> {
    match existing
    case Present(id, _, _) =>
      var text :- if blocked then AddWatermark(BLOCKED_TEXT, Some(id), sha256) else Some(t);
      Some((text, id))
    case Absent =>
      var id :- TraceIdFor(t, sha256);
      var text :- AddWatermark(if blocked then BLOCKED_TEXT else t, Some(id), sha256);
      Some((text, id))
  }

  function Filter(t: Text, tierName: string, sha256: Digest): Outcome {
    match ValidateTier(tierName)
    case None => BadTier
    case Some(tier) =>
      var existing := DetectWatermark(t);
      var reasons := Reasons(t, tier);
      match CleanText(t, existing, reasons != [], sha256)
      case None => NotEncodable
      case Some((text, id)) =>
        var watermark := Watermark(id,
                                   if existing.Present? then existing.moduleVersion else VERSION,
                                   if existing.Present? then existing.provider else PROVIDER_MARKER);
        Result(FilterResult(text, reasons != [], reasons, tier, id, watermark))
  }

  // ----- the codec is exact

  lemma {:induction false} MetadataEncodable(traceId: Text, version: Text, provider: Text)
    ensures Encodable(MetadataJson(traceId, version, provider)) <==>
            Encodable(traceId) && Encodable(version) && Encodable(provider)
  {
    var members := [(Lit("module_version"), version), (Lit("provider"), provider), (Lit("trace_id"), traceId)];
    LitEncodable("module_version");
    LitEncodable("provider");
    LitEncodable("trace_id");
    hide Lit, Encodable, Json.PrintObject;
    Json.PrintObjectEncodable(members);
    assert members[0].1 == version && members[1].1 == provider && members[2].1 == traceId;
  }

  /** The bytes of a payload come back through the two inner layers. */
  lemma {:induction false} BytesRoundTrip(raw: Utf8.Bytes)
    requires raw != []
    ensures ZeroWidth.IsPayload(ZeroWidth.EncodeBits(Base64Url.Encode(raw)))
    ensures DecodePayload(ZeroWidth.EncodeBits(Base64Url.Encode(raw))) == Utf8.Decode(raw)
  {
    hide Base64Url.Encode, Base64Url.Decode, ZeroWidth.EncodeBits, ZeroWidth.DecodeBits, Utf8.Decode;
    Base64Url.DecodeEncode(raw);
    Base64Url.EncodeNonEmpty(raw);
    ZeroWidth.DecodeEncodeBits(Base64Url.Encode(raw));
  }

  /** A payload exists exactly when every field has a UTF-8 encoding, and then it decodes to the metadata. */
  lemma {:induction false} PayloadRoundTrip(traceId: Text, version: Text, provider: Text)
    ensures EncodePayload(traceId, version, provider).Some? <==>
            Encodable(traceId) && Encodable(version) && Encodable(provider)
    ensures EncodePayload(traceId, version, provider).Some? ==>
              && ZeroWidth.IsPayload(EncodePayload(traceId, version, provider).value)
              && DecodePayload(EncodePayload(traceId, version, provider).value)
                 == Some(MetadataJson(traceId, version, provider))
  {
    var json := MetadataJson(traceId, version, provider);
    MetadataEncodable(traceId, version, provider);
    assert json != [] by { hide Lit; }
    hide MetadataJson, DecodePayload, Base64Url.Encode, ZeroWidth.EncodeBits, ZeroWidth.IsPayload, Encodable;
    if Encodable(json) {
      Utf8.DecodeEncode(json);
      EncodedNonEmpty(json);
      BytesRoundTrip(Utf8.Encode(json).value);
    }
  }

  lemma {:induction false} EncodedNonEmpty(t: Text)
    requires t != [] && Encodable(t)
    ensures Utf8.Encode(t).Some? && Utf8.Encode(t).value != []
  {
  }

  lemma DetectStringMembers(traceId: Text, version: Text, provider: Text)
    ensures DetectMembers(Json.StringMembers(
                            [(Lit("module_version"), version), (Lit("provider"), provider),
                             (Lit("trace_id"), traceId)])) ==
            if TRACE_PREFIX <= traceId && version != [] && provider == PROVIDER_MARKER
            then Present(traceId, version, provider) else Absent
  {
    var keyV, keyP, keyT := Lit("module_version"), Lit("provider"), Lit("trace_id");
    assert keyP[0] != keyT[0] && |keyV| != |keyP| && |keyV| != |keyT|;
    var members := Json.StringMembers([(keyV, version), (keyP, provider), (keyT, traceId)]);
    assert members == [(keyV, Json.Str(version)), (keyP, Json.Str(provider)), (keyT, Json.Str(traceId))];
    assert members[..2] == [(keyV, Json.Str(version)), (keyP, Json.Str(provider))];
    assert members[..2][..1] == [(keyV, Json.Str(version))];
    assert Json.Get(members, keyT) == Some(Json.Str(traceId));
    assert Json.Get(members, keyP) == Json.Get(members[..2], keyP) == Some(Json.Str(provider));
    assert Json.Get(members, keyV) == Json.Get(members[..2], keyV) == Json.Get(members[..2][..1], keyV)
        == Some(Json.Str(version));
  }

  /** A frame of the encoder is detected, with its own fields, exactly when the detector's rules admit them. */
  lemma DetectEncodedPayload(traceId: Text, version: Text, provider: Text)
    requires EncodePayload(traceId, version, provider).Some?
    ensures DetectPayload(EncodePayload(traceId, version, provider).value) ==
            if TRACE_PREFIX <= traceId && version != [] && provider == PROVIDER_MARKER
            then Present(traceId, version, provider) else Absent
  {
    PayloadRoundTrip(traceId, version, provider);
    Json.LoadsInvertsPrint([(Lit("module_version"), version), (Lit("provider"), provider), (Lit("trace_id"), traceId)]);
    DetectStringMembers(traceId, version, provider);
  }

  /** A watermark that is reported always carries a trace id with the prefix and the provider's mark. */
  lemma {:induction false} DetectedFields(payloads: seq<Text>)
    ensures var d := FirstPresent(payloads);
            d.Present? ==>
              TRACE_PREFIX <= d.traceId && d.traceId != [] && d.moduleVersion != [] && d.provider == PROVIDER_MARKER
  {
    if payloads != [] {
      DetectedFields(payloads[1..]);
    }
  }

  // ----- watermarking

  lemma PlainText()
    ensures ZeroWidth.END !in BLANK_LINE + VISIBLE_MARKER
    ensures Encodable(VERSION) && Encodable(PROVIDER_MARKER) && VERSION != []
  {
    LitEncodable("0.1.0");
    LitEncodable("opticloud-aigc-filter");
  }

  lemma VisibleKeepsDetection(t: Text)
    ensures t <= Visible(t) && DetectWatermark(Visible(t)) == DetectWatermark(t)
  {
    PlainText();
    ZeroWidth.AppendPlain(t, BLANK_LINE + VISIBLE_MARKER);
    assert t + BLANK_LINE + VISIBLE_MARKER == t + (BLANK_LINE + VISIBLE_MARKER);
  }

  /** A frame put at the end of a text takes precedence when its payload is valid, and is ignored otherwise. */
  lemma FrameDetected(t: Text, payload: Text)
    requires ZeroWidth.IsPayload(payload)
    ensures DetectWatermark(t + ZeroWidth.Frame(payload)) ==
            if DetectPayload(payload).Present? then DetectPayload(payload) else DetectWatermark(t)
  {
    ZeroWidth.AppendFrame(t, payload);
    assert ([payload] + ZeroWidth.PayloadsReverse(t))[1..] == ZeroWidth.PayloadsReverse(t);
  }

  lemma TraceIdForDefined(t: Text, sha256: Digest)
    ensures TraceIdFor(t, sha256).Some? <==> Encodable(t)
    ensures TraceIdFor(t, sha256).Some? ==>
              TRACE_PREFIX <= TraceIdFor(t, sha256).value && Encodable(TraceIdFor(t, sha256).value)
  {
    if Encodable(t) {
      LitEncodable("trc_");
      var digest := sha256(Utf8.Encode(t).value);
      EncodableConcat(TRACE_PREFIX, digest[..16]);
    }
  }

  /** Watermarking fails exactly when there is no watermark yet and the trace id cannot be made or encoded. */
  lemma AddWatermarkDefined(t: Text, traceId: Option<Text>, sha256: Digest)
    ensures AddWatermark(t, traceId, sha256).Some? <==>
            || DetectWatermark(t).Present?
            || (if traceId.Some? && traceId.value != [] then Encodable(traceId.value) else Encodable(t))
  {
    TraceIdForDefined(t, sha256);
    PlainText();
    if EffectiveTraceId(t, traceId, sha256).Some? {
      PayloadRoundTrip(EffectiveTraceId(t, traceId, sha256).value, VERSION, PROVIDER_MARKER);
    }
  }

  /**
   The text is kept as a prefix. A watermark that was there stays the one that is detected; otherwise the new one
   is detected exactly when its trace id has the prefix, whatever stray zero-width characters the text holds.
   */
  lemma AddWatermarkDetected(t: Text, traceId: Option<Text>, sha256: Digest)
    requires AddWatermark(t, traceId, sha256).Some?
    ensures t <= AddWatermark(t, traceId, sha256).value
    ensures DetectWatermark(AddWatermark(t, traceId, sha256).value) ==
            if DetectWatermark(t).Present? then DetectWatermark(t)
            else
              var id := EffectiveTraceId(t, traceId, sha256).value;
              if TRACE_PREFIX <= id then Present(id, VERSION, PROVIDER_MARKER) else Absent
  {
    hide EncodePayload, DetectPayload, DetectWatermark, Contains, EffectiveTraceId;
    if DetectWatermark(t).Absent? {
      var id := EffectiveTraceId(t, traceId, sha256).value;
      var payload := EncodePayload(id, VERSION, PROVIDER_MARKER).value;
      PayloadRoundTrip(id, VERSION, PROVIDER_MARKER);
      DetectEncodedPayload(id, VERSION, PROVIDER_MARKER);
      PlainText();
      VisibleKeepsDetection(t);
      FrameDetected(Visible(t), payload);
    }
  }

  /** Watermarking twice is watermarking once exactly when the result is detected as watermarked. */
  lemma AddWatermarkIdempotent(t: Text, traceId: Option<Text>, sha256: Digest)
    requires AddWatermark(t, traceId, sha256).Some?
    ensures var once := AddWatermark(t, traceId, sha256);
            AddWatermark(once.value, traceId, sha256) == once <==>
            || DetectWatermark(t).Present?
            || traceId.None? || traceId.value == []
            || TRACE_PREFIX <= traceId.value
  {
    var once := AddWatermark(t, traceId, sha256).value;
    AddWatermarkDetected(t, traceId, sha256);
    TraceIdForDefined(t, sha256);
    if DetectWatermark(once).Absent? {
      AddWatermarkDefined(t, traceId, sha256);
      AddWatermarkDefined(once, traceId, sha256);
      var twice := AddWatermark(once, traceId, sha256).value;
      assert |twice| > |once|;
    }
  }
}
