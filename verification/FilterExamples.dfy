/** Texts that reach the exceptions in what the filter guarantees. */
module FilterExamples {
  import opened Wrappers
  import opened Runes
  import opened BlockPatterns
  import opened AigcFilter
  import FilterLaws
  import Utf8
  import Base64Url
  import Json
  import ZeroWidth

  const BAD_WORD: Text := Lit("违法")

  lemma {:induction false} BadWordFrameLower(payload: Text)
    requires ZeroWidth.IsPayload(payload)
    ensures var t := BAD_WORD + ZeroWidth.Frame(payload); Lower(t) == t
  {
    FilterLaws.LowerFrame(payload);
    LowerUnchanged(BAD_WORD);
    hide Lower, ZeroWidth.Frame, ZeroWidth.IsPayload;
    LowerConcat(BAD_WORD, ZeroWidth.Frame(payload));
  }

  lemma {:induction false} BadWordReason(t: Text, tier: Tier)
    requires Lower(t) == t && BAD_WORD <= t
    ensures Reasons(t, tier) != []
  {
    WordOccurs("违法", t);
    HarmfulHasWord();
    assert HARMFUL in Rules(tier) by {
      assert Rules(tier)[0] == HARMFUL;
    }
    assert Contains(t, BAD_WORD) by {
      hide Lit;
      assert t[0..] == t;
    }
    hide Occurs, Lower, Contains, Reasons, Lit;
    assert !Clean(t, tier);
    NoReasonsIffClean(t, tier);
  }

  /** A text with a blocked word in front of a frame is blocked, and carries the watermark of the frame. */
  lemma {:induction false} BadWordBlocked(payload: Text, tier: Tier)
    requires ZeroWidth.IsPayload(payload)
    ensures Reasons(BAD_WORD + ZeroWidth.Frame(payload), tier) != []
    ensures DetectPayload(payload).Present? ==>
            DetectWatermark(BAD_WORD + ZeroWidth.Frame(payload)) == DetectPayload(payload)
  {
    hide DetectWatermark, DetectPayload, Lower, Reasons, ZeroWidth.Frame, ZeroWidth.IsPayload;
    FrameDetected(BAD_WORD, payload);
    BadWordFrameLower(payload);
    BadWordReason(BAD_WORD + ZeroWidth.Frame(payload), tier);
  }

  lemma HarmfulHasWord()
    ensures Word("违法") in HARMFUL.alternatives
  {
    assert HARMFUL.alternatives[0] == Word("违法");
  }

  /**
   A blocked text whose watermark names another version: the result repeats that version, and the text that is
   returned carries the current one.
   */
  lemma {:induction false} OtherVersionMisreported(id: Text, version: Text, tierName: string, sha256: Digest)
    requires TRACE_PREFIX <= id && Encodable(id) && Encodable(version) && version != [] && version != VERSION
    requires ValidateTier(tierName).Some?
    ensures EncodePayload(id, version, PROVIDER_MARKER).Some?
    ensures var frame := ZeroWidth.Frame(EncodePayload(id, version, PROVIDER_MARKER).value);
            var o := Filter(BAD_WORD + frame, tierName, sha256);
            && o.Result? && o.r.blocked && o.r.watermark.moduleVersion == version
            && DetectWatermark(o.r.text) == Present(id, VERSION, PROVIDER_MARKER)
  {
    PlainText();
    PayloadRoundTrip(id, version, PROVIDER_MARKER);
    DetectEncodedPayload(id, version, PROVIDER_MARKER);
    var payload := EncodePayload(id, version, PROVIDER_MARKER).value;
    hide EncodePayload, DetectPayload, Reasons, AddWatermark, DetectWatermark, Clean;
    var tier := ValidateTier(tierName).value;
    BadWordBlocked(payload, tier);
    var t := BAD_WORD + ZeroWidth.Frame(payload);
    FilterLaws.FilterDefined(t, tierName, sha256);
    NoReasonsIffClean(t, tier);
    FilterLaws.CleanTextLaws(t, true, sha256, tier);
  }

  /** A trace id without the prefix: the watermark is not detected, and adding it again makes the text longer. */
  lemma {:induction false} AddedTwice(sha256: Digest)
    ensures var once := AddWatermark([], Some(Lit("x")), sha256);
            once.Some? && AddWatermark(once.value, Some(Lit("x")), sha256) != once
  {
    NothingDetected();
    LitEncodable("x");
    hide DetectWatermark, AddWatermark, Encodable;
    assert |Lit("x")| == 1 && |TRACE_PREFIX| == 4;
    AddWatermarkDefined([], Some(Lit("x")), sha256);
    AddWatermarkIdempotent([], Some(Lit("x")), sha256);
  }

  lemma {:induction false} NothingDetected()
    ensures DetectWatermark([]).Absent?
  {
    assert ZeroWidth.PayloadsReverse([]) == [];
  }

  // ----- a trace id that cannot be encoded

  /** The JSON escape of a lone surrogate; the escape itself can be encoded. */
  const ESCAPE: Text := [Json.BACKSLASH, 0x75, 0x64, 0x38, 0x30, 0x30]

  function LoneId(): Text {
    TRACE_PREFIX + [0xD800]
  }

  /** A JSON string with a plain prefix and the escape. */
  function EscapedString(prefix: Text): Text {
    [Json.QUOTE] + prefix + ESCAPE + [Json.QUOTE]
  }

  function Member(key: Text, value: Text): Text {
    Json.PrintString(key) + [0x3A] + value
  }

  predicate Plain(t: Text) {
    forall i :: 0 <= i < |t| ==> Json.EscapeRune(t[i]) == [t[i]]
  }

  lemma {:induction false} ParsePlain(s: Text, t: Text, rest: Text, tail: Text)
    requires Plain(s) && Json.ParseString(t) == Json.Done(tail, rest)
    ensures Json.ParseString(s + t) == Json.Done(s + tail, rest)
  {
    hide Json.ParseString;
    if s == [] {
      assert [] + t == t && [] + tail == tail;
    } else {
      ParsePlain(s[1..], t, rest, tail);
      Json.ParseEscapedRune(s[0], s[1..] + t);
      assert s + t == [s[0]] + (s[1..] + t);
      assert [s[0]] + (s[1..] + tail) == s + tail;
    }
  }

  lemma {:induction false} ParseEscape(rest: Text)
    ensures Json.ParseString(ESCAPE + [Json.QUOTE] + rest) == Json.Done([0xD800], rest)
  {
    var t := ESCAPE + [Json.QUOTE] + rest;
    assert t[2..][0] == 0x64 && t[2..][1] == 0x38 && t[2..][2] == 0x30 && t[2..][3] == 0x30;
    assert Json.Hex4(t[2..]) == Some(0xD800);
    assert t[6..] == [Json.QUOTE] + rest;
    ParseEnd(rest);
    assert Json.LowEscape(t[6..]) == None;
    assert [0xD800] + [] == [0xD800];
  }

  lemma {:induction false} ParseEnd(rest: Text)
    ensures Json.ParseString([Json.QUOTE] + rest) == Json.Done([], rest)
  {
    assert ([Json.QUOTE] + rest)[1..] == rest;
  }

  lemma {:induction false} ParseEscapedString(prefix: Text, rest: Text)
    requires Plain(prefix)
    ensures Json.ParseValue(EscapedString(prefix) + rest) == Json.Done(Json.Str(prefix + [0xD800]), rest)
  {
    var escape := ESCAPE + [Json.QUOTE] + rest;
    ParseEscape(rest);
    ParsePlain(prefix, escape, rest, [0xD800]);
    hide Json.ParseString, Plain;
    assert EscapedString(prefix) + rest == [Json.QUOTE] + (prefix + escape);
    assert ([Json.QUOTE] + (prefix + escape))[1..] == prefix + escape;
  }

  lemma {:induction false} ParseLastMember(key: Text, prefix: Text)
    requires Plain(prefix)
    ensures Json.ParseMembers(Member(key, EscapedString(prefix)) + [0x7D])
            == Json.Done([(key, Json.Str(prefix + [0xD800]))], [])
  {
    var value, end: Text := EscapedString(prefix), [0x7D];
    var afterKey := [0x3A] + (value + end);
    var t := Member(key, value) + end;
    assert t == Json.PrintString(key) + afterKey;
    Json.ParsePrintedString(key, afterKey);
    ParseEscapedString(prefix, end);
    assert t[0] == Json.QUOTE;
    assert Json.SkipSpace(afterKey) == afterKey && afterKey[1..] == value + end;
    assert (value + end)[0] == Json.QUOTE;
    assert Json.SkipSpace(value + end) == value + end;
    assert Json.SkipSpace(end) == end && end[1..] == [];
    hide Json.ParseString, Json.ParseValue, Json.PrintString, EscapedString;
  }

  /** An object of two printed members and a last one with the escape. */
  function EscapedObject(a: (Text, Text), b: (Text, Text), key: Text, prefix: Text): Text {
    [0x7B]
    + (Json.PrintMember(a)
       + ([0x2C] + (Json.PrintMember(b) + ([0x2C] + (Member(key, EscapedString(prefix)) + [0x7D])))))
  }

  lemma {:induction false} LoadsEscapedObject(a: (Text, Text), b: (Text, Text), key: Text, prefix: Text)
    requires Plain(prefix)
    ensures Json.Loads(EscapedObject(a, b, key, prefix))
            == Some(Json.Obj([(a.0, Json.Str(a.1)), (b.0, Json.Str(b.1)), (key, Json.Str(prefix + [0xD800]))]))
  {
    hide Json.ParseMembers, Json.PrintMember, Member, EscapedString, Plain;
    var t := EscapedObject(a, b, key, prefix);
    ParseLastMember(key, prefix);
    var last := Member(key, EscapedString(prefix)) + [0x7D];
    var second := Json.PrintMember(b) + ([0x2C] + last);
    StartsWithQuote(a, b, key, EscapedString(prefix));
    assert ([0x2C] + last)[1..] == last && Json.SkipSpace(last) == last;
    Json.ParsePrintedMember(b.0, b.1, [0x2C] + last);
    assert ([0x2C] + second)[1..] == second && Json.SkipSpace(second) == second;
    Json.ParsePrintedMember(a.0, a.1, [0x2C] + second);
    var first := Json.PrintMember(a) + ([0x2C] + second);
    assert t == [0x7B] + first && t[1..] == first && Json.SkipSpace(first) == first && Json.SkipSpace(t) == t;
    var third := (key, Json.Str(prefix + [0xD800]));
    assert [(a.0, Json.Str(a.1))] + ([(b.0, Json.Str(b.1))] + [third])
           == [(a.0, Json.Str(a.1)), (b.0, Json.Str(b.1)), third];
    assert Json.ParseMembers(first).Done?;
    assert Json.ParseValue(t) == Json.Done(Json.Obj(Json.ParseMembers(first).value), []);
    assert Json.SkipSpace([]) == [];
  }

  lemma {:induction false} StartsWithQuote(a: (Text, Text), b: (Text, Text), key: Text, value: Text)
    ensures Json.PrintMember(a) != [] && Json.PrintMember(a)[0] == Json.QUOTE
    ensures Json.PrintMember(b) != [] && Json.PrintMember(b)[0] == Json.QUOTE
    ensures Member(key, value) != [] && Member(key, value)[0] == Json.QUOTE
  {
  }

  lemma {:induction false} EscapedObjectEncodable(a: (Text, Text), b: (Text, Text), key: Text, prefix: Text)
    requires Encodable(a.0) && Encodable(a.1) && Encodable(b.0) && Encodable(b.1) && Encodable(key) && Encodable(prefix)
    ensures Encodable(EscapedObject(a, b, key, prefix))
  {
    Json.PrintMemberEncodable(a);
    Json.PrintMemberEncodable(b);
    Json.PrintStringEncodable(key);
    var value := EscapedString(prefix);
    hide Json.PrintMember, Json.PrintString;
    assert Encodable(value);
    hide EscapedString;
    var member := Member(key, value);
    EncodableConcat(Json.PrintString(key) + [0x3A], value);
    EncodableConcat(Json.PrintString(key), [0x3A]);
    hide Member;
    EncodableConcat(member, [0x7D]);
    EncodableConcat([0x2C], member + [0x7D]);
    EncodableConcat(Json.PrintMember(b), [0x2C] + (member + [0x7D]));
    EncodableConcat([0x2C], Json.PrintMember(b) + ([0x2C] + (member + [0x7D])));
    EncodableConcat(Json.PrintMember(a), [0x2C] + (Json.PrintMember(b) + ([0x2C] + (member + [0x7D]))));
    EncodableConcat([0x7B], Json.PrintMember(a) + ([0x2C] + (Json.PrintMember(b) + ([0x2C] + (member + [0x7D])))));
  }

  /** The metadata with the escaped trace id, and the text that carries it. */
  function EscapedMetadata(): Text {
    EscapedObject((Lit("module_version"), VERSION), (Lit("provider"), PROVIDER_MARKER), Lit("trace_id"), TRACE_PREFIX)
  }

  lemma {:induction false} EscapedObjectIsStrings(a: (Text, Text), b: (Text, Text), key: Text, prefix: Text)
    requires Plain(prefix)
    ensures Json.Loads(EscapedObject(a, b, key, prefix))
            == Some(Json.Obj(Json.StringMembers([a, b, (key, prefix + [0xD800])])))
  {
    hide Plain, EscapedObject, Json.Loads;
    LoadsEscapedObject(a, b, key, prefix);
    assert Json.StringMembers([a, b, (key, prefix + [0xD800])])
        == [(a.0, Json.Str(a.1)), (b.0, Json.Str(b.1)), (key, Json.Str(prefix + [0xD800]))];
  }

  lemma {:induction false} EscapedMetadataDetected()
    ensures Json.Loads(EscapedMetadata()).Some? && Json.Loads(EscapedMetadata()).value.Obj?
    ensures DetectMembers(Json.Loads(EscapedMetadata()).value.members) == Present(LoneId(), VERSION, PROVIDER_MARKER)
  {
    PrefixPlain();
    PlainText();
    hide Plain, Json.Loads, EscapedObject, DetectMembers, Json.StringMembers, Encodable, Lit;
    EscapedObjectIsStrings((Lit("module_version"), VERSION), (Lit("provider"), PROVIDER_MARKER), Lit("trace_id"),
        TRACE_PREFIX);
    DetectStringMembers(LoneId(), VERSION, PROVIDER_MARKER);
  }

  lemma {:induction false} EscapedMetadataEncodable()
    ensures Encodable(EscapedMetadata()) && EscapedMetadata() != []
  {
    PlainText();
    LitEncodable("module_version");
    LitEncodable("provider");
    LitEncodable("trace_id");
    LitEncodable("trc_");
    var a, b := (Lit("module_version"), VERSION), (Lit("provider"), PROVIDER_MARKER);
    EscapedObjectNotEmpty(a, b, Lit("trace_id"), TRACE_PREFIX);
    hide EscapedObject, Encodable;
    EscapedObjectEncodable(a, b, Lit("trace_id"), TRACE_PREFIX);
  }

  lemma {:induction false} EscapedObjectNotEmpty(a: (Text, Text), b: (Text, Text), key: Text, prefix: Text)
    ensures EscapedObject(a, b, key, prefix) != []
  {
    hide Json.PrintMember, Member;
  }

  lemma PrefixPlain()
    ensures Plain(TRACE_PREFIX)
  {
  }

  /** A payload that decodes to a given text. */
  function PayloadOf(json: Text): Text
    requires Encodable(json)
  {
    ZeroWidth.EncodeBits(Base64Url.Encode(Utf8.Encode(json).value))
  }

  lemma {:induction false} PayloadDecodes(json: Text)
    requires Encodable(json) && json != []
    ensures ZeroWidth.IsPayload(PayloadOf(json)) && DecodePayload(PayloadOf(json)) == Some(json)
  {
    var raw := Utf8.Encode(json).value;
    Utf8.DecodeEncode(json);
    assert raw != [];
    Base64Url.DecodeEncode(raw);
    Base64Url.EncodeNonEmpty(raw);
    ZeroWidth.DecodeEncodeBits(Base64Url.Encode(raw));
  }

  lemma {:induction false} DetectDecoded(payload: Text, json: Text)
    requires DecodePayload(payload) == Some(json) && Json.Loads(json).Some? && Json.Loads(json).value.Obj?
    ensures DetectPayload(payload) == DetectMembers(Json.Loads(json).value.members)
  {
    hide DecodePayload, Json.Loads, DetectMembers;
  }

  /** A blocked text is refused whenever the trace id of its watermark cannot be encoded. */
  lemma {:induction false} RefusedWhenBlocked(payload: Text, tierName: string, sha256: Digest)
    requires ValidateTier(tierName).Some? && ZeroWidth.IsPayload(payload)
    requires DetectPayload(payload).Present? && !Encodable(DetectPayload(payload).traceId)
    ensures Filter(BAD_WORD + ZeroWidth.Frame(payload), tierName, sha256).NotEncodable?
  {
    hide DetectPayload, Encodable, Reasons, DetectWatermark, Filter, ZeroWidth.IsPayload;
    BadWordBlocked(payload, ValidateTier(tierName).value);
    FilterLaws.FilterDefined(BAD_WORD + ZeroWidth.Frame(payload), tierName, sha256);
  }

  /**
   A text that can be encoded, and that the filter nevertheless cannot answer: it is blocked, and the trace id of its
   watermark is the escape of a lone surrogate, which the new watermark would have to repeat.
   */
  lemma {:induction false} EncodableTextRefused(tierName: string, sha256: Digest)
    requires ValidateTier(tierName).Some?
    ensures exists t :: Encodable(t) && Filter(t, tierName, sha256).NotEncodable?
  {
    hide PayloadOf, EscapedMetadata, DecodePayload, Json.Loads, DetectMembers, DetectPayload, Encodable, Filter,
         ZeroWidth.IsPayload, LoneId, ValidateTier;
    EscapedMetadataDetected();
    EscapedMetadataEncodable();
    var json := EscapedMetadata();
    var payload := PayloadOf(json);
    PayloadDecodes(json);
    DetectDecoded(payload, json);
    LoneIdNotEncodable();
    RefusedWhenBlocked(payload, tierName, sha256);
    BadWordEncodable(payload);
  }

  lemma LoneIdNotEncodable()
    ensures !Encodable(LoneId())
  {
    assert IsSurrogate(LoneId()[|TRACE_PREFIX|]);
  }

  lemma {:induction false} BadWordEncodable(payload: Text)
    requires ZeroWidth.IsPayload(payload)
    ensures Encodable(BAD_WORD + ZeroWidth.Frame(payload))
  {
    LitEncodable("违法");
    EncodableConcat(BAD_WORD, ZeroWidth.Frame(payload));
  }
}
