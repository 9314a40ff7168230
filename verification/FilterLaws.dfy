/** What the filter guarantees about the text it returns. */
module FilterLaws {
  import opened Wrappers
  import opened Runes
  import opened BlockPatterns
  import opened AigcFilter
  import ZeroWidth

  // ----- the text that the filter adds can neither contain nor complete a match

  const LOWERED_MARKER: Text := Lit("本回答由 ai 生成，仅供参考")

  /**
   The characters of the lowered visible marker and of the replacement text, line feeds and the zero-width alphabet.
   */
  predicate IsCanned(c: Rune) {
    || c == 0x0A || 0x200B <= c <= 0x200D || c == 0x2060
    || c == 0x20 || c == 0x61 || c == 0x69 || c == 0x3002 || c == 0x4E0E || c == 0x4EC5 || c == 0x4F9B
    || c == 0x5168 || c == 0x5185 || c == 0x53C2 || c == 0x5408 || c == 0x56DE || c == 0x56E0
    || c == 0x5B89 || c == 0x5BB9 || c == 0x5DF2 || c == 0x6210 || c == 0x622A || c == 0x62E6
    || c == 0x672C || c == 0x751F || c == 0x7531 || c == 0x7565 || c == 0x7B54 || c == 0x7B56
    || c == 0x8003 || c == 0x88AB || c == 0x89C4 || c == 0xFF0C
  }

  /** What all the block alternatives have in common, and why added text is harmless to them. */
  ghost predicate Sound(a: Alternative) {
    && |a| >= 2
    && a[1].Literal?
    && a[|a| - 1].Literal?
    && (forall k :: 0 <= k < |a| && a[k].Literal? ==> !TokenAccepts(a[k], 0x0A) && !TokenAccepts(a[k], ZeroWidth.START))
    && (forall c: Rune :: IsCanned(c) ==> !TokenAccepts(a[1], c))
    && ((forall k :: 0 <= k < |a| ==> a[k].Literal?) || a == API_KEY)
  }

  lemma WordSound(s: string)
    requires |s| >= 2 && !IsCanned(s[1] as int)
    requires forall k :: 0 <= k < |s| ==> 0x3000 < s[k] as int
    ensures Sound(Word(s))
  {
  }

  lemma ApiKeySound()
    ensures Sound(API_KEY)
  {
    assert API_KEY[1] == Literal('p' as int);
  }

  lemma HarmfulSound(a: Alternative)
    requires a in HARMFUL.alternatives
    ensures Sound(a)
  {
    hide Sound;
    WordSound("违法"); WordSound("逃避追踪"); WordSound("爆炸物"); WordSound("制作爆炸"); WordSound("武器"); WordSound("攻击步骤");
  }

  lemma HateSound(a: Alternative)
    requires a in HATE.alternatives
    ensures Sound(a)
  {
    hide Sound;
    WordSound("仇恨"); WordSound("歧视"); WordSound("攻击话术"); WordSound("目标群体");
  }

  lemma CyberSound(a: Alternative)
    requires a in CYBER.alternatives
    ensures Sound(a)
  {
    hide Sound;
    WordSound("钓鱼"); WordSound("窃取"); WordSound("盗取"); WordSound("密码"); WordSound("凭证"); WordSound("木马");
    WordSound("恶意脚本");
    ApiKeySound();
  }

  lemma EvasionSound(a: Alternative)
    requires a in EVASION.alternatives
    ensures Sound(a)
  {
    hide Sound;
    WordSound("绕过平台审查"); WordSound("绕过审查"); WordSound("规避审查");
  }

  lemma StrictOnlySound(a: Alternative)
    requires a in STRICT_ONLY.alternatives
    ensures Sound(a)
  {
    hide Sound;
    WordSound("灰产"); WordSound("绕过风控"); WordSound("黑产"); WordSound("薅羊毛脚本");
  }

  lemma AlternativesSound(tier: Tier, r: Rule, a: Alternative)
    requires r in Rules(tier) && a in r.alternatives
    ensures Sound(a)
  {
    hide Sound, HARMFUL, HATE, CYBER, EVASION, STRICT_ONLY;
    if r == HARMFUL {
      HarmfulSound(a);
    } else if r == HATE {
      HateSound(a);
    } else if r == CYBER {
      CyberSound(a);
    } else if r == EVASION {
      EvasionSound(a);
    } else {
      StrictOnlySound(a);
    }
  }

  lemma CannedUnmatched(a: Alternative, t: Text)
    requires Sound(a)
    requires forall i :: 0 <= i < |t| ==> IsCanned(t[i])
    ensures !Occurs(a, t)
  {
    OccursNeedsLiteral(a, 1, t);
  }

  lemma FrameAddsNoMatch(a: Alternative, x: Text, payload: Text)
    requires Sound(a) && ZeroWidth.AllBits(payload)
    ensures Occurs(a, x + ZeroWidth.Frame(payload)) ==> Occurs(a, x)
  {
    var y := payload + [ZeroWidth.END];
    assert x + ZeroWidth.Frame(payload) == x + [ZeroWidth.START] + y;
    OccursSeparated(a, x, ZeroWidth.START, y);
    CannedUnmatched(a, y);
  }

  lemma MarkerCanned()
    ensures forall i :: 0 <= i < |LOWERED_MARKER| ==> IsCanned(LOWERED_MARKER[i])
  {
  }

  lemma MarkerAddsNoMatch(a: Alternative, x: Text)
    requires Sound(a)
    ensures Occurs(a, x + BLANK_LINE + LOWERED_MARKER) ==> Occurs(a, x)
  {
    MarkerCanned();
    var t := x + BLANK_LINE + LOWERED_MARKER;
    if a == API_KEY {
      var y := LOWERED_MARKER[1..];
      assert t == (x + [0x0A] + [0x0A]) + [LOWERED_MARKER[0]] + y;
      assert LOWERED_MARKER[0] == '本' as int;
      OccursSeparated(a, x + [0x0A] + [0x0A], LOWERED_MARKER[0], y);
      CannedUnmatched(a, y);
      OccursTrailing(a, x + [0x0A], 0x0A);
      OccursTrailing(a, x, 0x0A);
    } else {
      var y := [0x0A] + LOWERED_MARKER;
      assert t == x + [0x0A] + y;
      OccursSeparated(a, x, 0x0A, y);
      CannedUnmatched(a, y);
    }
  }

  lemma {:induction false} LowerMarker()
    ensures Lower(VISIBLE_MARKER) == LOWERED_MARKER
  {
    var a, b, c := Lit("本回答由 "), Lit("AI"), Lit(" 生成，仅供参考");
    assert VISIBLE_MARKER == a + b + c;
    assert LOWERED_MARKER == a + Lit("ai") + c;
    LowerHalves();
    hide Lower, Lit;
    LowerAI();
    LowerConcat(a + b, c);
    LowerConcat(a, b);
  }

  lemma {:induction false} LowerHalves()
    ensures Lower(Lit("本回答由 ")) == Lit("本回答由 ") && Lower(Lit(" 生成，仅供参考")) == Lit(" 生成，仅供参考")
  {
    hide Lower;
    LowerUnchanged(Lit("本回答由 "));
    LowerUnchanged(Lit(" 生成，仅供参考"));
  }

  lemma LowerAI()
    ensures Lower(Lit("AI")) == Lit("ai")
  {
    var t := Lit("AI");
    assert LowerRune(t[0]) == ['a' as int] && LowerRune(t[1]) == ['i' as int];
    assert t[1..][1..] == [];
    assert Lower(t[1..]) == ['i' as int];
  }

  lemma LowerBlank()
    ensures Lower(BLANK_LINE) == BLANK_LINE
  {
    LowerUnchanged(BLANK_LINE);
  }

  lemma LowerBlocked()
    ensures Lower(BLOCKED_TEXT) == BLOCKED_TEXT
  {
    LowerUnchanged(BLOCKED_TEXT);
  }

  lemma LowerFrame(payload: Text)
    requires ZeroWidth.AllBits(payload)
    ensures Lower(ZeroWidth.Frame(payload)) == ZeroWidth.Frame(payload)
  {
    LowerUnchanged(ZeroWidth.Frame(payload));
  }

  /** Marking and framing a clean text leaves it clean. */
  lemma MarkedStaysClean(t: Text, payload: Text, tier: Tier)
    requires Clean(t, tier) && ZeroWidth.AllBits(payload)
    ensures Clean(Visible(t) + ZeroWidth.Frame(payload), tier)
  {
    hide Occurs, Contains, Lower, Sound;
    var out := Visible(t) + ZeroWidth.Frame(payload);
    LowerMarker();
    LowerBlank();
    LowerFrame(payload);
    LowerConcat(Visible(t), ZeroWidth.Frame(payload));
    LowerConcat(t + BLANK_LINE, VISIBLE_MARKER);
    LowerConcat(t, BLANK_LINE);
    forall r, a | r in Rules(tier) && a in r.alternatives
      ensures !Occurs(a, Lower(out))
    {
      AlternativesSound(tier, r, a);
      FrameAddsNoMatch(a, Lower(Visible(t)), payload);
      MarkerAddsNoMatch(a, Lower(t));
    }
  }

  lemma BlockedCanned()
    ensures forall i :: 0 <= i < |BLOCKED_TEXT| ==> IsCanned(BLOCKED_TEXT[i])
  {
  }

  lemma BlockedTextClean(tier: Tier)
    ensures Clean(BLOCKED_TEXT, tier)
  {
    hide Occurs, Lower, Sound;
    LowerBlocked();
    BlockedCanned();
    forall r, a | r in Rules(tier) && a in r.alternatives
      ensures !Occurs(a, Lower(BLOCKED_TEXT))
    {
      AlternativesSound(tier, r, a);
      CannedUnmatched(a, BLOCKED_TEXT);
    }
  }

  /** Watermarking a clean text gives a clean text. */
  lemma AddWatermarkClean(t: Text, traceId: Option<Text>, sha256: Digest, tier: Tier)
    requires Clean(t, tier) && AddWatermark(t, traceId, sha256).Some?
    ensures Clean(AddWatermark(t, traceId, sha256).value, tier)
  {
    hide Clean, EncodePayload, Visible, EffectiveTraceId, DetectWatermark;
    if DetectWatermark(t).Absent? {
      var id := EffectiveTraceId(t, traceId, sha256).value;
      PayloadRoundTrip(id, VERSION, PROVIDER_MARKER);
      MarkedStaysClean(t, EncodePayload(id, VERSION, PROVIDER_MARKER).value, tier);
    }
  }

  // ----- the filter

  lemma BlockedTextUnmarked()
    ensures DetectWatermark(BLOCKED_TEXT).Absent?
  {
    assert ZeroWidth.END !in BLOCKED_TEXT;
    ZeroWidth.AppendPlain([], BLOCKED_TEXT);
    assert [] + BLOCKED_TEXT == BLOCKED_TEXT;
  }

  /** The part of the result that the rest depends on: the text carries the trace id and is clean. */
  lemma CleanTextLaws(t: Text, blocked: bool, sha256: Digest, tier: Tier)
    requires blocked <==> !Clean(t, tier)
    requires CleanText(t, DetectWatermark(t), blocked, sha256).Some?
    ensures var existing := DetectWatermark(t);
            var (text, id) := CleanText(t, existing, blocked, sha256).value;
            && Clean(text, tier)
            && (!blocked ==> t <= text)
            && DetectWatermark(text) ==
               (if existing.Present? && !blocked then existing else Present(id, VERSION, PROVIDER_MARKER))
            && id == (if existing.Present? then existing.traceId else TraceIdFor(t, sha256).value)
  {
    hide Clean, AddWatermark, ZeroWidth.PayloadsReverse;
    DetectedFields(ZeroWidth.PayloadsReverse(t));
    TraceIdForDefined(t, sha256);
    BlockedTextUnmarked();
    BlockedTextClean(tier);
    var id := CleanText(t, DetectWatermark(t), blocked, sha256).value.1;
    assert TRACE_PREFIX <= id && id != [];
    assert EffectiveTraceId(t, Some(id), sha256) == Some(id) == EffectiveTraceId(BLOCKED_TEXT, Some(id), sha256);
    if blocked {
      AddWatermarkDetected(BLOCKED_TEXT, Some(id), sha256);
      AddWatermarkClean(BLOCKED_TEXT, Some(id), sha256, tier);
    } else if DetectWatermark(t).Absent? {
      AddWatermarkDetected(t, Some(id), sha256);
      AddWatermarkClean(t, Some(id), sha256, tier);
    }
  }

  /** A result is refused exactly for a bad tier, or when a trace id is needed that has no encoding. */
  lemma FilterDefined(t: Text, tierName: string, sha256: Digest)
    ensures Filter(t, tierName, sha256).BadTier? <==> tierName != "strict" && tierName != "loose"
    ensures Filter(t, tierName, sha256).NotEncodable? <==>
            && ValidateTier(tierName).Some?
            && (if DetectWatermark(t).Present?
                then Reasons(t, ValidateTier(tierName).value) != [] && !Encodable(DetectWatermark(t).traceId)
                else !Encodable(t))
  {
    hide Reasons, AddWatermark, DetectWatermark;
    TraceIdForDefined(t, sha256);
    BlockedTextUnmarked();
    DetectedFields(ZeroWidth.PayloadsReverse(t));
    assert DetectWatermark(t) == FirstPresent(ZeroWidth.PayloadsReverse(t)) by { DetectUnfold(t); }
    if DetectWatermark(t).Present? {
      AddWatermarkDefined(BLOCKED_TEXT, Some(DetectWatermark(t).traceId), sha256);
    } else if TraceIdFor(t, sha256).Some? {
      AddWatermarkDefined(BLOCKED_TEXT, TraceIdFor(t, sha256), sha256);
      AddWatermarkDefined(t, TraceIdFor(t, sha256), sha256);
    }
  }

  lemma DetectUnfold(t: Text)
    ensures DetectWatermark(t) == FirstPresent(ZeroWidth.PayloadsReverse(t))
  {
  }

  /**
   The text returned contains no block pattern of the tier, its detected watermark carries the result's trace id,
   a text that was let through is kept as a prefix, and nothing of a blocked text but its trace id is.
   */
  lemma {:induction false} FilterOutput(t: Text, tierName: string, sha256: Digest, r: FilterResult)
    ensures Filter(t, tierName, sha256) == Result(r) ==>
              && Reasons(r.text, r.tier) == []
              && DetectWatermark(r.text).Present?
              && DetectWatermark(r.text).traceId == r.traceId == r.watermark.traceId
              && (!r.blocked ==> t <= r.text)
              && (r.blocked ==> AddWatermark(BLOCKED_TEXT, Some(r.traceId), sha256) == Some(r.text))
              && (r.blocked <==> !Clean(t, r.tier))
              && (r.blocked <==> r.reasonCodes != [])
              && ValidateTier(tierName) == Some(r.tier)
  {
    hide Reasons, AddWatermark, DetectWatermark, Clean;
    if Filter(t, tierName, sha256) == Result(r) {
      NoReasonsIffClean(t, r.tier);
      NoReasonsIffClean(r.text, r.tier);
      CleanTextLaws(t, r.blocked, sha256, r.tier);
    }
  }

  /** A clean text that carries a watermark is returned as it is. */
  lemma {:induction false} FilterKeeps(t: Text, tier: Tier, sha256: Digest)
    ensures DetectWatermark(t).Present? && Reasons(t, tier) == [] ==>
              && Filter(t, TierName(tier), sha256).Result?
              && var r := Filter(t, TierName(tier), sha256).r;
                 r.text == t && r.traceId == DetectWatermark(t).traceId && !r.blocked
  {
    hide Reasons, AddWatermark, DetectWatermark;
  }

  function TierName(tier: Tier): (name: string)
    ensures ValidateTier(name) == Some(tier)
  {
    if tier.Strict? then "strict" else "loose"
  }

  /** Filtering a filtered text changes nothing: neither the text nor its trace id. */
  lemma {:induction false} FilterFixedPoint(t: Text, tierName: string, sha256: Digest, r: FilterResult)
    ensures Filter(t, tierName, sha256) == Result(r) ==>
              && Filter(r.text, tierName, sha256).Result?
              && var again := Filter(r.text, tierName, sha256).r;
                 again.text == r.text && again.traceId == r.traceId && !again.blocked
  {
    hide Filter, Reasons, AddWatermark, DetectWatermark, Clean;
    FilterOutput(t, tierName, sha256, r);
    if Filter(t, tierName, sha256) == Result(r) {
      assert tierName == TierName(r.tier);
      FilterKeeps(r.text, r.tier, sha256);
    }
  }

  /** A text filtered strictly is also left alone by the loose tier. */
  lemma {:induction false} StrictFixedUnderLoose(t: Text, sha256: Digest, r: FilterResult)
    ensures Filter(t, "strict", sha256) == Result(r) ==>
              && Filter(r.text, "loose", sha256).Result?
              && var again := Filter(r.text, "loose", sha256).r;
                 again.text == r.text && again.traceId == r.traceId && !again.blocked
  {
    hide Filter, Reasons, AddWatermark, DetectWatermark, Clean;
    FilterOutput(t, "strict", sha256, r);
    StrictExtendsLoose(r.text);
    FilterKeeps(r.text, Loose, sha256);
  }

  /**
   The watermark fields of the result are those found in the returned text, except when the text given is blocked and
   carries a watermark of another version: the result then names the old version and the text the current one.
   */
  lemma {:induction false} WatermarkFieldsMatch(t: Text, tier: Tier, sha256: Digest, r: FilterResult)
    ensures Filter(t, TierName(tier), sha256) == Result(r) ==>
              (DetectWatermark(r.text)
               == Present(r.watermark.traceId, r.watermark.moduleVersion, r.watermark.provider) <==>
               !(!Clean(t, tier) && DetectWatermark(t).Present? && DetectWatermark(t).moduleVersion != VERSION))
  {
    hide Reasons, AddWatermark, ZeroWidth.PayloadsReverse, Clean;
    if Filter(t, TierName(tier), sha256) == Result(r) {
      NoReasonsIffClean(t, tier);
      CleanTextLaws(t, r.blocked, sha256, tier);
      DetectedFields(ZeroWidth.PayloadsReverse(t));
    }
  }
}
