/** What the block patterns search for, word by word, and which code each gives. */
module PatternMeaning {
  import opened Runes
  import opened BlockPatterns

  const HARM_WORDS: seq<string> := ["违法", "逃避追踪", "爆炸物", "制作爆炸", "武器", "攻击步骤"]
  const HATE_WORDS: seq<string> := ["仇恨", "歧视", "攻击话术", "目标群体"]
  const CYBER_WORDS: seq<string> := ["钓鱼", "窃取", "盗取", "密码", "凭证", "木马", "恶意脚本"]
  const EVASION_WORDS: seq<string> := ["绕过平台审查", "绕过审查", "规避审查"]
  const STRICT_WORDS: seq<string> := ["灰产", "绕过风控", "黑产", "薅羊毛脚本"]

  predicate HasWord(t: Text, words: seq<string>) {
    exists k :: 0 <= k < |words| && Contains(t, Lit(words[k]))
  }

  /** `api`, any number of blanks and `key`, from `i` to `j`; the second letter may be written without its dot. */
  predicate IsApiKeyAt(t: Text, i: nat, j: nat) {
    && i + 3 <= j && j + 3 <= |t|
    && t[i] == 'a' as int && t[i + 1] == 'p' as int && (t[i + 2] == 'i' as int || t[i + 2] == 0x131)
    && (forall k :: i + 3 <= k < j ==> IsSpace(t[k]))
    && t[j] == 'k' as int && t[j + 1] == 'e' as int && t[j + 2] == 'y' as int
  }

  ghost predicate HasApiKey(t: Text) {
    exists i: nat, j: nat :: IsApiKeyAt(t, i, j)
  }

  lemma {:induction false} WordsOccur(words: seq<string>, alternatives: seq<Alternative>, t: Text)
    requires |alternatives| == |words|
    requires forall k :: 0 <= k < |words| ==> alternatives[k] == Word(words[k]) && 'i' !in words[k]
    ensures AnyOccurs(alternatives, t) <==> HasWord(t, words)
  {
    hide Occurs, Contains, Word, Lit;
    forall k | 0 <= k < |words| ensures Occurs(alternatives[k], t) <==> Contains(t, Lit(words[k])) {
      WordOccurs(words[k], t);
    }
  }

  lemma {:induction false} HarmIs(t: Text)
    ensures AnyOccurs(HARMFUL.alternatives, t) <==> HasWord(t, HARM_WORDS)
  {
    WordsOccur(HARM_WORDS, HARMFUL.alternatives, t);
  }

  lemma {:induction false} HateIs(t: Text)
    ensures AnyOccurs(HATE.alternatives, t) <==> HasWord(t, HATE_WORDS)
  {
    WordsOccur(HATE_WORDS, HATE.alternatives, t);
  }

  lemma {:induction false} EvasionIs(t: Text)
    ensures AnyOccurs(EVASION.alternatives, t) <==> HasWord(t, EVASION_WORDS)
  {
    WordsOccur(EVASION_WORDS, EVASION.alternatives, t);
  }

  lemma {:induction false} StrictIs(t: Text)
    ensures AnyOccurs(STRICT_ONLY.alternatives, t) <==> HasWord(t, STRICT_WORDS)
  {
    WordsOccur(STRICT_WORDS, STRICT_ONLY.alternatives, t);
  }

  // ----- the pattern with a run of blanks

  const KEY: Alternative := Word("key")

  lemma {:induction false} KeyMatches(t: Text)
    ensures MatchesHere(KEY, t) <==> |t| >= 3 && t[0] == 'k' as int && t[1] == 'e' as int && t[2] == 'y' as int
  {
    MatchesWord("key", t);
    assert |"key"| == 3 && |Lit("key")| == 3;
    assert Lit("key")[0] == 'k' as int && Lit("key")[1] == 'e' as int && Lit("key")[2] == 'y' as int;
    hide Lit;
  }

  /** Nothing but blanks up to `j`, and the key there. */
  predicate IsKeyAfter(t: Text, j: nat) {
    j <= |t| && (forall k :: 0 <= k < j ==> IsSpace(t[k])) && MatchesHere(KEY, t[j..])
  }

  lemma {:induction false} BlanksThenKey(t: Text)
    ensures MatchesHere([Spaces] + KEY, t) <==> exists j: nat :: IsKeyAfter(t, j)
    decreases |t|
  {
    hide IsSpace;
    assert ([Spaces] + KEY)[1..] == KEY && t[0..] == t;
    if MatchesHere(KEY, t) {
      assert IsKeyAfter(t, 0);
    }
    if t != [] && IsSpace(t[0]) {
      BlanksThenKey(t[1..]);
      if j: nat :| IsKeyAfter(t[1..], j) {
        assert t[1..][j..] == t[j + 1..];
        assert forall k :: 0 < k < j + 1 ==> t[k] == t[1..][k - 1];
        assert IsKeyAfter(t, j + 1);
      }
    }
    if j: nat :| IsKeyAfter(t, j) {
      if j > 0 {
        assert t[1..][j - 1..] == t[j..];
        assert IsKeyAfter(t[1..], j - 1);
      }
    }
  }

  lemma {:induction false} LiteralFirst(c: Rune, rest: Alternative, t: Text)
    ensures MatchesHere([Literal(c)] + rest, t) <==> t != [] && LiteralMatches(c, t[0]) && MatchesHere(rest, t[1..])
  {
    assert ([Literal(c)] + rest)[1..] == rest;
  }

  /** The whole pattern, from the start of the text. */
  lemma {:induction false} ApiKeyHere(t: Text)
    ensures MatchesHere(API_KEY, t) <==>
            && |t| >= 3 && t[0] == 'a' as int && t[1] == 'p' as int && (t[2] == 'i' as int || t[2] == 0x131)
            && MatchesHere([Spaces] + KEY, t[3..])
  {
    var a, p, i := Literal('a' as int), Literal('p' as int), Literal('i' as int);
    var rest := [Spaces] + KEY;
    assert API_KEY == [a] + ([p] + ([i] + rest));
    LiteralFirst('a' as int, [p] + ([i] + rest), t);
    if |t| >= 1 {
      LiteralFirst('p' as int, [i] + rest, t[1..]);
    }
    if |t| >= 2 {
      LiteralFirst('i' as int, rest, t[1..][1..]);
    }
    if |t| >= 3 {
      assert t[1..][1..][1..] == t[3..];
    }
    hide MatchesHere;
  }

  lemma {:induction false} ApiKeyIs(t: Text)
    ensures Occurs(API_KEY, t) <==> HasApiKey(t)
  {
    OccursSomewhere(API_KEY, t);
    hide Occurs, MatchesHere, IsApiKeyAt;
    if i :| 0 <= i <= |t| && MatchesHere(API_KEY, t[i..]) {
      var j := ApiKeyEnd(t, i);
    }
    if i: nat, j: nat :| IsApiKeyAt(t, i, j) {
      ApiKeyFound(t, i, j);
    }
  }

  lemma {:induction false} ApiKeyEnd(t: Text, i: nat) returns (j: nat)
    requires i <= |t| && MatchesHere(API_KEY, t[i..])
    ensures IsApiKeyAt(t, i, j)
  {
    hide IsSpace, MatchesHere;
    var u := t[i..];
    ApiKeyHere(u);
    BlanksThenKey(u[3..]);
    var m: nat :| IsKeyAfter(u[3..], m);
    KeyMatches(u[3..][m..]);
    j := i + 3 + m;
    assert u[3..][m..] == t[j..] && t[j..][0] == t[j] && t[j..][1] == t[j + 1] && t[j..][2] == t[j + 2];
    forall k | i + 3 <= k < j ensures IsSpace(t[k]) {
      assert u[3..][k - i - 3] == t[k];
    }
  }

  lemma {:induction false} ApiKeyFound(t: Text, i: nat, j: nat)
    requires IsApiKeyAt(t, i, j)
    ensures i <= |t| && MatchesHere(API_KEY, t[i..])
  {
    hide IsSpace, MatchesHere;
    var u, m := t[i..], j - i - 3;
    ApiKeyHere(u);
    BlanksThenKey(u[3..]);
    KeyMatches(u[3..][m..]);
    assert u[3..][m..] == t[j..] && t[j..][0] == t[j] && t[j..][1] == t[j + 1] && t[j..][2] == t[j + 2];
    forall k | 0 <= k < m ensures IsSpace(u[3..][k]) {
      assert u[3..][k] == t[i + 3 + k];
    }
    assert IsKeyAfter(u[3..], m);
  }

  lemma {:induction false} CyberIs(t: Text)
    ensures AnyOccurs(CYBER.alternatives, t) <==> HasWord(t, CYBER_WORDS) || HasApiKey(t)
  {
    var words := [CYBER.alternatives[0], CYBER.alternatives[1], CYBER.alternatives[2], CYBER.alternatives[4],
                  CYBER.alternatives[5], CYBER.alternatives[6], CYBER.alternatives[7]];
    WordsOccur(CYBER_WORDS, words, t);
    ApiKeyIs(t);
    OneOfEight(CYBER.alternatives, words, t);
    hide Occurs, HasApiKey, HasWord, Word;
  }

  lemma {:induction false} OneOfEight(all: seq<Alternative>, words: seq<Alternative>, t: Text)
    requires |all| == 8 && words == [all[0], all[1], all[2], all[4], all[5], all[6], all[7]]
    ensures AnyOccurs(all, t) <==> AnyOccurs(words, t) || Occurs(all[3], t)
  {
    hide Occurs;
    if i :| 0 <= i < |all| && Occurs(all[i], t) {
      assert i != 3 ==> Occurs(words[if i < 3 then i else i - 1], t);
    }
    if i :| 0 <= i < |words| && Occurs(words[i], t) {
      assert Occurs(all[if i < 3 then i else i + 1], t);
    }
  }

  // ----- what is blocked, and as what

  /** The codes of a text, by what occurs in it when it is lowered. */
  lemma {:induction false} ReasonsMean(text: Text, tier: Tier)
    ensures var t, reasons := Lower(text), Reasons(text, tier);
            && ("illegal_harmful_instruction" in reasons <==> HasWord(t, HARM_WORDS))
            && ("hate_or_harassment" in reasons <==> HasWord(t, HATE_WORDS))
            && ("credential_or_cyber_abuse" in reasons <==> HasWord(t, CYBER_WORDS) || HasApiKey(t))
            && ("policy_evasion" in reasons <==> HasWord(t, EVASION_WORDS))
            && ("strict_policy" in reasons <==> tier.Strict? && HasWord(t, STRICT_WORDS))
  {
    var t := Lower(text);
    HarmIs(t);
    HateIs(t);
    CyberIs(t);
    EvasionIs(t);
    StrictIs(t);
    CodesAre(tier, t);
    hide AnyOccurs, HasWord, HasApiKey, Lower, Codes, Rules;
  }

  lemma {:induction false} CodesAre(tier: Tier, t: Text)
    ensures var codes := Codes(Rules(tier), |Rules(tier)|, t);
            && ("illegal_harmful_instruction" in codes <==> AnyOccurs(HARMFUL.alternatives, t))
            && ("hate_or_harassment" in codes <==> AnyOccurs(HATE.alternatives, t))
            && ("credential_or_cyber_abuse" in codes <==> AnyOccurs(CYBER.alternatives, t))
            && ("policy_evasion" in codes <==> AnyOccurs(EVASION.alternatives, t))
            && ("strict_policy" in codes <==> tier.Strict? && AnyOccurs(STRICT_ONLY.alternatives, t))
            && "illegal_harmful_instruction" != "blocked_content" && "hate_or_harassment" != "blocked_content"
            && "credential_or_cyber_abuse" != "blocked_content" && "policy_evasion" != "blocked_content"
            && "strict_policy" != "blocked_content"
  {
    hide AnyOccurs, Codes;
    CodeOccurs(tier, t, HARMFUL);
    CodeOccurs(tier, t, HATE);
    CodeOccurs(tier, t, CYBER);
    CodeOccurs(tier, t, EVASION);
    CodeOccurs(tier, t, STRICT_ONLY);
    InTier(tier);
  }

  lemma {:induction false} InTier(tier: Tier)
    ensures HARMFUL in Rules(tier) && HATE in Rules(tier) && CYBER in Rules(tier) && EVASION in Rules(tier)
    ensures STRICT_ONLY in Rules(tier) <==> tier.Strict?
  {
    CodesDiffer();
    var rules := Rules(tier);
    assert rules[0] == HARMFUL && rules[1] == HATE && rules[2] == CYBER && rules[3] == EVASION;
    assert tier.Strict? ==> rules[4] == STRICT_ONLY;
  }

  lemma {:induction false} CodesDiffer()
    ensures HARMFUL.code != HATE.code && HARMFUL.code != CYBER.code && HARMFUL.code != EVASION.code
    ensures HARMFUL.code != STRICT_ONLY.code && HATE.code != CYBER.code && HATE.code != EVASION.code
    ensures HATE.code != STRICT_ONLY.code && CYBER.code != EVASION.code && CYBER.code != STRICT_ONLY.code
    ensures EVASION.code != STRICT_ONLY.code
    ensures "blocked_content" != HARMFUL.code && "blocked_content" != HATE.code && "blocked_content" != CYBER.code
    ensures "blocked_content" != EVASION.code && "blocked_content" != STRICT_ONLY.code
  {
    assert HARMFUL.code[0] == 'i' && HATE.code[0] == 'h' && CYBER.code[0] == 'c' && EVASION.code[0] == 'p';
    assert STRICT_ONLY.code[0] == 's' && "blocked_content"[0] == 'b';
  }

  /** A rule's code is collected exactly when the rule is one of the tier's and occurs. */
  lemma {:induction false} CodeOccurs(tier: Tier, t: Text, rule: Rule)
    requires rule in Rules(Strict)
    ensures rule.code in Codes(Rules(tier), |Rules(tier)|, t) <==>
            rule in Rules(tier) && AnyOccurs(rule.alternatives, t)
    ensures rule.code != "blocked_content"
  {
    CodesDiffer();
    CodesMean(Rules(tier), |Rules(tier)|, t, rule.code);
    hide AnyOccurs, Codes;
    assert forall i :: 0 <= i < |Rules(tier)| && Rules(tier)[i].code == rule.code ==> Rules(tier)[i] == rule;
  }

  // ----- letters

  /** The same letter, but for its case. */
  predicate SameLetter(a: Rune, b: Rune) {
    || a == b
    || ('A' as int <= a <= 'Z' as int && b == a + 32)
    || ('A' as int <= b <= 'Z' as int && a == b + 32)
    || (IsKelvin(a) && IsKelvin(b))
  }

  /** The letter k and the sign for the unit, which lowers to it. */
  predicate IsKelvin(c: Rune) {
    c == 'k' as int || c == 'K' as int || c == 0x212A
  }

  /** The capital letter with a dot lowers to the small one and a dot of its own. */
  lemma {:induction false} DottedLowers(a: Text, b: Text)
    ensures Lower(a + [0x130] + b) == Lower(a) + ['i' as int, 0x307] + Lower(b)
  {
    LowerConcat(a + [0x130], b);
    LowerConcat(a, [0x130]);
    assert [0x130][1..] == [] && Lower([0x130]) == ['i' as int, 0x307] + [];
    hide Lower;
  }

  lemma {:induction false} CaseIgnored(a: Text, b: Text)
    requires |a| == |b| && forall i :: 0 <= i < |a| ==> SameLetter(a[i], b[i])
    ensures Lower(a) == Lower(b)
  {
    if a != [] {
      CaseIgnored(a[1..], b[1..]);
    }
  }

  /** The case of a letter decides nothing. */
  lemma {:induction false} CaseDecidesNothing(a: Text, b: Text, tier: Tier)
    requires |a| == |b| && forall i :: 0 <= i < |a| ==> SameLetter(a[i], b[i])
    ensures Reasons(a, tier) == Reasons(b, tier)
  {
    CaseIgnored(a, b);
    hide Lower, Codes;
  }
}
