/** The block patterns, the way a text is searched for them, and what can and cannot create a match. */
module BlockPatterns {
  import opened Runes

  /** A pattern is a list of alternatives; an alternative is a list of tokens. */
  datatype Token = Literal(c: Rune) | Spaces

  type Alternative = seq<Token>

  datatype Rule = Rule(alternatives: seq<Alternative>, code: string)

  datatype Tier = Strict | Loose

  function Word(s: string): (a: Alternative)
    ensures |a| == |s|
    ensures forall i :: 0 <= i < |s| ==> a[i] == Literal(s[i] as int)
  {
    seq(|s|, i requires 0 <= i < |s| => Literal(s[i] as int))
  }

  /** `api\s*key` */
  const API_KEY: Alternative := Word("api") + [Spaces] + Word("key")

  const HARMFUL: Rule := Rule([Word("违法"), Word("逃避追踪"), Word("爆炸物"), Word("制作爆炸"), Word("武器"), Word("攻击步骤")],
                              "illegal_harmful_instruction")
  const HATE: Rule := Rule([Word("仇恨"), Word("歧视"), Word("攻击话术"), Word("目标群体")], "hate_or_harassment")
  const CYBER: Rule := Rule([Word("钓鱼"), Word("窃取"), Word("盗取"), API_KEY, Word("密码"), Word("凭证"), Word("木马"),
                             Word("恶意脚本")],
                            "credential_or_cyber_abuse")
  const EVASION: Rule := Rule([Word("绕过平台审查"), Word("绕过审查"), Word("规避审查")], "policy_evasion")
  const STRICT_ONLY: Rule := Rule([Word("灰产"), Word("绕过风控"), Word("黑产"), Word("薅羊毛脚本")], "strict_policy")

  function Rules(tier: Tier): seq<Rule> {
    [HARMFUL, HATE, CYBER, EVASION] + if tier.Strict? then [STRICT_ONLY] else []
  }

  /**
   `str.lower()`, as far as a pattern can see it: U+0130 becomes two characters and U+212A becomes `k`;
   every other letter outside ASCII lowers to letters that no pattern mentions, so it stays as it is here.
   */
  function LowerRune(c: Rune): Text {
    if 'A' as int <= c <= 'Z' as int then [c + 32]
    else if c == 0x130 then ['i' as int, 0x307]
    else if c == 0x212A then ['k' as int]
    else [c]
  }

  function Lower(t: Text): Text {
    if t == [] then [] else LowerRune(t[0]) + Lower(t[1..])
  }

  /** A literal of a case-insensitive pattern, against a lowered character. */
  predicate LiteralMatches(literal: Rune, c: Rune) {
    c == literal || (literal == 'i' as int && c == 0x131)
  }

  predicate TokenAccepts(token: Token, c: Rune) {
    match token
    case Literal(literal) => LiteralMatches(literal, c)
    case Spaces => IsSpace(c)
  }

  /** The alternative matches at the start of the text. */
  predicate MatchesHere(a: Alternative, t: Text)
    decreases |a| + |t|
  {
    if a == [] then true
    else match a[0]
      case Literal(_) => t != [] && TokenAccepts(a[0], t[0]) && MatchesHere(a[1..], t[1..])
      case Spaces =>
        || MatchesHere(a[1..], t)
        || (t != [] && TokenAccepts(a[0], t[0]) && MatchesHere(a, t[1..]))
  }

  /** `re.search` of one alternative. */
  predicate Occurs(a: Alternative, t: Text)
    decreases |t|
  {
    MatchesHere(a, t) || (t != [] && Occurs(a, t[1..]))
  }

  predicate AnyOccurs(alternatives: seq<Alternative>, t: Text) {
    exists i :: 0 <= i < |alternatives| && Occurs(alternatives[i], t)
  }

  /** The codes collected from the first `n` rules. */
  function Codes(rules: seq<Rule>, n: nat, t: Text): seq<string>
    requires n <= |rules|
  {
    if n == 0 then []
    else
      var before := Codes(rules, n - 1, t);
      if AnyOccurs(rules[n - 1].alternatives, t) && rules[n - 1].code !in before then before + [rules[n - 1].code]
      else before
  }

  function Reasons(t: Text, tier: Tier): seq<string> {
    var codes := Codes(Rules(tier), |Rules(tier)|, Lower(t));
    if codes == [] then [] else codes + ["blocked_content"]
  }

  /** `_reason_codes`, which collects the codes in a loop. */
  method ReasonCodes(t: Text, tier: Tier) returns (reasons: seq<string>)
    ensures reasons == Reasons(t, tier)
  {
    var normalized := Lower(t);
    var patterns := Rules(tier);
    reasons := [];
    for n := 0 to |patterns|
      invariant reasons == Codes(patterns, n, normalized)
    {
      if AnyOccurs(patterns[n].alternatives, normalized) && patterns[n].code !in reasons {
        reasons := reasons + [patterns[n].code];
      }
    }
    if reasons != [] {
      reasons := reasons + ["blocked_content"];
    }
  }

  // ----- what the reasons mean

  /** A code is collected exactly when one of the rules that carry it occurs in the text. */
  lemma {:induction false} CodesMean(rules: seq<Rule>, n: nat, t: Text, code: string)
    requires n <= |rules|
    ensures code in Codes(rules, n, t) <==>
            exists i :: 0 <= i < n && rules[i].code == code && AnyOccurs(rules[i].alternatives, t)
  {
    if n > 0 {
      CodesMean(rules, n - 1, t, code);
    }
  }

  lemma {:induction false} CodesEmpty(rules: seq<Rule>, n: nat, t: Text)
    requires n <= |rules|
    ensures Codes(rules, n, t) == [] <==> forall i :: 0 <= i < n ==> !AnyOccurs(rules[i].alternatives, t)
  {
    if n > 0 {
      CodesEmpty(rules, n - 1, t);
    }
  }

  ghost predicate Clean(t: Text, tier: Tier) {
    forall r, a :: r in Rules(tier) && a in r.alternatives ==> !Occurs(a, Lower(t))
  }

  /** No reason is given exactly when no alternative of any rule of the tier occurs. */
  lemma NoReasonsIffClean(t: Text, tier: Tier)
    ensures Reasons(t, tier) == [] <==> Clean(t, tier)
  {
    var rules := Rules(tier);
    CodesEmpty(rules, |rules|, Lower(t));
    if Clean(t, tier) {
      forall i | 0 <= i < |rules|
        ensures !AnyOccurs(rules[i].alternatives, Lower(t))
      {
        assert rules[i] in rules;
      }
    }
  }

  /** The loose tier blocks no text that the strict tier lets through, and gives the same codes in the same order. */
  lemma StrictExtendsLoose(t: Text)
    ensures Reasons(t, Strict) == [] ==> Reasons(t, Loose) == []
    ensures forall code :: code in Reasons(t, Loose) ==> code in Reasons(t, Strict)
  {
    var strict, loose, lowered := Rules(Strict), Rules(Loose), Lower(t);
    CodesPrefix(loose, [STRICT_ONLY], |loose|, lowered);
    assert strict == loose + [STRICT_ONLY];
    assert Codes(loose, |loose|, lowered) <= Codes(strict, |strict|, lowered);
  }

  lemma {:induction false} CodesPrefix(rules: seq<Rule>, more: seq<Rule>, n: nat, t: Text)
    requires n <= |rules|
    ensures Codes(rules + more, n, t) == Codes(rules, n, t)
  {
    if n > 0 {
      CodesPrefix(rules, more, n - 1, t);
    }
  }

  /** An alternative occurs in a text when it matches at some position of it. */
  lemma {:induction false} OccursSomewhere(a: Alternative, t: Text)
    ensures Occurs(a, t) <==> exists i :: 0 <= i <= |t| && MatchesHere(a, t[i..])
  {
    assert t[0..] == t;
    if t != [] {
      OccursSomewhere(a, t[1..]);
      assert forall i :: 0 < i <= |t| ==> t[i..] == t[1..][i - 1..];
      assert forall i :: 0 <= i < |t| ==> t[1..][i..] == t[i + 1..];
    }
  }

  lemma {:induction false} MatchesWord(s: string, t: Text)
    requires 'i' !in s
    ensures MatchesHere(Word(s), t) <==> Lit(s) <= t
  {
    if s != "" && t != [] {
      MatchesWord(s[1..], t[1..]);
      assert Word(s)[1..] == Word(s[1..]);
      assert Lit(s) == [s[0] as int] + Lit(s[1..]);
      assert Lit(s) <= t <==> s[0] as int == t[0] && Lit(s[1..]) <= t[1..];
    }
  }

  /** A word pattern is a substring test. */
  lemma WordOccurs(s: string, t: Text)
    requires 'i' !in s
    ensures Occurs(Word(s), t) <==> Contains(t, Lit(s))
  {
    OccursSomewhere(Word(s), t);
    forall i | 0 <= i <= |t|
      ensures MatchesHere(Word(s), t[i..]) <==> Lit(s) <= t[i..]
    {
      MatchesWord(s, t[i..]);
    }
  }

  // ----- where matches can and cannot appear

  lemma {:induction false} LowerConcat(a: Text, b: Text)
    ensures Lower(a + b) == Lower(a) + Lower(b)
  {
    hide LowerRune;
    if a == [] {
      assert a + b == b;
      assert Lower(a) + Lower(b) == Lower(b);
    } else {
      LowerConcat(a[1..], b);
      assert (a + b)[1..] == a[1..] + b && (a + b)[0] == a[0];
      assert LowerRune(a[0]) + (Lower(a[1..]) + Lower(b)) == LowerRune(a[0]) + Lower(a[1..]) + Lower(b);
    }
  }

  lemma {:induction false} LowerUnchanged(t: Text)
    requires forall i :: 0 <= i < |t| ==> LowerRune(t[i]) == [t[i]]
    ensures Lower(t) == t
  {
    if t != [] {
      LowerUnchanged(t[1..]);
    }
  }

  /** A character that no token accepts splits a text: no match reaches across it. */
  lemma {:induction false} OccursSeparated(a: Alternative, x: Text, m: Rune, y: Text)
    requires forall k :: 0 <= k < |a| ==> !TokenAccepts(a[k], m)
    ensures Occurs(a, x + [m] + y) ==> Occurs(a, x) || Occurs(a, y)
    decreases |x|
  {
    var t := x + [m] + y;
    if MatchesHere(a, t) {
      MatchesHereSeparated(a, x, m, y);
    } else if Occurs(a, t) {
      if x == [] {
        assert t[1..] == y;
      } else {
        assert t[1..] == x[1..] + [m] + y;
        OccursSeparated(a, x[1..], m, y);
      }
    }
  }

  lemma {:induction false} MatchesHereSeparated(a: Alternative, x: Text, m: Rune, y: Text)
    requires forall k :: 0 <= k < |a| ==> !TokenAccepts(a[k], m)
    ensures MatchesHere(a, x + [m] + y) ==> MatchesHere(a, x)
    decreases |a| + |x|
  {
    if a != [] && MatchesHere(a, x + [m] + y) {
      if a[0].Spaces? && MatchesHere(a[1..], x + [m] + y) {
        MatchesHereSeparated(a[1..], x, m, y);
      } else {
        assert x != [];
        assert (x + [m] + y)[1..] == x[1..] + [m] + y;
        MatchesHereSeparated(if a[0].Spaces? then a else a[1..], x[1..], m, y);
      }
    }
  }

  /** A text without one of the literals of an alternative does not contain the alternative. */
  lemma {:induction false} OccursNeedsLiteral(a: Alternative, k: nat, t: Text)
    requires k < |a| && a[k].Literal?
    requires forall i :: 0 <= i < |t| ==> !TokenAccepts(a[k], t[i])
    ensures !Occurs(a, t)
  {
    MatchNeedsLiteral(a, k, t);
    if t != [] {
      OccursNeedsLiteral(a, k, t[1..]);
    }
  }

  lemma {:induction false} MatchNeedsLiteral(a: Alternative, k: nat, t: Text)
    requires k < |a| && a[k].Literal?
    requires forall i :: 0 <= i < |t| ==> !TokenAccepts(a[k], t[i])
    ensures !MatchesHere(a, t)
    decreases |a| + |t|
  {
    if k > 0 {
      if t != [] {
        MatchNeedsLiteral(a[1..], k - 1, t[1..]);
        MatchNeedsLiteral(a, k, t[1..]);
      }
      MatchNeedsLiteral(a[1..], k - 1, t);
    }
  }

  /** A last character that no literal accepts adds no match to an alternative that ends in a literal. */
  lemma {:induction false} OccursTrailing(a: Alternative, x: Text, w: Rune)
    requires a != [] && a[|a| - 1].Literal?
    requires forall k :: 0 <= k < |a| && a[k].Literal? ==> !TokenAccepts(a[k], w)
    ensures Occurs(a, x + [w]) ==> Occurs(a, x)
    decreases |x|
  {
    var t := x + [w];
    if MatchesHere(a, t) {
      MatchTrailing(a, x, w);
    } else if Occurs(a, t) {
      if x == [] {
        assert t[1..] == x;
      } else {
        assert t[1..] == x[1..] + [w];
        OccursTrailing(a, x[1..], w);
      }
    }
  }

  lemma {:induction false} MatchTrailing(a: Alternative, x: Text, w: Rune)
    requires a != [] && a[|a| - 1].Literal?
    requires forall k :: 0 <= k < |a| && a[k].Literal? ==> !TokenAccepts(a[k], w)
    ensures MatchesHere(a, x + [w]) ==> MatchesHere(a, x)
    decreases |a| + |x|
  {
    var t := x + [w];
    if MatchesHere(a, t) {
      if a[0].Spaces? && MatchesHere(a[1..], t) {
        MatchTrailing(a[1..], x, w);
      } else if x == [] {
        assert t[1..] == x;
      } else {
        assert t[1..] == x[1..] + [w];
        if a[0].Spaces? {
          MatchTrailing(a, x[1..], w);
        } else if |a| > 1 {
          MatchTrailing(a[1..], x[1..], w);
        }
      }
    }
  }
}
