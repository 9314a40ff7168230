/**
 A Python `str`: a sequence of code points. Surrogate code points can occur in it (a JSON escape can
 produce one), which is why this is not Dafny's `string`.
 */
module Runes {
  type Rune = c: int | 0 <= c < 0x11_0000

  type Text = seq<Rune>

  /** The text of a literal. */
  function Lit(s: string): (t: Text)
    ensures |t| == |s|
    ensures forall i :: 0 <= i < |s| ==> t[i] == s[i] as int
  {
    seq(|s|, i requires 0 <= i < |s| => s[i] as int)
  }

  predicate IsSurrogate(c: Rune) {
    0xD800 <= c <= 0xDFFF
  }

  /** True when the text has a UTF-8 encoding, that is, when it holds no surrogate. */
  predicate Encodable(t: Text) {
    forall i :: 0 <= i < |t| ==> !IsSurrogate(t[i])
  }

  /** `str.isspace` of one character, which is also what the pattern class `\s` accepts. */
  predicate IsSpace(c: Rune) {
    || 0x09 <= c <= 0x0D
    || 0x1C <= c <= 0x20
    || c == 0x85 || c == 0xA0 || c == 0x1680
    || 0x2000 <= c <= 0x200A
    || c == 0x2028 || c == 0x2029 || c == 0x202F || c == 0x205F || c == 0x3000
  }

  /** `str.lstrip()`. */
  function LStrip(t: Text): (r: Text)
    ensures r == [] || !IsSpace(r[0])
    ensures |r| <= |t| && r == t[|t| - |r|..]
    ensures forall i :: 0 <= i < |t| - |r| ==> IsSpace(t[i])
  {
    if t != [] && IsSpace(t[0]) then LStrip(t[1..]) else t
  }

  /** `str.rstrip()`. */
  function RStrip(t: Text): (r: Text)
    ensures r == [] || !IsSpace(r[|r| - 1])
    ensures r <= t
    ensures forall i :: |r| <= i < |t| ==> IsSpace(t[i])
  {
    if t != [] && IsSpace(t[|t| - 1]) then RStrip(t[..|t| - 1]) else t
  }

  /** `str.strip()`. */
  function Strip(t: Text): (r: Text)
    ensures |r| <= |t|
    ensures r == [] || (!IsSpace(r[0]) && !IsSpace(r[|r| - 1]))
  {
    RStrip(LStrip(t))
  }

  /** `needle in t`. */
  predicate Contains(t: Text, needle: Text) {
    exists i :: 0 <= i <= |t| && needle <= t[i..]
  }

  /** `t.rfind(c, 0, hi)`: the last position below `hi` that holds `c`, or -1. */
  function RFind(t: Text, c: Rune, hi: nat): (r: int)
    requires hi <= |t|
    ensures -1 <= r < hi
    ensures r >= 0 ==> t[r] == c
    ensures forall i :: r < i < hi ==> t[i] != c
  {
    if hi == 0 then -1 else if t[hi - 1] == c then hi - 1 else RFind(t, c, hi - 1)
  }

  lemma EncodableConcat(a: Text, b: Text)
    ensures Encodable(a + b) <==> Encodable(a) && Encodable(b)
  {
    assert forall i :: 0 <= i < |a| ==> (a + b)[i] == a[i];
    assert forall i :: 0 <= i < |b| ==> (a + b)[|a| + i] == b[i];
  }

  lemma LitEncodable(s: string)
    ensures Encodable(Lit(s))
  {
  }
}
