/** What `str.strip()` gives, said of the text around it. */
module Trimming {
  import opened Runes

  predicate IsBlank(t: Text) {
    forall i :: 0 <= i < |t| ==> IsSpace(t[i])
  }

  /** `p` stands at `i` with nothing but blanks around it, and neither begins nor ends with one. */
  predicate IsTrimmedAt(t: Text, p: Text, i: nat) {
    && i + |p| <= |t| && p == t[i..i + |p|]
    && (forall k :: 0 <= k < |t| && (k < i || i + |p| <= k) ==> IsSpace(t[k]))
    && (p != [] ==> !IsSpace(p[0]) && !IsSpace(p[|p| - 1]))
  }

  ghost predicate IsTrimmed(t: Text, p: Text) {
    exists i: nat :: IsTrimmedAt(t, p, i)
  }

  lemma {:induction false} StripTrims(t: Text)
    ensures IsTrimmedAt(t, Strip(t), |t| - |LStrip(t)|)
  {
    var l := LStrip(t);
    var p, i := RStrip(l), |t| - |l|;
    hide IsSpace, LStrip, RStrip;
    assert p == l[..|p|] && p == t[i..i + |p|];
    forall k | i + |p| <= k < |t| ensures IsSpace(t[k]) {
      assert t[k] == l[k - i];
    }
  }

  lemma {:induction false} TrimmedOnce(t: Text, p: Text, i: nat, q: Text, j: nat)
    requires IsTrimmedAt(t, p, i) && IsTrimmedAt(t, q, j) && p != []
    ensures q != [] && i == j && |p| == |q|
  {
    hide IsSpace;
    assert t[i] == p[0] && t[i + |p| - 1] == p[|p| - 1];
    assert j <= i < j + |q|;
    assert t[j] == q[0] && t[j + |q| - 1] == q[|q| - 1];
  }

  /** Trimming takes off the blanks around a text and nothing else. */
  lemma {:induction false} StripMeans(t: Text, p: Text)
    ensures IsTrimmed(t, p) <==> p == Strip(t)
  {
    StripTrims(t);
    hide IsTrimmedAt, LStrip, Strip;
    if i: nat :| IsTrimmedAt(t, p, i) {
      if p != [] {
        TrimmedOnce(t, p, i, Strip(t), |t| - |LStrip(t)|);
        SameTrimmed(t, p, i, Strip(t));
      } else if Strip(t) != [] {
        TrimmedOnce(t, Strip(t), |t| - |LStrip(t)|, p, i);
      }
    }
  }

  lemma {:induction false} SameTrimmed(t: Text, p: Text, i: nat, q: Text)
    requires IsTrimmedAt(t, p, i) && IsTrimmedAt(t, q, i) && |p| == |q|
    ensures p == q
  {
  }

  /** The characters that count as blanks. */
  lemma {:induction false} BlanksAre(c: Rune)
    ensures IsSpace(c) <==>
            c in {0x09, 0x0A, 0x0B, 0x0C, 0x0D, 0x1C, 0x1D, 0x1E, 0x1F, 0x20, 0x85, 0xA0, 0x1680, 0x2000, 0x2001,
                  0x2002, 0x2003, 0x2004, 0x2005, 0x2006, 0x2007, 0x2008, 0x2009, 0x200A, 0x2028, 0x2029, 0x202F,
                  0x205F, 0x3000}
  {
  }
}
