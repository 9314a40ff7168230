/** Cutting a text into lines, as `str.splitlines` does, and putting lines back together. */
module TextLines {
  import opened Runes

  /** The characters at which `str.splitlines` cuts. */
  predicate IsBreak(c: Rune) {
    0x0A <= c <= 0x0D || 0x1C <= c <= 0x1E || c == 0x85 || c == 0x2028 || c == 0x2029
  }

  /** Text that can stand on one line. */
  predicate OnOneLine(t: Text) {
    forall c :: c in t ==> !IsBreak(c)
  }

  function BreakAt(t: Text): (n: nat)
    ensures n <= |t|
    ensures n < |t| ==> IsBreak(t[n])
    ensures OnOneLine(t[..n])
  {
    if t == [] || IsBreak(t[0]) then 0
    else
      assert t[..1 + BreakAt(t[1..])] == [t[0]] + t[1..][..BreakAt(t[1..])];
      1 + BreakAt(t[1..])
  }

  /** A carriage return and the line feed behind it are one break. */
  function BreakLength(t: Text, n: nat): (w: nat)
    requires n < |t|
    ensures 1 <= w && n + w <= |t|
  {
    if t[n] == 0x0D && n + 1 < |t| && t[n + 1] == 0x0A then 2 else 1
  }

  /** `t.splitlines()`. */
  function SplitLines(t: Text): (lines: seq<Text>)
    ensures forall i :: 0 <= i < |lines| ==> OnOneLine(lines[i])
  {
    if t == [] then []
    else
      var n := BreakAt(t);
      if n == |t| then
        assert t[..n] == t;
        [t]
      else [t[..n]] + SplitLines(t[n + BreakLength(t, n)..])
  }

  /** The lines as a text, each with a line feed. */
  function JoinLines(lines: seq<Text>): Text {
    if lines == [] then [] else lines[0] + [0x0A] + JoinLines(lines[1..])
  }

  lemma {:induction false} BreakBehind(line: Text, rest: Text)
    requires OnOneLine(line)
    ensures BreakAt(line + [0x0A] + rest) == |line|
  {
    var t := line + [0x0A] + rest;
    if line == [] {
      assert t[0] == 0x0A;
    } else {
      assert t[1..] == line[1..] + [0x0A] + rest;
      assert t[0] == line[0] && line[0] in line;
      assert forall c :: c in line[1..] ==> c in line;
      BreakBehind(line[1..], rest);
    }
  }

  /** Lines that hold no line break come back. */
  lemma {:induction false} SplitInvertsJoin(lines: seq<Text>)
    requires forall i :: 0 <= i < |lines| ==> OnOneLine(lines[i])
    ensures SplitLines(JoinLines(lines)) == lines
  {
    if lines != [] {
      var rest := JoinLines(lines[1..]);
      var t := lines[0] + [0x0A] + rest;
      BreakBehind(lines[0], rest);
      assert t[|lines[0]|] == 0x0A;
      assert t[..|lines[0]|] == lines[0] && t[|lines[0]| + 1..] == rest;
      hide OnOneLine, BreakAt;
      SplitInvertsJoin(lines[1..]);
    }
  }

  lemma {:induction false} ConcatOnOneLine(a: Text, b: Text)
    ensures OnOneLine(a + b) <==> OnOneLine(a) && OnOneLine(b)
  {
    hide IsBreak;
    assert forall c :: c in a + b <==> c in a || c in b;
    if OnOneLine(a + b) {
      assert forall c :: c in a ==> c in a + b;
      assert forall c :: c in b ==> c in a + b;
    }
  }

  /** A text all of whose characters are on one line is on one line. */
  lemma {:induction false} PartOnOneLine(t: Text, part: Text)
    requires OnOneLine(t) && forall c :: c in part ==> c in t
    ensures OnOneLine(part)
  {
  }
}
