/**
 Base64 with the URL-safe alphabet (RFC 4648, section 5), written without padding (section 3.2), and
 the tolerant decoder Python runs on it: characters outside the alphabet are skipped, and input after a
 complete padding is ignored.
 */
module Base64Url {
  import opened Wrappers
  import opened Runes
  import opened Utf8

  const PAD: Rune := '=' as int

  type Sextet = v: int | 0 <= v < 64

  function Symbol(v: Sextet): (c: Rune)
    ensures 0x2D <= c < 0x7B && c != PAD
  {
    if v < 26 then 'A' as int + v
    else if v < 52 then 'a' as int + (v - 26)
    else if v < 62 then '0' as int + (v - 52)
    else if v == 62 then '-' as int
    else '_' as int
  }

  /** The value of a symbol. The decoder maps `-` and `_` to `+` and `/` first, so it takes both pairs. */
  function SymbolValue(c: Rune): (v: Option<Sextet>)
    ensures v.Some? ==> 0x2B <= c < 0x7B && c != PAD
  {
    if 'A' as int <= c <= 'Z' as int then Some(c - 'A' as int)
    else if 'a' as int <= c <= 'z' as int then Some(c - 'a' as int + 26)
    else if '0' as int <= c <= '9' as int then Some(c - '0' as int + 52)
    else if c == '-' as int || c == '+' as int then Some(62)
    else if c == '_' as int || c == '/' as int then Some(63)
    else None
  }

  predicate IsAscii(t: Text) {
    forall i :: 0 <= i < |t| ==> t[i] < 0x80
  }

  /** The four six-bit values of a group of three bytes. */
  function First(b0: Byte): Sextet {
    b0 / 4
  }

  function Second(b0: Byte, b1: Byte): Sextet {
    b0 % 4 * 16 + b1 / 16
  }

  function Third(b1: Byte, b2: Byte): Sextet {
    b1 % 16 * 4 + b2 / 64
  }

  function Fourth(b2: Byte): Sextet {
    b2 % 64
  }

  /** The four symbols of a whole group. */
  function Group(b0: Byte, b1: Byte, b2: Byte): (t: Text)
    ensures |t| == 4 && IsAscii(t)
  {
    [Symbol(First(b0)), Symbol(Second(b0, b1)), Symbol(Third(b1, b2)), Symbol(Fourth(b2))]
  }

  /** `base64.urlsafe_b64encode`. */
  function EncodePadded(b: Bytes): (t: Text)
    ensures |t| % 4 == 0
    ensures IsAscii(t)
  {
    if |b| == 0 then []
    else if |b| == 1 then [Symbol(First(b[0])), Symbol(Second(b[0], 0)), PAD, PAD]
    else if |b| == 2 then
      [Symbol(First(b[0])), Symbol(Second(b[0], b[1])), Symbol(Third(b[1], 0)), PAD]
    else Group(b[0], b[1], b[2]) + EncodePadded(b[3..])
  }

  /** `str.rstrip("=")`. */
  function StripPadding(t: Text): (r: Text)
    ensures r <= t
    ensures r == [] || r[|r| - 1] != PAD
    ensures forall i :: |r| <= i < |t| ==> t[i] == PAD
  {
    if t != [] && t[|t| - 1] == PAD then StripPadding(t[..|t| - 1]) else t
  }

  /** `base64.urlsafe_b64encode(b).decode("ascii").rstrip("=")`. */
  function Encode(b: Bytes): (t: Text)
    ensures IsAscii(t)
  {
    StripPadding(EncodePadded(b))
  }

  /** The padding that `-len(t) % 4` adds back. */
  function Padding(t: Text): (p: Text)
    ensures |p| < 4 && (|t| + |p|) % 4 == 0
  {
    seq((4 - |t| % 4) % 4, i => PAD)
  }

  predicate IsLeft(quad: nat, left: nat) {
    quad < 4 && left < match quad case 1 => 64 case 2 => 16 case 3 => 4 case _ => 1
  }

  /**
   The decoder's automaton: `quad` symbols of the current group have been read, `left` holds the bits of
   them not yet written out, and `pads` padding characters have been seen since the last symbol.
   */
  function Run(t: Text, quad: nat, left: nat, pads: nat): (b: Option<Bytes>)
    requires IsLeft(quad, left)
  {
    if t == [] then
      if quad == 0 then Some([]) else None
    else if t[0] == PAD then
      if quad < 2 then Run(t[1..], quad, left, pads)
      else if quad + pads + 1 >= 4 then Some([])
      else Run(t[1..], quad, left, pads + 1)
    else match SymbolValue(t[0])
      case None => Run(t[1..], quad, left, pads)
      case Some(v) =>
        match quad
        case 0 => Run(t[1..], 1, v, 0)
        case 1 => var rest :- Run(t[1..], 2, v % 16, 0); Some([left * 4 + v / 16] + rest)
        case 2 => var rest :- Run(t[1..], 3, v % 4, 0); Some([left * 16 + v / 4] + rest)
        case _ => var rest :- Run(t[1..], 0, 0, 0); Some([left * 64 + v] + rest)
  }

  /** `base64.urlsafe_b64decode` of the text with its padding added back; None stands for ValueError. */
  function Decode(t: Text): (b: Option<Bytes>) {
    if IsAscii(t) then Run(t + Padding(t), 0, 0, 0) else None
  }

  lemma SymbolRoundTrip(v: Sextet)
    ensures SymbolValue(Symbol(v)) == Some(v)
  {
  }

  function WithFirst(b: int, rest: Option<Bytes>): Option<Bytes>
    requires 0 <= b < 0x100
  {
    if rest.Some? then Some([b] + rest.value) else None
  }

  /** One step of the automaton on a symbol of the alphabet. */
  lemma {:induction false} RunSymbol(v: Sextet, rest: Text, quad: nat, left: nat)
    requires IsLeft(quad, left)
    ensures Run([Symbol(v)] + rest, quad, left, 0) ==
            match quad
            case 0 => Run(rest, 1, v, 0)
            case 1 => WithFirst(left * 4 + v / 16, Run(rest, 2, v % 16, 0))
            case 2 => WithFirst(left * 16 + v / 4, Run(rest, 3, v % 4, 0))
            case _ => WithFirst(left * 64 + v, Run(rest, 0, 0, 0))
  {
    SymbolRoundTrip(v);
    assert ([Symbol(v)] + rest)[1..] == rest;
  }

  /** The bits of a group are those of its bytes. */
  lemma Regroup(b0: Byte, b1: Byte, b2: Byte)
    ensures First(b0) * 4 + Second(b0, b1) / 16 == b0
    ensures Second(b0, b1) % 16 * 16 + Third(b1, b2) / 4 == b1
    ensures Third(b1, b2) % 4 * 64 + Fourth(b2) == b2
  {
  }

  /** Four symbols are one group of three bytes. */
  lemma {:induction false} RunGroup(b0: Byte, b1: Byte, b2: Byte, rest: Text)
    requires Run(rest, 0, 0, 0).Some?
    ensures Run(Group(b0, b1, b2) + rest, 0, 0, 0) == Some([b0, b1, b2] + Run(rest, 0, 0, 0).value)
  {
    Regroup(b0, b1, b2);
    var v0, v1, v2, v3 := First(b0), Second(b0, b1), Third(b1, b2), Fourth(b2);
    hide Run, First, Second, Third, Fourth, Symbol;
    var t3 := [Symbol(v3)] + rest;
    var t2 := [Symbol(v2)] + t3;
    var t1 := [Symbol(v1)] + t2;
    RunSymbol(v0, t1, 0, 0);
    RunSymbol(v1, t2, 1, v0);
    RunSymbol(v2, t3, 2, v1 % 16);
    RunSymbol(v3, rest, 3, v2 % 4);
    assert [Symbol(v0), Symbol(v1), Symbol(v2), Symbol(v3)] + rest == [Symbol(v0)] + t1;
    assert [b0, b1, b2] + Run(rest, 0, 0, 0).value == [b0] + ([b1] + ([b2] + Run(rest, 0, 0, 0).value));
  }

  /** Two symbols and two pads are one byte. */
  lemma RunOne(v0: Sextet, v1: Sextet)
    ensures Run([Symbol(v0), Symbol(v1), PAD, PAD], 0, 0, 0) == Some([v0 * 4 + v1 / 16])
  {
    var pads := [PAD, PAD];
    RunSymbol(v0, [Symbol(v1)] + pads, 0, 0);
    RunSymbol(v1, pads, 1, v0);
    assert [Symbol(v0), Symbol(v1), PAD, PAD] == [Symbol(v0)] + ([Symbol(v1)] + pads);
    var left: nat := v1 % 16;
    assert pads[1..] == [PAD];
    assert Run([PAD], 2, left, 1) == Some([]);
    assert Run(pads, 2, left, 0) == Run([PAD], 2, left, 1);
    var b0: Byte := v0 * 4 + v1 / 16;
    assert [b0] + [] == [b0];
  }

  /** Three symbols and a pad are two bytes. */
  lemma RunTwo(v0: Sextet, v1: Sextet, v2: Sextet)
    ensures Run([Symbol(v0), Symbol(v1), Symbol(v2), PAD], 0, 0, 0) ==
            Some([v0 * 4 + v1 / 16, v1 % 16 * 16 + v2 / 4])
  {
    var pads := [PAD];
    var t2 := [Symbol(v2)] + pads;
    RunSymbol(v0, [Symbol(v1)] + t2, 0, 0);
    RunSymbol(v1, t2, 1, v0);
    RunSymbol(v2, pads, 2, v1 % 16);
    var left: nat := v2 % 4;
    assert Run(pads, 3, left, 0) == Some([]);
    var b0: Byte, b1: Byte := v0 * 4 + v1 / 16, v1 % 16 * 16 + v2 / 4;
    assert [b0] + ([b1] + []) == [b0, b1];
    assert [Symbol(v0), Symbol(v1), Symbol(v2), PAD] == [Symbol(v0)] + ([Symbol(v1)] + t2);
  }

  lemma {:induction false} RunEncodePadded(b: Bytes)
    ensures Run(EncodePadded(b), 0, 0, 0) == Some(b)
  {
    if |b| == 1 {
      RunOne(First(b[0]), Second(b[0], 0));
      Regroup(b[0], 0, 0);
      assert b == [b[0]];
    } else if |b| == 2 {
      RunTwo(First(b[0]), Second(b[0], b[1]), Third(b[1], 0));
      Regroup(b[0], b[1], 0);
      assert b == [b[0], b[1]];
    } else if |b| >= 3 {
      RunEncodePadded(b[3..]);
      RunGroup(b[0], b[1], b[2], EncodePadded(b[3..]));
      assert b == [b[0], b[1], b[2]] + b[3..];
    }
  }

  lemma PadCount(padded: nat, stripped: nat)
    requires padded % 4 == 0 && padded - 3 < stripped <= padded
    ensures (4 - stripped % 4) % 4 == padded - stripped
  {
  }

  /** Adding the padding back restores what was stripped. */
  lemma {:induction false} PaddingRestored(b: Bytes)
    ensures Encode(b) + Padding(Encode(b)) == EncodePadded(b)
  {
    var padded := EncodePadded(b);
    var stripped := StripPadding(padded);
    PadsAtTheEnd(b);
    assert b == [] ==> padded == [];
    hide EncodePadded, StripPadding;
    assert b != [] ==> padded[|padded| - 3] != PAD;
    PadCount(|padded|, |stripped|);
    assert padded == stripped + padded[|stripped|..];
  }

  lemma {:induction false} PadsAtTheEnd(b: Bytes)
    ensures var t := EncodePadded(b); b != [] ==> |t| >= 4 && t[|t| - 3] != PAD
  {
    if |b| > 3 {
      PadsAtTheEnd(b[3..]);
    }
  }

  /** Decoding undoes encoding on every byte string. */
  lemma DecodeEncode(b: Bytes)
    ensures Decode(Encode(b)) == Some(b)
  {
    PaddingRestored(b);
    RunEncodePadded(b);
  }

  lemma EncodeNonEmpty(b: Bytes)
    requires b != []
    ensures Encode(b) != []
  {
    PadsAtTheEnd(b);
  }

  /** A character outside the alphabet changes nothing of what is decoded, wherever it stands. */
  lemma {:induction false} ForeignSkipped(x: Text, c: Rune, y: Text, quad: nat, left: nat, pads: nat)
    requires IsLeft(quad, left) && c != PAD && SymbolValue(c).None?
    ensures Run(x + [c] + y, quad, left, pads) == Run(x + y, quad, left, pads)
    decreases |x|
  {
    var longer, shorter := x + [c] + y, x + y;
    if x == [] {
      assert longer[0] == c && longer[1..] == y && shorter == y;
    } else {
      assert longer[0] == x[0] == shorter[0];
      assert longer[1..] == x[1..] + [c] + y && shorter[1..] == x[1..] + y;
      hide SymbolValue;
      var v := SymbolValue(x[0]);
      if x[0] == PAD {
        ForeignSkipped(x[1..], c, y, quad, left, if quad < 2 then pads else pads + 1);
      } else if v.None? {
        ForeignSkipped(x[1..], c, y, quad, left, pads);
      } else {
        var n: nat := v.value;
        ForeignSkipped(x[1..], c, y, (quad + 1) % 4, if quad == 0 then n else if quad == 1 then n % 16
                                                     else if quad == 2 then n % 4 else 0, 0);
      }
    }
  }

  /** What comes behind a complete group and its padding is not looked at. */
  lemma {:induction false} PaddingEnds(v0: Sextet, v1: Sextet, junk: Text)
    ensures Run([Symbol(v0), Symbol(v1), PAD, PAD] + junk, 0, 0, 0) == Some([v0 * 4 + v1 / 16])
  {
    var pads := [PAD, PAD] + junk;
    RunSymbol(v0, [Symbol(v1)] + pads, 0, 0);
    RunSymbol(v1, pads, 1, v0);
    assert [Symbol(v0), Symbol(v1), PAD, PAD] + junk == [Symbol(v0)] + ([Symbol(v1)] + pads);
    assert pads[1..] == [PAD] + junk;
    var left: nat := v1 % 16;
    assert Run([PAD] + junk, 2, left, 1) == Some([]);
    assert Run(pads, 2, left, 0) == Run([PAD] + junk, 2, left, 1);
    var b0: Byte := v0 * 4 + v1 / 16;
    assert [b0] + [] == [b0];
  }

  /** Both alphabets are read alike. */
  lemma {:induction false} AlphabetsAgree(x: Text, c: Rune, d: Rune, y: Text, quad: nat, left: nat, pads: nat)
    requires IsLeft(quad, left)
    requires (c == '+' as int && d == '-' as int) || (c == '/' as int && d == '_' as int)
    ensures Run(x + [c] + y, quad, left, pads) == Run(x + [d] + y, quad, left, pads)
    decreases |x|
  {
    var one, other := x + [c] + y, x + [d] + y;
    if x == [] {
      assert one[0] == c && one[1..] == y && other[0] == d && other[1..] == y;
    } else {
      assert one[0] == x[0] == other[0];
      assert one[1..] == x[1..] + [c] + y && other[1..] == x[1..] + [d] + y;
      hide SymbolValue;
      var v := SymbolValue(x[0]);
      if x[0] == PAD {
        AlphabetsAgree(x[1..], c, d, y, quad, left, if quad < 2 then pads else pads + 1);
      } else if v.None? {
        AlphabetsAgree(x[1..], c, d, y, quad, left, pads);
      } else {
        var n: nat := v.value;
        AlphabetsAgree(x[1..], c, d, y, (quad + 1) % 4, if quad == 0 then n else if quad == 1 then n % 16
                                                        else if quad == 2 then n % 4 else 0, 0);
      }
    }
  }
}
