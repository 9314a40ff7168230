/** UTF-8 as RFC 3629 defines it, with Python's strict error handling: bad input gives no result. */
module Utf8 {
  import opened Wrappers
  import opened Runes

  type Byte = b: int | 0 <= b < 0x100

  type Bytes = seq<Byte>

  /** A continuation byte, carrying the low six bits of `c`. */
  function Tail(c: nat): Byte {
    0x80 + c % 0x40
  }

  /** The encoding of one scalar value (RFC 3629, section 3). */
  function EncodeRune(c: Rune): (b: Bytes)
    requires !IsSurrogate(c)
    ensures 1 <= |b| <= 4
    ensures c < 0x80 ==> b == [c]
  {
    if c < 0x80 then [c]
    else if c < 0x800 then [0xC0 + c / 0x40, Tail(c)]
    else if c < 0x1_0000 then [0xE0 + c / 0x40 / 0x40, Tail(c / 0x40), Tail(c)]
    else [0xF0 + c / 0x40 / 0x40 / 0x40, Tail(c / 0x40 / 0x40), Tail(c / 0x40), Tail(c)]
  }

  /** `str.encode("utf-8")`; None stands for UnicodeEncodeError. */
  function Encode(t: Text): (b: Option<Bytes>)
    ensures b.Some? <==> Encodable(t)
  {
    if t == [] then Some([])
    else if IsSurrogate(t[0]) then None
    else
      assert t == [t[0]] + t[1..];
      var rest :- Encode(t[1..]);
      Some(EncodeRune(t[0]) + rest)
  }

  predicate IsTail(b: Bytes, i: nat) {
    i < |b| && 0x80 <= b[i] < 0xC0
  }

  /** Appends the six bits of a continuation byte to the bits read so far. */
  function Append(high: nat, tail: int): int {
    high * 0x40 + (tail - 0x80)
  }

  /** The first scalar value of `b` and the number of bytes it takes; overlong forms, surrogates and
      values above U+10FFFF are refused. */
  function DecodeFirst(b: Bytes): (r: Option<(Rune, nat)>)
    requires b != []
    ensures r.Some? ==> 1 <= r.value.1 <= |b| && !IsSurrogate(r.value.0)
  {
    var b0: int := b[0];
    if b0 < 0x80 then Some((b0, 1))
    else if 0xC2 <= b0 < 0xE0 && IsTail(b, 1) then
      Some((Append(b0 - 0xC0, b[1]), 2))
    else if 0xE0 <= b0 < 0xF0 && IsTail(b, 1) && IsTail(b, 2) then
      var c := Append(Append(b0 - 0xE0, b[1]), b[2]);
      if c < 0x800 || IsSurrogate(c) then None else Some((c, 3))
    else if 0xF0 <= b0 < 0xF5 && IsTail(b, 1) && IsTail(b, 2) && IsTail(b, 3) then
      var c := Append(Append(Append(b0 - 0xF0, b[1]), b[2]), b[3]);
      if c < 0x1_0000 || c >= 0x11_0000 then None else Some((c, 4))
    else None
  }

  /** `bytes.decode("utf-8")`; None stands for UnicodeDecodeError. */
  function Decode(b: Bytes): (t: Option<Text>)
    ensures t.Some? ==> Encodable(t.value)
  {
    if b == [] then Some([])
    else
      var (c, n) :- DecodeFirst(b);
      var rest :- Decode(b[n..]);
      Some([c] + rest)
  }

  function Prepend(c: Rune, t: Option<Text>): Option<Text> {
    if t.Some? then Some([c] + t.value) else None
  }

  lemma AppendParts(high: nat, tail: int)
    requires 0x80 <= tail < 0xC0
    ensures Append(high, tail) / 0x40 == high && Tail(Append(high, tail)) == tail
  {
  }

  lemma DecodeFirstInvertsEncodeRune(c: Rune, tail: Bytes)
    requires !IsSurrogate(c)
    ensures DecodeFirst(EncodeRune(c) + tail) == Some((c, |EncodeRune(c)|))
  {
  }

  lemma EncodeRuneInvertsDecodeFirst(b: Bytes)
    requires b != [] && DecodeFirst(b).Some?
    ensures EncodeRune(DecodeFirst(b).value.0) == b[..DecodeFirst(b).value.1]
  {
    var b0: int := b[0];
    if 0xC2 <= b0 < 0xE0 {
      AppendParts(b0 - 0xC0, b[1]);
    } else if 0xE0 <= b0 < 0xF0 {
      AppendParts(b0 - 0xE0, b[1]);
      AppendParts(Append(b0 - 0xE0, b[1]), b[2]);
    } else if 0xF0 <= b0 {
      AppendParts(b0 - 0xF0, b[1]);
      AppendParts(Append(b0 - 0xF0, b[1]), b[2]);
      AppendParts(Append(Append(b0 - 0xF0, b[1]), b[2]), b[3]);
    }
  }

  /** One step of the decoder, on input that starts with an encoded scalar value. */
  lemma DecodeRune(c: Rune, rest: Bytes)
    requires !IsSurrogate(c)
    ensures Decode(EncodeRune(c) + rest) == Prepend(c, Decode(rest))
  {
    var head := EncodeRune(c);
    DecodeFirstInvertsEncodeRune(c, rest);
    assert (head + rest)[|head|..] == rest;
  }

  /** The first character of well-formed input is read whatever is appended to the input. */
  lemma {:induction false} DecodeStep(a: Bytes, b: Bytes)
    requires a != [] && Decode(a).Some?
    ensures DecodeFirst(a).Some?
    ensures var (c, n) := DecodeFirst(a).value;
            Decode(a) == Prepend(c, Decode(a[n..])) && Decode(a + b) == Prepend(c, Decode(a[n..] + b))
  {
    hide DecodeFirst, EncodeRune;
    EncodeRuneInvertsDecodeFirst(a);
    var (c, n) := DecodeFirst(a).value;
    assert a + b == EncodeRune(c) + (a[n..] + b);
    DecodeRune(c, a[n..] + b);
  }

  /** A decoder that has consumed a well-formed prefix goes on with the rest independently. */
  lemma {:induction false} DecodeConcat(a: Bytes, b: Bytes)
    requires Decode(a).Some?
    ensures Decode(a + b) ==
            if Decode(b).Some? then Some(Decode(a).value + Decode(b).value) else None
  {
    assert Decode([]) == Some([]);
    hide Decode, DecodeFirst;
    if a == [] {
      assert a + b == b;
      assert Decode(b).Some? ==> [] + Decode(b).value == Decode(b).value;
    } else {
      DecodeStep(a, b);
      var (c, n) := DecodeFirst(a).value;
      DecodeConcat(a[n..], b);
      if Decode(b).Some? {
        assert [c] + (Decode(a[n..]).value + Decode(b).value) == [c] + Decode(a[n..]).value + Decode(b).value;
      }
    }
  }

  /** Decoding undoes encoding on every text that can be encoded. */
  lemma {:induction false} DecodeEncode(t: Text)
    requires Encodable(t)
    ensures Decode(Encode(t).value) == Some(t)
  {
    if t != [] {
      DecodeEncode(t[1..]);
      DecodeRune(t[0], Encode(t[1..]).value);
      assert t == [t[0]] + t[1..];
    }
  }

  /** Encoding undoes decoding: no two byte strings decode to the same text. */
  lemma {:induction false} EncodeDecode(b: Bytes)
    requires Decode(b).Some?
    ensures Encode(Decode(b).value) == Some(b)
  {
    hide DecodeFirst, EncodeRune;
    if b != [] {
      EncodeRuneInvertsDecodeFirst(b);
      var (c, n) := DecodeFirst(b).value;
      EncodeDecode(b[n..]);
      assert ([c] + Decode(b[n..]).value)[1..] == Decode(b[n..]).value;
      assert b == b[..n] + b[n..];
    }
  }
}
