/**
 UTF-8 decoding with `errors="replace"`: a byte string that is not well formed still gives a text, in which U+FFFD
 stands for each maximal part of an ill-formed sequence.
 */
module Utf8Replace {
  import opened Wrappers
  import opened Runes
  import opened Utf8

  const REPLACEMENT: Rune := 0xFFFD

  /** The second byte can continue the sequence that the first byte, the lead of a longer one, began. */
  predicate SecondFits(b: Bytes)
    requires b != []
  {
    && |b| >= 2
    && (if b[0] == 0xE0 then 0xA0 else if b[0] == 0xF0 then 0x90 else 0x80)
       <= b[1]
       < if b[0] == 0xED then 0xA0 else if b[0] == 0xF4 then 0x90 else 0xC0
  }

  /** The length of the part that one replacement character stands for, when no scalar value can be read. */
  function Skip(b: Bytes): (n: nat)
    requires b != [] && DecodeFirst(b).None?
    ensures 1 <= n <= |b|
    ensures forall i :: 1 <= i < n ==> IsTail(b, i)
    ensures IsTail(b, 0) ==> n == 1
  {
    if 0xE0 <= b[0] < 0xF5 && SecondFits(b) then
      if b[0] >= 0xF0 && IsTail(b, 2) then 3 else 2
    else 1
  }

  /** `bytes.decode("utf-8", errors="replace")`. */
  function DecodeReplace(b: Bytes): Text {
    if b == [] then []
    else
      match DecodeFirst(b)
      case Some((c, n)) => [c] + DecodeReplace(b[n..])
      case None => [REPLACEMENT] + DecodeReplace(b[Skip(b)..])
  }

  /** On well-formed input nothing is replaced. */
  lemma {:induction false} NothingReplaced(b: Bytes)
    requires Decode(b).Some?
    ensures DecodeReplace(b) == Decode(b).value
  {
    hide DecodeFirst;
    if b != [] {
      NothingReplaced(b[DecodeFirst(b).value.1..]);
    }
  }

  // ----- what one replacement stands for

  /** Some character is written with these bytes and more. */
  ghost predicate BeginsRune(part: Bytes) {
    exists c: Rune :: !IsSurrogate(c) && part < EncodeRune(c)
  }

  lemma {:induction false} SecondBegins(b: Bytes)
    requires b != [] && 0xE0 <= b[0] < 0xF5 && SecondFits(b)
    ensures BeginsRune(b[..2])
  {
    var b0: int, b1: int := b[0], b[1];
    var c: Rune := if b0 < 0xF0 then (b0 - 0xE0) * 0x1000 + (b1 - 0x80) * 0x40
                   else (b0 - 0xF0) * 0x4_0000 + (b1 - 0x80) * 0x1000;
    assert !IsSurrogate(c) && EncodeRune(c)[0] == b[0] && EncodeRune(c)[1] == b[1];
    assert b[..2] == [b[0], b[1]] == EncodeRune(c)[..2];
  }

  lemma {:induction false} ThirdBegins(b: Bytes)
    requires b != [] && 0xF0 <= b[0] < 0xF5 && SecondFits(b) && IsTail(b, 2)
    ensures BeginsRune(b[..3])
  {
    var b0: int, b1: int, b2: int := b[0], b[1], b[2];
    var c: Rune := (b0 - 0xF0) * 0x4_0000 + (b1 - 0x80) * 0x1000 + (b2 - 0x80) * 0x40;
    assert EncodeRune(c)[0] == b[0] && EncodeRune(c)[1] == b[1] && EncodeRune(c)[2] == b[2];
    assert b[..3] == [b[0], b[1], b[2]] == EncodeRune(c)[..3];
  }

  lemma {:induction false} RuneParts(c: Rune, part: Bytes)
    requires !IsSurrogate(c) && part < EncodeRune(c) && |part| >= 2
    ensures 0xE0 <= part[0] < 0xF5 && SecondFits(part) && (|part| >= 3 ==> part[0] >= 0xF0 && IsTail(part, 2))
    ensures |part| <= 3
  {
    var e := EncodeRune(c);
    assert part[0] == e[0] && part[1] == e[1] && (|part| >= 3 ==> part[2] == e[2]);
    assert c < 0x1_0000 ==> |e| <= 3 && |part| == 2;
  }

  /**
   A replacement character stands for the longest beginning of a character that the bytes hold, or for one byte when
   they hold none.
   */
  lemma {:induction false} SkipIsMaximal(b: Bytes)
    requires b != [] && DecodeFirst(b).None?
    ensures Skip(b) > 1 ==> BeginsRune(b[..Skip(b)])
    ensures forall m :: Skip(b) < m <= |b| ==> !BeginsRune(b[..m])
  {
    if Skip(b) == 2 {
      SecondBegins(b);
    } else if Skip(b) == 3 {
      ThirdBegins(b);
    }
    forall m | Skip(b) < m <= |b| ensures !BeginsRune(b[..m]) {
      if c: Rune :| !IsSurrogate(c) && b[..m] < EncodeRune(c) {
        RuneParts(c, b[..m]);
      }
    }
  }

  // ----- what a cut inside a character does

  /** The number of bytes that do not continue a character. */
  function Starts(b: Bytes): nat {
    if b == [] then 0 else (if IsTail(b, 0) then 0 else 1) + Starts(b[1..])
  }

  lemma {:induction false} StartsConcat(a: Bytes, b: Bytes)
    ensures Starts(a + b) == Starts(a) + Starts(b)
  {
    if a == [] {
      assert a + b == b;
    } else {
      StartsConcat(a[1..], b);
      assert (a + b)[1..] == a[1..] + b;
    }
  }

  lemma {:induction false} AllTails(b: Bytes)
    requires forall i :: 0 <= i < |b| ==> IsTail(b, i)
    ensures Starts(b) == 0
  {
    if b != [] {
      assert forall i :: 0 <= i < |b| - 1 ==> IsTail(b[1..], i) == IsTail(b, i + 1);
      AllTails(b[1..]);
    }
  }

  /** What one reading step takes holds one start, or none when it is a lone continuation byte. */
  lemma StartsOfPart(b: Bytes, n: nat)
    requires 1 <= n <= |b| && forall i :: 1 <= i < n ==> IsTail(b, i)
    ensures Starts(b) == (if IsTail(b, 0) then 0 else 1) + Starts(b[n..])
  {
    var part := b[..n];
    assert b == part + b[n..];
    StartsConcat(part, b[n..]);
    assert forall i :: 0 <= i < n - 1 ==> IsTail(part[1..], i) == IsTail(b, i + 1);
    AllTails(part[1..]);
    assert IsTail(part, 0) == IsTail(b, 0);
  }

  lemma ReadsTails(b: Bytes)
    requires b != [] && DecodeFirst(b).Some?
    ensures !IsTail(b, 0) && forall i :: 1 <= i < DecodeFirst(b).value.1 ==> IsTail(b, i)
  {
  }

  /** A decoded text has as many characters as there are starts. */
  lemma {:induction false} DecodedStarts(b: Bytes)
    requires Decode(b).Some?
    ensures |Decode(b).value| == Starts(b)
  {
    if b != [] {
      ReadsTails(b);
      hide DecodeFirst;
      StartsOfPart(b, DecodeFirst(b).value.1);
      DecodedStarts(b[DecodeFirst(b).value.1..]);
    }
  }

  /** Replacing never loses a start, and adds a character for a continuation byte in front. */
  lemma {:induction false} ReplacedStarts(b: Bytes)
    ensures |DecodeReplace(b)| >= Starts(b) + if IsTail(b, 0) then 1 else 0
  {
    if b != [] {
      if DecodeFirst(b).Some? {
        ReadsTails(b);
      }
      hide DecodeFirst;
      var n := if DecodeFirst(b).Some? then DecodeFirst(b).value.1 else Skip(b);
      StartsOfPart(b, n);
      ReplacedStarts(b[n..]);
    }
  }

  lemma FirstOfPrefix(a: Bytes, b: Bytes)
    requires a != [] && DecodeFirst(a + b).Some? && DecodeFirst(a + b).value.1 <= |a|
    ensures DecodeFirst(a) == DecodeFirst(a + b)
  {
    assert forall i :: 0 <= i < |a| ==> (a + b)[i] == a[i];
  }

  /** Well-formed input that is cut where the first part is not well formed is cut inside a character. */
  lemma {:induction false} CutInside(a: Bytes, b: Bytes)
    requires Decode(a + b).Some? && Decode(a).None?
    ensures IsTail(b, 0)
  {
    var n := DecodeFirst(a + b).value.1;
    ReadsTails(a + b);
    if n <= |a| {
      FirstOfPrefix(a, b);
      assert (a + b)[n..] == a[n..] + b;
      hide DecodeFirst;
      CutInside(a[n..], b);
    } else {
      assert IsTail(a + b, |a|);
      assert (a + b)[|a|] == b[0];
    }
  }
}
