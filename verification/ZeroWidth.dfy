/** The zero-width alphabet, the framing of a payload, and the scan that finds frames in a text. */
module ZeroWidth {
  import opened Wrappers
  import opened Runes
  import Base64Url

  const START: Rune := 0x200B
  const ZERO: Rune := 0x200C
  const ONE: Rune := 0x200D
  const END: Rune := 0x2060

  // ----- bits

  function Digit(b: int): (c: Rune)
    ensures IsBit(c)
  {
    if b == 1 then ONE else ZERO
  }

  predicate IsBit(c: Rune) {
    c == ZERO || c == ONE
  }

  predicate AllBits(p: Text) {
    forall i :: 0 <= i < |p| ==> IsBit(p[i])
  }

  /** The low `width` binary digits of a number, most significant first. */
  function Digits(n: nat, width: nat): (p: Text)
    ensures |p| == width && AllBits(p)
  {
    if width == 0 then [] else Digits(n / 2, width - 1) + [Digit(n % 2)]
  }

  function EncodeBits(t: Text): (p: Text)
    requires Base64Url.IsAscii(t)
    ensures |p| == 8 * |t| && AllBits(p)
  {
    if t == [] then [] else Digits(t[0], 8) + EncodeBits(t[1..])
  }

  /** Any character other than the one-digit counts as a zero. */
  function BitValue(c: Rune): (b: nat)
    ensures b < 2
  {
    if c == ONE then 1 else 0
  }

  /** `int(bits, 2)`. */
  function BitsValue(p: Text): (n: nat)
    ensures n < Pow2(|p|)
  {
    if p == [] then 0 else 2 * BitsValue(p[..|p| - 1]) + BitValue(p[|p| - 1])
  }

  function Pow2(k: nat): (n: nat)
    ensures n > 0
  {
    if k == 0 then 1 else 2 * Pow2(k - 1)
  }

  /** None stands for the ValueError raised when the bits do not fill whole characters. */
  function DecodeBits(p: Text): (t: Option<Text>) {
    if p == [] then Some([])
    else if |p| < 8 then None
    else
      var rest :- DecodeBits(p[8..]);
      assert Pow2(8) == 256;
      Some([BitsValue(p[..8])] + rest)
  }

  lemma {:induction false} BitsValueInvertsDigits(n: nat, width: nat)
    requires n < Pow2(width)
    ensures BitsValue(Digits(n, width)) == n
  {
    if width > 0 {
      BitsValueInvertsDigits(n / 2, width - 1);
      assert Digits(n, width)[..width - 1] == Digits(n / 2, width - 1);
    }
  }

  /** Eight digits are one character. */
  lemma {:induction false} DecodeGroup(c: Rune, rest: Text)
    requires c < 0x80
    ensures DecodeBits(Digits(c, 8) + rest) ==
            if DecodeBits(rest).Some? then Some([c] + DecodeBits(rest).value) else None
  {
    assert Pow2(8) == 256;
    BitsValueInvertsDigits(c, 8);
    hide Digits, BitsValue, Pow2;
    assert (Digits(c, 8) + rest)[..8] == Digits(c, 8);
    assert (Digits(c, 8) + rest)[8..] == rest;
  }

  lemma {:induction false} DecodeEncodeBits(t: Text)
    requires Base64Url.IsAscii(t)
    ensures DecodeBits(EncodeBits(t)) == Some(t)
  {
    assert DecodeBits([]) == Some([]);
    hide Digits, DecodeBits;
    if t != [] {
      DecodeGroup(t[0], EncodeBits(t[1..]));
      DecodeEncodeBits(t[1..]);
      assert t == [t[0]] + t[1..];
    }
  }

  /** Decoding fails exactly when the payload is not made of whole characters. */
  lemma {:induction false} DecodeBitsFails(p: Text)
    ensures DecodeBits(p).None? <==> |p| % 8 != 0
  {
    if |p| >= 8 {
      DecodeBitsFails(p[8..]);
    }
  }

  // ----- the scan

  datatype Span = Span(start: nat, end: nat)

  function Frame(payload: Text): Text {
    [START] + payload + [END]
  }

  predicate IsPayload(p: Text) {
    p != [] && AllBits(p)
  }

  /** The frames that the scan collects when it starts at `cursor` and moves left. */
  function Spans(t: Text, cursor: nat): (spans: seq<Span>)
    requires cursor <= |t|
    ensures forall i :: 0 <= i < |spans| ==> spans[i].start < spans[i].end < cursor
    decreases cursor
  {
    var end := RFind(t, END, cursor);
    if end == -1 then []
    else
      var start := RFind(t, START, end);
      if start == -1 then Spans(t, end)
      else if IsPayload(t[start + 1..end]) then [Span(start, end)] + Spans(t, start)
      else Spans(t, start)
  }

  function Payloads(t: Text, spans: seq<Span>): (ps: seq<Text>)
    requires forall i :: 0 <= i < |spans| ==> spans[i].start < spans[i].end <= |t|
    ensures |ps| == |spans|
  {
    seq(|spans|, i requires 0 <= i < |spans| => t[spans[i].start + 1..spans[i].end])
  }

  /** The payloads that the scan collects from a cursor on. */
  function PayloadsFrom(t: Text, cursor: nat): seq<Text>
    requires cursor <= |t|
  {
    Payloads(t, Spans(t, cursor))
  }

  /** The payloads of a text, rightmost first. */
  function PayloadsReverse(t: Text): seq<Text> {
    PayloadsFrom(t, |t|)
  }

  /** The scan as the source runs it, with a cursor that moves left over the text. */
  method IterPayloadsReverse(t: Text) returns (payloads: seq<Text>)
    ensures payloads == PayloadsReverse(t)
  {
    hide RFind, IsPayload, PayloadsFrom;
    payloads := [];
    var cursor: nat := |t|;
    while cursor > 0
      invariant cursor <= |t|
      invariant payloads + PayloadsFrom(t, cursor) == PayloadsReverse(t)
    {
      ScanStep(t, cursor);
      var end := RFind(t, END, cursor);
      if end == -1 {
        return;
      }
      var start := RFind(t, START, end);
      if start == -1 {
        cursor := end;
        continue;
      }
      var payload := t[start + 1..end];
      if IsPayload(payload) {
        payloads := payloads + [payload];
      }
      cursor := start;
    }
    ScanStep(t, 0);
  }

  lemma {:induction false} ScanWithoutFrame(t: Text, cursor: nat)
    requires cursor <= |t|
    ensures var end := RFind(t, END, cursor);
            && (end == -1 ==> PayloadsFrom(t, cursor) == [])
            && (end != -1 && RFind(t, START, end) == -1 ==> PayloadsFrom(t, cursor) == PayloadsFrom(t, end))
  {
    assert Payloads(t, []) == [];
    hide RFind, IsPayload, Payloads;
  }

  lemma {:induction false} ScanFrame(t: Text, cursor: nat, end: nat, start: nat)
    requires cursor <= |t|
    requires end == RFind(t, END, cursor) && start == RFind(t, START, end)
    ensures PayloadsFrom(t, cursor)
            == if IsPayload(t[start + 1..end]) then [t[start + 1..end]] + PayloadsFrom(t, start)
               else PayloadsFrom(t, start)
  {
    PayloadsCons(t, Span(start, end), Spans(t, start));
    hide RFind, IsPayload, Payloads;
  }

  /** One turn of the scan. */
  lemma {:induction false} ScanStep(t: Text, cursor: nat)
    requires cursor <= |t|
    ensures var end := RFind(t, END, cursor);
            PayloadsFrom(t, cursor)
            == if end == -1 then []
               else
                 var start := RFind(t, START, end);
                 if start == -1 then PayloadsFrom(t, end)
                 else (if IsPayload(t[start + 1..end]) then [t[start + 1..end]] else []) + PayloadsFrom(t, start)
  {
    hide RFind, IsPayload, PayloadsFrom;
    ScanWithoutFrame(t, cursor);
    var end := RFind(t, END, cursor);
    if end != -1 && RFind(t, START, end) != -1 {
      ScanFrame(t, cursor, end, RFind(t, START, end));
    }
  }

  lemma PayloadsCons(t: Text, s: Span, rest: seq<Span>)
    requires forall i :: 0 <= i < |rest| ==> rest[i].start < rest[i].end <= |t|
    requires s.start < s.end <= |t|
    ensures Payloads(t, [s] + rest) == [t[s.start + 1..s.end]] + Payloads(t, rest)
  {
  }

  /**
   What the scan is meant to find in the first `limit` characters: a START, one or more bits and an END,
   with no further END before the next START or the limit.
   */
  ghost predicate IsFrame(t: Text, limit: nat, s: Span)
    requires limit <= |t|
  {
    && s.start + 1 < s.end < limit
    && t[s.start] == START
    && t[s.end] == END
    && AllBits(t[s.start + 1..s.end])
    && forall k :: s.end < k < limit && t[k] == END ==> START in t[s.end + 1..k]
  }

  /** The scan finds exactly the frames, each once, rightmost first and without overlaps. */
  lemma {:induction false} SpansAreTheFrames(t: Text, cursor: nat)
    requires cursor <= |t|
    ensures forall s :: s in Spans(t, cursor) <==> IsFrame(t, cursor, s)
    ensures forall i, j :: 0 <= i < j < |Spans(t, cursor)| ==> Spans(t, cursor)[j].end < Spans(t, cursor)[i].start
    decreases cursor
  {
    var end := RFind(t, END, cursor);
    if end != -1 {
      var start := RFind(t, START, end);
      if start == -1 {
        SpansAreTheFrames(t, end);
      } else {
        SpansAreTheFrames(t, start);
        forall s
          ensures s in Spans(t, cursor) <==> IsFrame(t, cursor, s)
        {
          FrameStep(t, cursor, end, start, s);
        }
      }
    }
  }

  /** A frame is either the one the scan is looking at or a frame to the left of its START. */
  lemma {:induction false} FrameStep(t: Text, cursor: nat, end: nat, start: nat, s: Span)
    requires cursor <= |t|
    requires end == RFind(t, END, cursor) && start == RFind(t, START, end)
    ensures IsFrame(t, cursor, s) <==>
            || (s == Span(start, end) && IsPayload(t[start + 1..end]))
            || IsFrame(t, start, s)
  {
    if IsFrame(t, cursor, s) {
      if s.end == end {
        forall i | s.start < i < s.end
          ensures t[i] != START
        {
          assert IsBit(t[s.start + 1..s.end][i - s.start - 1]);
        }
      } else {
        assert START in t[s.end + 1..end];
        var j :| 0 <= j < end - s.end - 1 && t[s.end + 1..end][j] == START;
        assert t[s.end + 1 + j] == START;
        assert s.end < start;
      }
    }
    if IsFrame(t, start, s) {
      forall k | s.end < k < cursor && t[k] == END
        ensures START in t[s.end + 1..k]
      {
        if k > start {
          assert t[s.end + 1..k][start - s.end - 1] == START;
        }
      }
    }
  }

  // ----- what appending does to the scan

  lemma {:induction false} RFindPrefix(a: Text, b: Text, c: Rune, hi: nat)
    requires hi <= |a|
    ensures RFind(a + b, c, hi) == RFind(a, c, hi)
  {
    if hi > 0 {
      RFindPrefix(a, b, c, hi - 1);
    }
  }

  lemma {:induction false} SpansPrefix(a: Text, b: Text, cursor: nat)
    requires cursor <= |a|
    ensures Spans(a + b, cursor) == Spans(a, cursor)
    decreases cursor
  {
    RFindPrefix(a, b, END, cursor);
    var end := RFind(a, END, cursor);
    if end != -1 {
      RFindPrefix(a, b, START, end);
      var start := RFind(a, START, end);
      if start == -1 {
        SpansPrefix(a, b, end);
      } else {
        assert (a + b)[start + 1..end] == a[start + 1..end];
        SpansPrefix(a, b, start);
      }
    }
  }

  lemma PayloadsPrefix(a: Text, b: Text, spans: seq<Span>)
    requires forall i :: 0 <= i < |spans| ==> spans[i].start < spans[i].end <= |a|
    ensures Payloads(a + b, spans) == Payloads(a, spans)
  {
    forall i | 0 <= i < |spans|
      ensures (a + b)[spans[i].start + 1..spans[i].end] == a[spans[i].start + 1..spans[i].end]
    {
    }
  }

  /** Text without an END at the end of a text hides nothing and adds nothing. */
  lemma AppendPlain(t: Text, plain: Text)
    requires END !in plain
    ensures PayloadsReverse(t + plain) == PayloadsReverse(t)
  {
    var u := t + plain;
    var end := RFind(u, END, |u|);
    assert forall i :: |t| <= i < |u| ==> u[i] == plain[i - |t|];
    RFindPrefix(t, plain, END, |t|);
    assert end == RFind(t, END, |t|);
    assert Spans(u, |u|) == Spans(u, |t|);
    SpansPrefix(t, plain, |t|);
    PayloadsPrefix(t, plain, Spans(t, |t|));
  }

  lemma LastSpan(u: Text, n: nat)
    requires n < |u| - 2 && u[n] == START && u[|u| - 1] == END && AllBits(u[n + 1..|u| - 1])
    ensures Spans(u, |u|) == [Span(n, |u| - 1)] + Spans(u, n)
  {
    forall i | n < i < |u| - 1
      ensures u[i] != START
    {
      assert u[i] == u[n + 1..|u| - 1][i - n - 1];
    }
    hide RFind, AllBits;
    assert RFind(u, END, |u|) == |u| - 1;
    assert RFind(u, START, |u| - 1) == n;
  }

  /** A frame at the end of a text is seen first, and the frames before it stay visible. */
  lemma AppendFrame(t: Text, payload: Text)
    requires IsPayload(payload)
    ensures PayloadsReverse(t + Frame(payload)) == [payload] + PayloadsReverse(t)
  {
    hide RFind, AllBits, Spans;
    var u := t + Frame(payload);
    assert u[|t| + 1..|u| - 1] == payload;
    LastSpan(u, |t|);
    SpansPrefix(t, Frame(payload), |t|);
    PayloadsPrefix(t, Frame(payload), Spans(t, |t|));
    PayloadsCons(u, Span(|t|, |u| - 1), Spans(t, |t|));
  }
}
