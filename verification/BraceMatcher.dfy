/** Finding the brace that closes another one, in source text with quoted strings. */
module BraceMatcher {
  import opened Wrappers
  import opened Runes

  const OPEN: Rune := 0x7B
  const CLOSE: Rune := 0x7D
  const BACKSLASH: Rune := 0x5C

  predicate IsQuote(c: Rune) {
    c == 0x27 || c == 0x22 || c == 0x60
  }

  /** Where a scan is: how many braces are open, and inside which quotes, if any. */
  datatype Scan = Scan(depth: int, quote: Option<Rune>, escaped: bool)

  function Step(s: Scan, c: Rune): Scan {
    if s.quote.Some? then
      if s.escaped then s.(escaped := false)
      else if c == BACKSLASH then s.(escaped := true)
      else if Some(c) == s.quote then s.(quote := None)
      else s
    else if IsQuote(c) then s.(quote := Some(c))
    else if c == OPEN then s.(depth := s.depth + 1)
    else if c == CLOSE then s.(depth := s.depth - 1)
    else s
  }

  const FRESH := Scan(0, None, false)

  /** The scan from `start` that has reached `i`, fresh at its start. */
  function At(t: Text, start: nat, i: nat): Scan
    requires start <= i <= |t|
  {
    if i == start then FRESH else Step(At(t, start, i - 1), t[i - 1])
  }

  /** The character at `i` is a closing brace outside quotes that brings the depth back to zero. */
  predicate Closes(t: Text, start: nat, i: nat)
    requires start <= i < |t|
  {
    t[i] == CLOSE && At(t, start, i).quote.None? && At(t, start, i).depth == 1
  }

  /** The first such character. */
  ghost predicate IsMatch(t: Text, start: nat, i: nat) {
    start <= i < |t| && Closes(t, start, i) && forall j :: start <= j < i ==> !Closes(t, start, j)
  }

  /** `find_matching_brace`. */
  method FindMatchingBrace(t: Text, start: nat) returns (r: Option<nat>)
    requires start <= |t|
    ensures r.Some? ==> IsMatch(t, start, r.value)
    ensures r.None? ==> forall i :: start <= i < |t| ==> !Closes(t, start, i)
  {
    var depth, quote, escaped := 0, None, false;
    for i := start to |t|
      invariant Scan(depth, quote, escaped) == At(t, start, i)
      invariant forall j :: start <= j < i ==> !Closes(t, start, j)
    {
      var c := t[i];
      if quote.Some? {
        if escaped {
          escaped := false;
        } else if c == BACKSLASH {
          escaped := true;
        } else if Some(c) == quote {
          quote := None;
        }
      } else if IsQuote(c) {
        quote := Some(c);
      } else if c == OPEN {
        depth := depth + 1;
      } else if c == CLOSE {
        depth := depth - 1;
        if depth == 0 {
          return Some(i);
        }
      }
    }
    return None;
  }

  // ----- spans

  /** An opening brace that the scan from `start` sees outside quotes. */
  predicate OpensAt(t: Text, start: nat, p: nat)
    requires start <= p < |t|
  {
    t[p] == OPEN && At(t, start, p).quote.None?
  }

  /** A scan that is not escaping outside quotes. */
  lemma {:induction false} EscapedInQuotes(t: Text, start: nat, i: nat)
    requires start <= i <= |t|
    ensures At(t, start, i).escaped ==> At(t, start, i).quote.Some?
    decreases i - start
  {
    if i > start {
      EscapedInQuotes(t, start, i - 1);
    }
  }

  /**
   From an opening brace outside quotes, a fresh scan goes along with the outer one, at a constant distance in depth.
   */
  lemma {:induction false} InnerScan(t: Text, start: nat, p: nat, i: nat)
    requires start <= p < |t| && At(t, start, p).quote.None? && p <= i <= |t|
    ensures At(t, start, i) == At(t, p, i).(depth := At(t, start, p).depth + At(t, p, i).depth)
    decreases i - p
  {
    if i == p {
      EscapedInQuotes(t, start, p);
    } else {
      InnerScan(t, start, p, i - 1);
    }
  }

  /** Before its match, a scan from an opening brace has at least one brace open. */
  lemma {:induction false} OpenUntilMatch(t: Text, start: nat, i: nat)
    requires start < i <= |t| && t[start] == OPEN
    requires forall j :: start <= j < i ==> !Closes(t, start, j)
    ensures At(t, start, i).depth >= 1
    decreases i - start
  {
    if i == start + 1 {
      assert At(t, start, start) == FRESH;
    } else {
      OpenUntilMatch(t, start, i - 1);
      assert !Closes(t, start, i - 1);
    }
  }

  /**
   Every opening brace outside quotes inside a matched span has its own match, strictly inside that span: spans are
   nested or apart, and never cross.
   */
  lemma SpansNest(t: Text, start: nat, end: nat, p: nat) returns (q: nat)
    requires IsMatch(t, start, end) && t[start] == OPEN
    requires start < p < end && OpensAt(t, start, p)
    ensures p < q < end && IsMatch(t, p, q)
  {
    OpenUntilMatch(t, start, p);
    InnerScan(t, start, p, end);
    if forall j :: p <= j < end ==> !Closes(t, p, j) {
      OpenUntilMatch(t, p, end);
      assert false;
    }
    q := p;
    while !Closes(t, p, q)
      invariant p <= q < end && forall j :: p <= j < q ==> !Closes(t, p, j)
      decreases end - q
    {
      q := q + 1;
      if q == end {
        assert false;
      }
    }
  }

  // ----- what a span holds

  /** Text in which braces and quotes pair up: a sequence of characters, quoted strings and braced blocks. */
  datatype Block =
    | Nothing
    | Plain(c: Rune, rest: Block)
    | Quoted(quote: Rune, body: Text, rest: Block)
    | Braced(inner: Block, rest: Block)

  /** What can stand between two quotes: every backslash takes the next character with it. */
  predicate IsBody(body: Text, quote: Rune) {
    if body == [] then true
    else if body[0] == BACKSLASH then |body| >= 2 && IsBody(body[2..], quote)
    else body[0] != quote && IsBody(body[1..], quote)
  }

  /** The characters that mean something outside quotes: the braces and the three kinds of quotes. */
  predicate IsSpecial(c: Rune) {
    c == '{' as int || c == '}' as int || c == '\'' as int || c == '\"' as int || c == '`' as int
  }

  predicate IsBlock(b: Block) {
    match b
    case Nothing => true
    case Plain(c, rest) => !IsSpecial(c) && IsBlock(rest)
    case Quoted(quote, body, rest) =>
      IsSpecial(quote) && quote != '{' as int && quote != '}' as int && IsBody(body, quote) && IsBlock(rest)
    case Braced(inner, rest) => IsBlock(inner) && IsBlock(rest)
  }

  function Write(b: Block): Text {
    match b
    case Nothing => []
    case Plain(c, rest) => [c] + Write(rest)
    case Quoted(quote, body, rest) => [quote] + body + [quote] + Write(rest)
    case Braced(inner, rest) => [OPEN] + Write(inner) + [CLOSE] + Write(rest)
  }

  /** The text that stands at a position. */
  predicate StandsAt(t: Text, i: nat, part: Text) {
    i + |part| <= |t| && t[i..i + |part|] == part
  }

  lemma {:induction false} SplitAt(t: Text, i: nat, a: Text, b: Text)
    ensures StandsAt(t, i, a + b) <==> StandsAt(t, i, a) && StandsAt(t, i + |a|, b)
  {
    if i + |a + b| <= |t| {
      assert t[i..i + |a + b|] == t[i..i + |a|] + t[i + |a|..i + |a + b|];
      assert t[i..i + |a + b|][..|a|] == t[i..i + |a|] && t[i..i + |a + b|][|a|..] == t[i + |a|..i + |a| + |b|];
      assert (a + b)[..|a|] == a && (a + b)[|a|..] == b;
    }
  }

  /** The scan has left everything between `i` and `j` as it was, and no brace there is the match. */
  ghost predicate Passed(t: Text, start: nat, i: nat, j: nat)
    requires start <= i <= j <= |t|
  {
    At(t, start, j) == At(t, start, i) && forall k :: i <= k < j ==> !Closes(t, start, k)
  }

  lemma {:induction false} PassBody(t: Text, start: nat, i: nat, quote: Rune, body: Text)
    requires start <= i && StandsAt(t, i, body + [quote]) && IsBody(body, quote) && IsQuote(quote)
    requires At(t, start, i).quote == Some(quote) && !At(t, start, i).escaped
    ensures i + |body| < |t| && At(t, start, i + |body| + 1) == At(t, start, i).(quote := None)
    ensures forall k :: i <= k <= i + |body| ==> !Closes(t, start, k)
    decreases |body|
  {
    hide StandsAt;
    if body == [] {
      assert [] + [quote] == [quote];
      EndQuote(t, start, i, quote);
    } else {
      var n := if body[0] == BACKSLASH then 2 else 1;
      BodyHead(t, i, quote, body, n);
      StepInQuotes(t, start, i, quote);
      hide At, Closes;
      PassBody(t, start, i + n, quote, body[n..]);
    }
  }

  lemma {:induction false} EndQuote(t: Text, start: nat, i: nat, quote: Rune)
    requires start <= i && StandsAt(t, i, [quote]) && quote != BACKSLASH
    requires At(t, start, i).quote == Some(quote) && !At(t, start, i).escaped
    ensures i < |t| && At(t, start, i + 1) == At(t, start, i).(quote := None) && !Closes(t, start, i)
  {
    assert t[i..i + 1][0] == quote;
  }

  lemma {:induction false} BodyHead(t: Text, i: nat, quote: Rune, body: Text, n: nat)
    requires body != [] && n <= |body| && StandsAt(t, i, body + [quote])
    ensures i + |body| < |t| && t[i] == body[0] && StandsAt(t, i + n, body[n..] + [quote])
  {
    assert body + [quote] == body[..n] + (body[n..] + [quote]);
    SplitAt(t, i, body[..n], body[n..] + [quote]);
    assert t[i..i + |body| + 1][0] == body[0];
  }

  /** Inside quotes a character that is not the quote changes nothing, and a backslash takes the next one with it. */
  lemma {:induction false} StepInQuotes(t: Text, start: nat, i: nat, quote: Rune)
    requires start <= i < |t| && t[i] != quote
    requires At(t, start, i).quote == Some(quote) && !At(t, start, i).escaped
    ensures !Closes(t, start, i)
    ensures t[i] != BACKSLASH ==> At(t, start, i + 1) == At(t, start, i)
    ensures t[i] == BACKSLASH && i + 1 < |t| ==> At(t, start, i + 2) == At(t, start, i) && !Closes(t, start, i + 1)
  {
  }

  lemma {:induction false} PassOn(t: Text, start: nat, i: nat, j: nat, k: nat)
    requires start <= i <= j <= k <= |t| && Passed(t, start, i, j) && Passed(t, start, j, k)
    ensures Passed(t, start, i, k)
  {
  }

  lemma {:induction false} PassQuoted(t: Text, start: nat, i: nat, quote: Rune, body: Text)
    requires start <= i && StandsAt(t, i, [quote] + (body + [quote])) && IsBody(body, quote) && IsQuote(quote)
    requires At(t, start, i).quote.None? && !At(t, start, i).escaped
    ensures i + |body| + 2 <= |t| && Passed(t, start, i, i + |body| + 2)
    ensures At(t, start, i + |body| + 2) == At(t, start, i)
  {
    SplitAt(t, i, [quote], body + [quote]);
    assert t[i..i + 1][0] == quote;
    PassBody(t, start, i + 1, quote, body);
  }

  lemma {:induction false} PassBraces(t: Text, start: nat, i: nat, close: nat)
    requires start <= i < close < |t| && t[i] == OPEN && t[close] == CLOSE
    requires At(t, start, i).depth >= 1 && At(t, start, i).quote.None? && !At(t, start, i).escaped
    requires Passed(t, start, i + 1, close)
    ensures Passed(t, start, i, close + 1) && At(t, start, close + 1) == At(t, start, i)
  {
  }

  lemma {:induction false} BracedStands(t: Text, i: nat, inner: Text, rest: Text)
    requires StandsAt(t, i, [OPEN] + inner + [CLOSE] + rest)
    ensures var close := i + 1 + |inner|;
            && StandsAt(t, i + 1, inner) && StandsAt(t, close + 1, rest)
            && close < |t| && t[i] == OPEN && t[close] == CLOSE
  {
    assert [OPEN] + inner + [CLOSE] + rest == [OPEN] + (inner + ([CLOSE] + rest));
    SplitAt(t, i, [OPEN], inner + ([CLOSE] + rest));
    SplitAt(t, i + 1, inner, [CLOSE] + rest);
    SplitAt(t, i + 1 + |inner|, [CLOSE], rest);
    var close := i + 1 + |inner|;
    assert t[i..i + 1][0] == OPEN && t[close..close + 1][0] == CLOSE;
  }

  lemma {:induction false} SpecialIs(c: Rune)
    ensures IsSpecial(c) <==> IsQuote(c) || c == OPEN || c == CLOSE
    ensures IsQuote(c) ==> c != '{' as int && c != '}' as int
    ensures c == '{' as int <==> c == OPEN
    ensures c == '}' as int <==> c == CLOSE
  {
  }

  /** A scan with a brace open passes over a block and comes back to the same depth. */
  lemma {:induction false} PassBlock(t: Text, start: nat, i: nat, b: Block)
    requires start <= i && StandsAt(t, i, Write(b)) && IsBlock(b)
    requires At(t, start, i).depth >= 1 && At(t, start, i).quote.None? && !At(t, start, i).escaped
    ensures i + |Write(b)| <= |t| && Passed(t, start, i, i + |Write(b)|)
    decreases b
  {
    hide At, Passed, Closes, StandsAt, IsBody, IsQuote, IsSpecial;
    match b
    case Nothing =>
      PassNothing(t, start, i);
    case Plain(c, rest) =>
      SpecialIs(c);
      SplitAt(t, i, [c], Write(rest));
      PassPlain(t, start, i, c);
      PassBlock(t, start, i + 1, rest);
      PassOn(t, start, i, i + 1, i + 1 + |Write(rest)|);
    case Quoted(quote, body, rest) =>
      var literal := [quote] + (body + [quote]);
      SpecialIs(quote);
      assert Write(b) == literal + Write(rest);
      SplitAt(t, i, literal, Write(rest));
      PassQuoted(t, start, i, quote, body);
      PassBlock(t, start, i + |literal|, rest);
      PassOn(t, start, i, i + |literal|, i + |literal| + |Write(rest)|);
    case Braced(inner, rest) =>
      BracedStands(t, i, Write(inner), Write(rest));
      var close := i + 1 + |Write(inner)|;
      OpenedAt(t, start, i);
      PassBlock(t, start, i + 1, inner);
      PassBraces(t, start, i, close);
      PassBlock(t, start, close + 1, rest);
      PassOn(t, start, i, close + 1, close + 1 + |Write(rest)|);
  }

  lemma {:induction false} PassNothing(t: Text, start: nat, i: nat)
    requires start <= i && StandsAt(t, i, [])
    ensures i <= |t| && Passed(t, start, i, i)
  {
  }

  lemma {:induction false} PassPlain(t: Text, start: nat, i: nat, c: Rune)
    requires start <= i && StandsAt(t, i, [c]) && !IsQuote(c) && c != OPEN && c != CLOSE
    requires At(t, start, i).quote.None?
    ensures i < |t| && Passed(t, start, i, i + 1) && At(t, start, i + 1) == At(t, start, i)
  {
    assert t[i..i + 1][0] == c;
  }

  lemma {:induction false} OpenedAt(t: Text, start: nat, i: nat)
    requires start <= i < |t| && t[i] == OPEN && At(t, start, i).quote.None?
    ensures At(t, start, i + 1) == At(t, start, i).(depth := At(t, start, i).depth + 1)
  {
  }

  /** Reads what a quote holds, up to its end. */
  lemma {:induction false} ReadBody(t: Text, start: nat, end: nat, i: nat, quote: Rune) returns (j: nat)
    requires start <= i <= end && IsMatch(t, start, end) && IsQuote(quote)
    requires At(t, start, i).quote == Some(quote) && !At(t, start, i).escaped
    ensures i <= j < end && t[j] == quote && IsBody(t[i..j], quote)
    ensures At(t, start, j + 1) == At(t, start, i).(quote := None)
    decreases end - i
  {
    if t[i] == quote {
      j := i;
    } else {
      var n := if t[i] == BACKSLASH then 2 else 1;
      assert At(t, start, i + 1).quote == Some(quote);
      j := ReadBody(t, start, end, i + n, quote);
      assert t[i..j][n..] == t[i + n..j];
    }
  }

  /** The scan is outside quotes with one brace open. */
  predicate OneOpen(t: Text, start: nat, i: nat) {
    start <= i <= |t| && At(t, start, i) == Scan(1, None, false)
  }

  lemma {:induction false} ReadQuoted(t: Text, start: nat, end: nat, i: nat) returns (j: nat)
    requires start < i < end && IsMatch(t, start, end) && OneOpen(t, start, i) && IsQuote(t[i])
    ensures i < j < end && t[j] == t[i] && IsBody(t[i + 1..j], t[i]) && OneOpen(t, start, j + 1)
  {
    j := ReadBody(t, start, end, i + 1, t[i]);
  }

  lemma {:induction false} ReadBraces(t: Text, start: nat, end: nat, i: nat) returns (q: nat)
    requires start < i < end && IsMatch(t, start, end) && t[start] == OPEN && OneOpen(t, start, i) && t[i] == OPEN
    ensures i < q < end && t[q] == CLOSE && IsMatch(t, i, q) && OneOpen(t, i, i + 1) && OneOpen(t, start, q + 1)
  {
    q := SpansNest(t, start, end, i);
    assert At(t, i, i) == FRESH;
    EscapedInQuotes(t, i, q);
    InnerScan(t, start, i, q + 1);
  }

  lemma {:induction false} ReadPlain(t: Text, start: nat, end: nat, i: nat)
    requires start < i < end && IsMatch(t, start, end) && OneOpen(t, start, i) && !IsQuote(t[i]) && t[i] != OPEN
    ensures t[i] != CLOSE && OneOpen(t, start, i + 1)
  {
    assert !Closes(t, start, i);
  }

  lemma {:induction false} FourParts(t: Text, i: nat, j: nat, end: nat)
    requires i < j < end <= |t|
    ensures t[i..end] == [t[i]] + t[i + 1..j] + [t[j]] + t[j + 1..end]
  {
  }

  /** Reads the rest of a span as a block. */
  lemma {:induction false} ReadBlock(t: Text, start: nat, end: nat, i: nat) returns (b: Block)
    requires start < i <= end < |t| && IsMatch(t, start, end) && t[start] == OPEN && OneOpen(t, start, i)
    ensures IsBlock(b) && Write(b) == t[i..end]
    decreases end - i
  {
    hide IsMatch, OneOpen, IsQuote, IsBody, IsSpecial;
    if i < end {
      SpecialIs(t[i]);
    }
    if i == end {
      b := Nothing;
    } else if IsQuote(t[i]) {
      var j := ReadQuoted(t, start, end, i);
      var rest := ReadBlock(t, start, end, j + 1);
      b := Quoted(t[i], t[i + 1..j], rest);
      FourParts(t, i, j, end);
    } else if t[i] == OPEN {
      var q := ReadBraces(t, start, end, i);
      var inner := ReadBlock(t, i, q, i + 1);
      var rest := ReadBlock(t, start, end, q + 1);
      b := Braced(inner, rest);
      FourParts(t, i, q, end);
    } else {
      ReadPlain(t, start, end, i);
      var rest := ReadBlock(t, start, end, i + 1);
      b := Plain(t[i], rest);
      assert t[i..end] == [t[i]] + t[i + 1..end];
    }
  }

  /**
   The matching brace of an opening one is the closing brace after a block: a position is the match exactly when
   what lies between is a text in which braces and quotes pair up.
   */
  lemma {:induction false} MatchEnclosesBlock(t: Text, start: nat, end: nat)
    requires start < end < |t| && t[start] == OPEN && t[end] == CLOSE
    ensures IsMatch(t, start, end) <==> exists b :: IsBlock(b) && Write(b) == t[start + 1..end]
  {
    assert At(t, start, start) == FRESH && At(t, start, start + 1) == Scan(1, None, false);
    if IsMatch(t, start, end) {
      var b := ReadBlock(t, start, end, start + 1);
    }
    if b: Block :| IsBlock(b) && Write(b) == t[start + 1..end] {
      PassBlock(t, start, start + 1, b);
      assert !Closes(t, start, start);
    }
  }

  // ----- the blocks around a position

  /** A brace before the position whose span reaches the position, and the block it encloses. */
  ghost predicate Encloses(t: Text, position: nat, start: nat, end: nat) {
    start < position <= end < |t| && IsMatch(t, start, end) && t[start] == OPEN
  }

  /**
   `is_problem_detail_context`: some block around the position qualifies. The braces are tried from the position
   backwards; one inside a quoted string is tried like any other.
   */
  method IsProblemDetailContext(t: Text, position: nat, qualifies: Text -> bool) returns (found: bool)
    requires position <= |t|
    ensures found <==> exists start: nat, end: nat :: Encloses(t, position, start, end) && qualifies(t[start..end + 1])
  {
    hide IsMatch;
    var start := RFind(t, OPEN, position);
    while start != -1
      invariant -1 <= start < position
      invariant start >= 0 ==> t[start] == OPEN
      invariant forall s: nat, e: nat :: start < s && Encloses(t, position, s, e) ==> !qualifies(t[s..e + 1])
      decreases start
    {
      var end := FindMatchingBrace(t, start);
      OneMatch(t, start, end);
      if end.Some? && end.value >= position && qualifies(t[start..end.value + 1]) {
        assert Encloses(t, position, start, end.value);
        return true;
      }
      start := RFind(t, OPEN, start);
    }
    return false;
  }

  lemma {:induction false} OneMatch(t: Text, start: nat, end: Option<nat>)
    requires start <= |t|
    requires end.Some? ==> IsMatch(t, start, end.value)
    requires end.None? ==> forall i :: start <= i < |t| ==> !Closes(t, start, i)
    ensures forall e: nat :: IsMatch(t, start, e) ==> end == Some(e)
  {
  }
}
