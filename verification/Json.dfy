/**
 JSON (RFC 8259) as Python's `json` module reads and writes it: any value, the `NaN` and `Infinity`
 extensions, repeated object keys, lone surrogate escapes, and strict refusal of raw control characters.
 */
module Json {
  import opened Wrappers
  import opened Runes

  datatype Json =
    | Null
    | Bool(b: bool)
    | Int(n: int)
    | Float
    | Str(s: Text)
    | Arr(items: seq<Json>)
    | Obj(members: seq<(Text, Json)>)

  datatype Parsed<+T> = Fail | Done(value: T, rest: Text) {
    predicate IsFailure() {
      Fail?
    }

    function PropagateFailure<U>(): Parsed<U>
      requires Fail?
    {
      Fail
    }

    function Extract(): (T, Text)
      requires Done?
    {
      (value, rest)
    }
  }

  const QUOTE: Rune := 0x22
  const BACKSLASH: Rune := 0x5C
  const BOM: Rune := 0xFEFF

  predicate IsDigit(c: Rune) {
    '0' as int <= c <= '9' as int
  }

  predicate StartsWith(t: Text, s: string) {
    Lit(s) <= t
  }

  function SkipSpace(t: Text): (r: Text)
    ensures |r| <= |t|
    ensures r != [] ==> !IsJsonSpace(r[0])
  {
    if t != [] && IsJsonSpace(t[0]) then SkipSpace(t[1..]) else t
  }

  predicate IsJsonSpace(c: Rune) {
    c == 0x20 || c == 0x09 || c == 0x0A || c == 0x0D
  }

  // ----- strings (RFC 8259, section 7)

  function HexValue(c: Rune): (v: Option<nat>)
    ensures v.Some? ==> v.value < 16
  {
    if IsDigit(c) then Some(c - '0' as int)
    else if 'a' as int <= c <= 'f' as int then Some(c - 'a' as int + 10)
    else if 'A' as int <= c <= 'F' as int then Some(c - 'A' as int + 10)
    else None
  }

  /** The value of the four hexadecimal digits that start `t`. */
  function Hex4(t: Text): (c: Option<Rune>)
    ensures c.Some? ==> c.value < 0x1_0000 && |t| >= 4
  {
    if |t| < 4 then None
    else
      var a :- HexValue(t[0]);
      var b :- HexValue(t[1]);
      var c :- HexValue(t[2]);
      var d :- HexValue(t[3]);
      Some(((a * 16 + b) * 16 + c) * 16 + d)
  }

  predicate IsHigh(c: Rune) {
    0xD800 <= c < 0xDC00
  }

  predicate IsLow(c: Rune) {
    0xDC00 <= c < 0xE000
  }

  /** The character an escape letter stands for. */
  function Unescaped(c: Rune): Option<Rune> {
    if c == QUOTE || c == BACKSLASH || c == '/' as int then Some(c)
    else if c == 'b' as int then Some(0x08)
    else if c == 'f' as int then Some(0x0C)
    else if c == 'n' as int then Some(0x0A)
    else if c == 'r' as int then Some(0x0D)
    else if c == 't' as int then Some(0x09)
    else None
  }

  /** The second half of a surrogate pair, when `t` starts with its escape. */
  function LowEscape(t: Text): (c: Option<Rune>)
    ensures c.Some? ==> IsLow(c.value) && |t| >= 6
  {
    if |t| >= 6 && t[0] == BACKSLASH && t[1] == 'u' as int then
      var c :- Hex4(t[2..]);
      if IsLow(c) then Some(c) else None
    else None
  }

  /** The content of a string whose opening quote has been read, up to and including the closing one. */
  function ParseString(t: Text): (r: Parsed<Text>)
    ensures r.Done? ==> |r.rest| < |t|
  {
    if t == [] then Fail
    else if t[0] == QUOTE then Done([], t[1..])
    else if t[0] == BACKSLASH then
      if |t| < 2 then Fail
      else if t[1] == 'u' as int then
        match Hex4(t[2..])
        case None => Fail
        case Some(c) =>
          match LowEscape(t[6..])
          case Some(low) =>
            if IsHigh(c) then
              var (s, rest) :- ParseString(t[12..]);
              Done([0x1_0000 + (c - 0xD800) * 0x400 + (low - 0xDC00)] + s, rest)
            else
              var (s, rest) :- ParseString(t[6..]);
              Done([c] + s, rest)
          case None =>
            var (s, rest) :- ParseString(t[6..]);
            Done([c] + s, rest)
      else
        match Unescaped(t[1])
        case None => Fail
        case Some(c) =>
          var (s, rest) :- ParseString(t[2..]);
          Done([c] + s, rest)
    else if t[0] < 0x20 then Fail
    else
      var (s, rest) :- ParseString(t[1..]);
      Done([t[0]] + s, rest)
  }

  // ----- numbers (RFC 8259, section 6)

  function DigitsPrefix(t: Text): (n: nat)
    ensures n <= |t|
    ensures forall i :: 0 <= i < n ==> IsDigit(t[i])
    ensures n < |t| ==> !IsDigit(t[n])
  {
    if t != [] && IsDigit(t[0]) then 1 + DigitsPrefix(t[1..]) else 0
  }

  function DecimalValue(t: Text): nat
    requires forall i :: 0 <= i < |t| ==> IsDigit(t[i])
  {
    if t == [] then 0
    else
      var last: int := t[|t| - 1];
      assert IsDigit(t[|t| - 1]);
      DecimalValue(t[..|t| - 1]) * 10 + (last - '0' as int)
  }

  /** The length of a fraction or exponent that starts `t`, or 0 when there is none. */
  function FractionLength(t: Text): (n: nat)
    ensures n <= |t|
  {
    if |t| >= 2 && t[0] == '.' as int && IsDigit(t[1]) then 1 + DigitsPrefix(t[1..]) else 0
  }

  function ExponentLength(t: Text): (n: nat)
    ensures n <= |t|
  {
    if |t| >= 2 && (t[0] == 'e' as int || t[0] == 'E' as int) then
      var signed := if t[1] == '+' as int || t[1] == '-' as int then 2 else 1;
      var digits := DigitsPrefix(t[signed..]);
      if digits == 0 then 0 else signed + digits
    else 0
  }

  /** What follows the whole part of a number: whether it is a fraction or an exponent, and the text after it. */
  function AfterWhole(t: Text): (r: (bool, Text))
    ensures |r.1| <= |t|
  {
    var frac := FractionLength(t);
    var exp := ExponentLength(t[frac..]);
    (frac + exp > 0, t[frac..][exp..])
  }

  /** Python refuses to convert longer integers, with a `ValueError`. */
  const MAX_DIGITS := 4300

  function ParseNumber(t: Text): (r: Parsed<Json>)
    ensures r.Done? ==> |r.rest| < |t|
  {
    var minus := t != [] && t[0] == '-' as int;
    var u := if minus then t[1..] else t;
    var run := DigitsPrefix(u);
    if run == 0 then Fail
    else
      var digits := if u[0] == '0' as int then 1 else run;
      var (isFloat, rest) := AfterWhole(u[digits..]);
      var magnitude: int := DecimalValue(u[..digits]);
      if isFloat then Done(Float, rest)
      else if digits > MAX_DIGITS then Fail
      else Done(Int(if minus then -magnitude else magnitude), rest)
  }

  // ----- values

  function ParseValue(t: Text): (r: Parsed<Json>)
    ensures r.Done? ==> |r.rest| < |t|
    decreases |t|, 0
  {
    if t == [] then Fail
    else if t[0] == QUOTE then
      var (s, rest) :- ParseString(t[1..]);
      Done(Str(s), rest)
    else if t[0] == '{' as int then
      var u := SkipSpace(t[1..]);
      if u != [] && u[0] == '}' as int then Done(Obj([]), u[1..])
      else
        var (members, rest) :- ParseMembers(u);
        Done(Obj(members), rest)
    else if t[0] == '[' as int then
      var u := SkipSpace(t[1..]);
      if u != [] && u[0] == ']' as int then Done(Arr([]), u[1..])
      else
        var (items, rest) :- ParseItems(u);
        Done(Arr(items), rest)
    else if StartsWith(t, "null") then Done(Null, t[4..])
    else if StartsWith(t, "true") then Done(Bool(true), t[4..])
    else if StartsWith(t, "false") then Done(Bool(false), t[5..])
    else if StartsWith(t, "NaN") then Done(Float, t[3..])
    else if StartsWith(t, "Infinity") then Done(Float, t[8..])
    else if StartsWith(t, "-Infinity") then Done(Float, t[9..])
    else ParseNumber(t)
  }

  /** One or more `"key": value` members, up to and including the closing brace. */
  function ParseMembers(t: Text): (r: Parsed<seq<(Text, Json)>>)
    ensures r.Done? ==> |r.rest| < |t|
    decreases |t|, 1
  {
    if t == [] || t[0] != QUOTE then Fail
    else
      var (key, afterKey) :- ParseString(t[1..]);
      var colon := SkipSpace(afterKey);
      if colon == [] || colon[0] != ':' as int then Fail
      else
        var (value, afterValue) :- ParseValue(SkipSpace(colon[1..]));
        var next := SkipSpace(afterValue);
        if next == [] then Fail
        else if next[0] == '}' as int then Done([(key, value)], next[1..])
        else if next[0] == ',' as int then
          var (more, rest) :- ParseMembers(SkipSpace(next[1..]));
          Done([(key, value)] + more, rest)
        else Fail
  }

  /** One or more values, up to and including the closing bracket. */
  function ParseItems(t: Text): (r: Parsed<seq<Json>>)
    ensures r.Done? ==> |r.rest| < |t|
    decreases |t|, 1
  {
    var (value, afterValue) :- ParseValue(t);
    var next := SkipSpace(afterValue);
    if next == [] then Fail
    else if next[0] == ']' as int then Done([value], next[1..])
    else if next[0] == ',' as int then
      var (more, rest) :- ParseItems(SkipSpace(next[1..]));
      Done([value] + more, rest)
    else Fail
  }

  /** `json.loads`; None stands for `JSONDecodeError`, and for the `ValueError` of an integer that is too long. */
  function Loads(t: Text): Option<Json> {
    if t != [] && t[0] == BOM then None
    else
      match ParseValue(SkipSpace(t))
      case Fail => None
      case Done(v, rest) => if SkipSpace(rest) == [] then Some(v) else None
  }

  /** `d.get(key)` on the dictionary made from the members: the last of several equal keys wins. */
  function Get(members: seq<(Text, Json)>, key: Text): Option<Json> {
    if members == [] then None
    else if members[|members| - 1].0 == key then Some(members[|members| - 1].1)
    else Get(members[..|members| - 1], key)
  }

  // ----- printing: `json.dumps(d, ensure_ascii=False, separators=(",", ":"))` of string members

  function HexDigit(v: nat): Rune
    requires v < 16
  {
    if v < 10 then '0' as int + v else 'a' as int + (v - 10)
  }

  function EscapeRune(c: Rune): (t: Text)
    ensures t != []
  {
    if c == QUOTE || c == BACKSLASH then [BACKSLASH, c]
    else if c == 0x08 then [BACKSLASH, 'b' as int]
    else if c == 0x0C then [BACKSLASH, 'f' as int]
    else if c == 0x0A then [BACKSLASH, 'n' as int]
    else if c == 0x0D then [BACKSLASH, 'r' as int]
    else if c == 0x09 then [BACKSLASH, 't' as int]
    else if c < 0x20 then [BACKSLASH, 'u' as int, '0' as int, '0' as int, HexDigit(c / 16), HexDigit(c % 16)]
    else [c]
  }

  function EscapeText(s: Text): Text {
    if s == [] then [] else EscapeRune(s[0]) + EscapeText(s[1..])
  }

  function PrintString(s: Text): Text {
    [QUOTE] + EscapeText(s) + [QUOTE]
  }

  function PrintMember(m: (Text, Text)): Text {
    PrintString(m.0) + [':' as int] + PrintString(m.1)
  }

  function PrintMembers(members: seq<(Text, Text)>): Text
    requires members != []
  {
    if |members| == 1 then PrintMember(members[0])
    else PrintMember(members[0]) + [',' as int] + PrintMembers(members[1..])
  }

  function PrintObject(members: seq<(Text, Text)>): Text {
    if members == [] then ['{' as int, '}' as int]
    else ['{' as int] + PrintMembers(members) + ['}' as int]
  }

  function StringMembers(members: seq<(Text, Text)>): (ms: seq<(Text, Json)>)
    ensures |ms| == |members|
  {
    seq(|members|, i requires 0 <= i < |members| => (members[i].0, Str(members[i].1)))
  }

  // ----- printing and parsing agree

  /** The four hexadecimal digits of a control character. */
  lemma {:induction false} HexOfControl(c: Rune, t: Text)
    requires c < 0x20
    ensures Hex4(['0' as int, '0' as int, HexDigit(c / 16), HexDigit(c % 16)] + t) == Some(c)
  {
  }

  /** An escape with hexadecimal digits is read as its character. */
  lemma {:induction false} ParseControl(c: Rune, digits: Text, t: Text)
    requires |digits| == 4 && Hex4(digits + t) == Some(c) && c < 0x20
    ensures ParseString([BACKSLASH, 'u' as int] + digits + t) ==
            match ParseString(t) case Fail => Fail case Done(s, rest) => Done([c] + s, rest)
  {
    hide Hex4, LowEscape;
    var e := [BACKSLASH, 'u' as int] + digits;
    assert (e + t)[2..] == digits + t && (e + t)[6..] == t;
  }

  lemma {:induction false} ParseEscapedRune(c: Rune, t: Text)
    ensures ParseString(EscapeRune(c) + t) ==
            match ParseString(t) case Fail => Fail case Done(s, rest) => Done([c] + s, rest)
  {
    var e := EscapeRune(c);
    assert (e + t)[|e|..] == t;
    if c < 0x20 && |e| == 6 {
      var digits: Text := ['0' as int, '0' as int, HexDigit(c / 16), HexDigit(c % 16)];
      HexOfControl(c, t);
      assert e == [BACKSLASH, 'u' as int] + digits;
      ParseControl(c, digits, t);
    } else {
      assert |e| <= 2;
      hide Hex4, LowEscape;
    }
  }

  lemma {:induction false} ParseClosingQuote(t: Text)
    ensures ParseString([QUOTE] + t) == Done([], t)
  {
    assert ([QUOTE] + t)[1..] == t;
  }

  /** Parsing a printed string gives the string back, whatever follows it. */
  lemma {:induction false} ParseStringInvertsEscape(s: Text, t: Text)
    ensures ParseString(EscapeText(s) + [QUOTE] + t) == Done(s, t)
  {
    hide ParseString, EscapeRune;
    if s == [] {
      assert [] + [QUOTE] + t == [QUOTE] + t;
      ParseClosingQuote(t);
    } else {
      ParseStringInvertsEscape(s[1..], t);
      var tail := EscapeText(s[1..]) + [QUOTE] + t;
      ParseEscapedRune(s[0], tail);
      assert EscapeText(s) + [QUOTE] + t == EscapeRune(s[0]) + tail;
      assert s == [s[0]] + s[1..];
    }
  }

  lemma {:induction false} SkipNone(c: Rune, t: Text)
    requires !IsJsonSpace(c)
    ensures SkipSpace([c] + t) == [c] + t
  {
  }

  lemma {:induction false} ParseValueString(s: Text, inside: Text, t: Text)
    requires ParseString(inside) == Done(s, t)
    ensures ParseValue([QUOTE] + inside) == Done(Str(s), t)
  {
    hide ParseString, ParseNumber, ParseMembers, ParseItems, SkipSpace;
    assert ([QUOTE] + inside)[1..] == inside;
  }

  lemma {:induction false} ParsePrintedString(s: Text, t: Text)
    ensures ParseValue(PrintString(s) + t) == Done(Str(s), t)
    ensures ParseString((PrintString(s) + t)[1..]) == Done(s, t)
  {
    hide ParseValue, ParseString, EscapeText;
    var inside := EscapeText(s) + [QUOTE] + t;
    assert PrintString(s) + t == [QUOTE] + inside;
    ParseStringInvertsEscape(s, t);
    ParseValueString(s, inside, t);
  }

  /** A member that has been read, and what the character after it decides. */
  lemma {:induction false} ParseMember(text: Text, key: Text, value: Text, colon: Text, end: Text)
    requires text != [] && text[0] == QUOTE && ParseString(text[1..]) == Done(key, [':' as int] + colon)
    requires colon != [] && colon[0] == QUOTE && ParseValue(colon) == Done(Str(value), end)
    requires end != [] && (end[0] == '}' as int || end[0] == ',' as int)
    ensures ParseMembers(text) ==
            if end[0] == '}' as int then Done([(key, Str(value))], end[1..])
            else match ParseMembers(SkipSpace(end[1..]))
                 case Fail => Fail
                 case Done(more, rest) => Done([(key, Str(value))] + more, rest)
  {
    SkipNone(':' as int, colon);
    SkipNone(colon[0], colon[1..]);
    SkipNone(end[0], end[1..]);
    assert colon == [colon[0]] + colon[1..] && end == [end[0]] + end[1..];
    assert ([':' as int] + colon)[1..] == colon;
    hide ParseString, ParseValue, SkipSpace;
  }

  /** One printed member is read back, and the character after it decides how the object goes on. */
  lemma {:induction false} ParsePrintedMember(key: Text, value: Text, end: Text)
    requires end != [] && (end[0] == '}' as int || end[0] == ',' as int)
    ensures ParseMembers(PrintMember((key, value)) + end) ==
            if end[0] == '}' as int then Done([(key, Str(value))], end[1..])
            else match ParseMembers(SkipSpace(end[1..]))
                 case Fail => Fail
                 case Done(more, rest) => Done([(key, Str(value))] + more, rest)
  {
    hide ParseString, ParseValue, ParseMembers, SkipSpace, EscapeText;
    var colon := PrintString(value) + end;
    var text := PrintString(key) + ([':' as int] + colon);
    assert PrintMember((key, value)) + end == text;
    ParsePrintedString(key, [':' as int] + colon);
    ParsePrintedString(value, end);
    ParseMember(text, key, value, colon, end);
  }

  lemma {:induction false} ParsePrintedMembers(members: seq<(Text, Text)>, t: Text)
    requires members != []
    ensures ParseMembers(PrintMembers(members) + ['}' as int] + t) == Done(StringMembers(members), t)
  {
    hide ParseMembers, PrintMember, PrintString;
    var (key, value) := members[0];
    if |members| == 1 {
      var end := ['}' as int] + t;
      assert PrintMembers(members) + ['}' as int] + t == PrintMember(members[0]) + end;
      assert end[1..] == t;
      ParsePrintedMember(key, value, end);
      assert StringMembers(members) == [(key, Str(value))];
    } else {
      var tail := PrintMembers(members[1..]) + ['}' as int] + t;
      var end := [',' as int] + tail;
      assert PrintMembers(members) + ['}' as int] + t == PrintMember(members[0]) + end;
      assert end[1..] == tail;
      MembersStartWithQuote(members[1..]);
      assert tail[0] == QUOTE;
      assert SkipSpace(tail) == tail;
      ParsePrintedMember(key, value, end);
      ParsePrintedMembers(members[1..], t);
      assert StringMembers(members) == [(key, Str(value))] + StringMembers(members[1..]);
    }
  }

  lemma MembersStartWithQuote(members: seq<(Text, Text)>)
    requires members != []
    ensures PrintMembers(members) != [] && PrintMembers(members)[0] == QUOTE
  {
  }

  lemma {:induction false} ParseValueObject(body: Text, members: seq<(Text, Json)>)
    requires body != [] && body[0] == QUOTE && ParseMembers(body) == Done(members, [])
    ensures ParseValue(['{' as int] + body) == Done(Obj(members), [])
  {
    assert (['{' as int] + body)[1..] == body && body == [QUOTE] + body[1..];
    SkipNone(QUOTE, body[1..]);
    hide ParseMembers, ParseString, ParseNumber, ParseItems, SkipSpace;
  }

  lemma {:induction false} LoadsEmptyObject()
    ensures Loads(PrintObject([])) == Some(Obj([]))
  {
    hide ParseMembers, ParseString, ParseNumber, ParseItems;
    assert SkipSpace(['}' as int]) == ['}' as int];
  }

  /** `json.loads` undoes `json.dumps` on every dictionary of strings. */
  lemma {:induction false} LoadsInvertsPrint(members: seq<(Text, Text)>)
    ensures Loads(PrintObject(members)) == Some(Obj(StringMembers(members)))
  {
    if members == [] {
      LoadsEmptyObject();
      assert StringMembers(members) == [];
    } else {
      var body := PrintMembers(members) + ['}' as int];
      MembersStartWithQuote(members);
      ParsePrintedMembers(members, []);
      hide PrintMembers, ParseMembers, ParseValue, StringMembers;
      assert body + [] == body && PrintObject(members) == ['{' as int] + body;
      ParseValueObject(body, StringMembers(members));
      SkipNone('{' as int, body);
      assert SkipSpace([]) == [];
    }
  }

  // ----- printing adds no surrogates and hides none

  lemma {:induction false} EscapeRuneEncodable(c: Rune)
    ensures Encodable(EscapeRune(c)) <==> Encodable([c])
  {
  }

  lemma {:induction false} EscapeEncodable(s: Text)
    ensures Encodable(EscapeText(s)) <==> Encodable(s)
  {
    hide Encodable, EscapeRune;
    if s == [] {
      assert EscapeText(s) == s;
    } else {
      EncodableConcat(EscapeRune(s[0]), EscapeText(s[1..]));
      EscapeEncodable(s[1..]);
      assert s == [s[0]] + s[1..];
      EncodableConcat([s[0]], s[1..]);
      EscapeRuneEncodable(s[0]);
    }
  }

  lemma PrintStringEncodable(s: Text)
    ensures Encodable(PrintString(s)) <==> Encodable(s)
  {
    EscapeEncodable(s);
    EncodableConcat([QUOTE] + EscapeText(s), [QUOTE]);
    EncodableConcat([QUOTE], EscapeText(s));
  }

  ghost predicate MembersEncodable(members: seq<(Text, Text)>) {
    forall i :: 0 <= i < |members| ==> Encodable(members[i].0) && Encodable(members[i].1)
  }

  lemma PrintMemberEncodable(m: (Text, Text))
    ensures Encodable(PrintMember(m)) <==> Encodable(m.0) && Encodable(m.1)
  {
    PrintStringEncodable(m.0);
    PrintStringEncodable(m.1);
    EncodableConcat(PrintString(m.0) + [':' as int], PrintString(m.1));
    EncodableConcat(PrintString(m.0), [':' as int]);
  }

  lemma {:induction false} PrintMembersEncodable(members: seq<(Text, Text)>)
    requires members != []
    ensures Encodable(PrintMembers(members)) <==> MembersEncodable(members)
  {
    hide PrintMember, Encodable;
    PrintMemberEncodable(members[0]);
    if |members| > 1 {
      PrintMembersEncodable(members[1..]);
      EncodableConcat(PrintMember(members[0]) + [',' as int], PrintMembers(members[1..]));
      EncodableConcat(PrintMember(members[0]), [',' as int]);
      LitEncodable(",");
      assert Lit(",") == [',' as int];
      assert forall i :: 0 < i < |members| ==> members[i] == members[1..][i - 1];
    }
  }

  /** The printed object has a UTF-8 encoding exactly when all its keys and values have one. */
  lemma PrintObjectEncodable(members: seq<(Text, Text)>)
    ensures Encodable(PrintObject(members)) <==> MembersEncodable(members)
  {
    if members != [] {
      PrintMembersEncodable(members);
      EncodableConcat(['{' as int] + PrintMembers(members), ['}' as int]);
      EncodableConcat(['{' as int], PrintMembers(members));
    }
  }
}
