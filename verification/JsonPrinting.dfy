/** Every JSON value, written with any blanks between its tokens, is read back as itself. */
module JsonPrinting {
  import opened Wrappers
  import opened Runes
  import opened Json

  // ----- writing

  function DigitRune(d: nat): Rune
    requires d < 10
  {
    '0' as int + d
  }

  function Decimal(n: nat): (t: Text)
    ensures t != [] && forall i :: 0 <= i < |t| ==> IsDigit(t[i])
  {
    if n < 10 then [DigitRune(n)] else Decimal(n / 10) + [DigitRune(n % 10)]
  }

  function PrintInt(n: int): Text {
    if n < 0 then ['-' as int] + Decimal(-n) else Decimal(n)
  }

  /** A value without floats, whose text the model of a value does not hold, and without integers that are refused. */
  predicate Printable(v: Json) {
    match v
    case Float => false
    case Int(n) => |Decimal(if n < 0 then -n else n)| <= MAX_DIGITS
    case Arr(items) => forall i :: 0 <= i < |items| ==> Printable(items[i])
    case Obj(members) => forall i :: 0 <= i < |members| ==> Printable(members[i].1)
    case _ => true
  }

  /** The parts of an array or an object, separated by commas, up to and including the closing bracket. */
  function Join(parts: seq<Text>, gap: Text, close: Rune): Text {
    if parts == [] then [close]
    else if |parts| == 1 then parts[0] + (gap + [close])
    else parts[0] + (gap + ([',' as int] + (gap + Join(parts[1..], gap, close))))
  }

  /** A value, with the same blanks between any two tokens. */
  function Print(v: Json, gap: Text): Text
    requires Printable(v)
  {
    match v
    case Null => Lit("null")
    case Bool(b) => if b then Lit("true") else Lit("false")
    case Int(n) => PrintInt(n)
    case Str(s) => PrintString(s)
    case Arr(items) =>
      ['[' as int]
      + (gap + Join(seq(|items|, i requires 0 <= i < |items| => Print(items[i], gap)), gap, ']' as int))
    case Obj(members) =>
      ['{' as int]
      + (gap + Join(seq(|members|, i requires 0 <= i < |members| =>
                      PrintString(members[i].0) + (gap + ([':' as int] + (gap + Print(members[i].1, gap))))),
                    gap, '}' as int))
  }

  // ----- reading

  /** Spaces, tabs, line feeds and carriage returns. */
  predicate IsGap(t: Text) {
    forall i :: 0 <= i < |t| ==> t[i] == 0x20 || t[i] == 0x09 || t[i] == 0x0A || t[i] == 0x0D
  }

  /** What can follow a number without going on with it. */
  predicate Ends(t: Text) {
    t == [] || !(IsDigit(t[0]) || t[0] == '.' as int || t[0] == 'e' as int || t[0] == 'E' as int)
  }

  /** A text that is read as a value whatever ends it, and that starts like one. */
  ghost predicate ReadsAs(text: Text, v: Json) {
    && text != [] && !IsJsonSpace(text[0]) && text[0] != ']' as int && text[0] != BOM
    && forall tail :: Ends(tail) ==> ParseValue(text + tail) == Done(v, tail)
  }

  lemma {:induction false} SkipGap(gap: Text, t: Text)
    requires IsGap(gap) && (t == [] || !IsJsonSpace(t[0]))
    ensures SkipSpace(gap + t) == t
  {
    if gap == [] {
      assert gap + t == t;
    } else {
      assert (gap + t)[1..] == gap[1..] + t;
      SkipGap(gap[1..], t);
    }
  }

  lemma {:induction false} GapEnds(gap: Text, c: Rune, t: Text)
    requires IsGap(gap) && !IsDigit(c) && c != '.' as int && c != 'e' as int && c != 'E' as int
    ensures Ends(gap + ([c] + t))
  {
    if gap != [] {
      assert IsJsonSpace(gap[0]);
    }
  }

  // ----- numbers

  lemma {:induction false} PrefixOf(digits: Text, t: Text)
    requires forall i :: 0 <= i < |digits| ==> IsDigit(digits[i])
    requires t == [] || !IsDigit(t[0])
    ensures DigitsPrefix(digits + t) == |digits|
  {
    if digits == [] {
      assert digits + t == t;
    } else {
      assert (digits + t)[1..] == digits[1..] + t;
      PrefixOf(digits[1..], t);
    }
  }

  lemma {:induction false} DecimalRead(n: nat)
    ensures DecimalValue(Decimal(n)) == n
    ensures n > 0 ==> Decimal(n)[0] != '0' as int
    ensures n == 0 ==> |Decimal(n)| == 1 && Decimal(n)[0] == '0' as int
  {
    if n >= 10 {
      DecimalRead(n / 10);
      var t := Decimal(n);
      assert t[..|t| - 1] == Decimal(n / 10);
    } else {
      assert Decimal(n)[..0] == [];
    }
  }

  lemma {:induction false} NothingAfter(t: Text)
    requires Ends(t)
    ensures AfterWhole(t) == (false, t)
  {
    assert FractionLength(t) == 0;
    assert t[0..] == t;
  }

  /** The digits of a number, whatever ends it. */
  predicate IsWhole(u: Text, m: nat, k: nat, rest: Text) {
    && 0 < k <= |u| && k <= MAX_DIGITS && DigitsPrefix(u) == k && u[k..] == rest
    && (forall i :: 0 <= i < k ==> IsDigit(u[i])) && DecimalValue(u[..k]) == m
    && (u[0] == '0' as int ==> k == 1)
  }

  lemma {:induction false} DecimalIsWhole(m: nat, t: Text)
    requires Ends(t) && |Decimal(m)| <= MAX_DIGITS
    ensures IsWhole(Decimal(m) + t, m, |Decimal(m)|, t)
  {
    var digits := Decimal(m);
    DecimalRead(m);
    PrefixOf(digits, t);
    hide Decimal, DecimalValue, DigitsPrefix;
    var u := digits + t;
    assert u[..|digits|] == digits && u[|digits|..] == t && u[0] == digits[0];
    assert forall i :: 0 <= i < |digits| ==> u[i] == digits[i];
  }

  lemma {:induction false} NaturalRead(m: nat, t: Text)
    requires Ends(t) && |Decimal(m)| <= MAX_DIGITS
    ensures ParseNumber(Decimal(m) + t) == Done(Int(m), t)
  {
    hide Decimal, IsWhole, AfterWhole, ParseNumber, Ends;
    DecimalIsWhole(m, t);
    NothingAfter(t);
    UnsignedNumber(Decimal(m) + t, m, |Decimal(m)|, t);
  }

  lemma {:induction false} NegativeRead(m: nat, t: Text)
    requires Ends(t) && |Decimal(m)| <= MAX_DIGITS
    ensures ParseNumber(['-' as int] + Decimal(m) + t) == Done(Int(0 - m), t)
  {
    hide Decimal, IsWhole, AfterWhole, ParseNumber, Ends;
    DecimalIsWhole(m, t);
    NothingAfter(t);
    SignFirst(Decimal(m), t);
    SignedNumber(['-' as int] + Decimal(m) + t, Decimal(m) + t, m, |Decimal(m)|, t);
  }

  lemma {:induction false} NumberRead(n: int, t: Text)
    requires Ends(t) && Printable(Int(n))
    ensures ParseNumber(PrintInt(n) + t) == Done(Int(n), t)
  {
    hide Decimal, ParseNumber, Ends;
    if n < 0 {
      NegativeRead(-n, t);
    } else {
      NaturalRead(n, t);
    }
  }

  lemma {:induction false} SignFirst(digits: Text, t: Text)
    ensures var s := ['-' as int] + digits + t; s[0] == '-' as int && s[1..] == digits + t
  {
  }

  lemma {:induction false} UnsignedNumber(u: Text, m: nat, k: nat, rest: Text)
    requires IsWhole(u, m, k, rest) && AfterWhole(rest) == (false, rest)
    ensures ParseNumber(u) == Done(Int(m), rest)
  {
    hide AfterWhole, DecimalValue, DigitsPrefix;
  }

  lemma {:induction false} SignedNumber(s: Text, u: Text, m: nat, k: nat, rest: Text)
    requires s != [] && s[0] == '-' as int && s[1..] == u
    requires IsWhole(u, m, k, rest) && AfterWhole(rest) == (false, rest)
    ensures ParseNumber(s) == Done(Int(0 - m), rest)
  {
    hide AfterWhole, DecimalValue, DigitsPrefix;
  }

  lemma {:induction false} NumberDispatch(t: Text)
    requires t != [] && (IsDigit(t[0]) || (t[0] == '-' as int && |t| > 1 && IsDigit(t[1])))
    ensures ParseValue(t) == ParseNumber(t)
  {
    hide ParseNumber, ParseString, ParseMembers, ParseItems, SkipSpace;
    assert Lit("-Infinity")[1] == 'I' as int && Lit("null")[0] == 'n' as int && Lit("true")[0] == 't' as int;
    assert Lit("false")[0] == 'f' as int && Lit("NaN")[0] == 'N' as int && Lit("Infinity")[0] == 'I' as int;
    assert |Lit("-Infinity")| == 9;
  }

  lemma {:induction false} IntReads(n: int)
    requires Printable(Int(n))
    ensures ReadsAs(PrintInt(n), Int(n))
  {
    var text := PrintInt(n);
    assert IsDigit(text[0]) || (text[0] == '-' as int && |text| > 1 && IsDigit(text[1]));
    hide PrintInt, ParseValue, ParseNumber;
    forall tail | Ends(tail) ensures ParseValue(text + tail) == Done(Int(n), tail) {
      assert (text + tail)[0] == text[0] && (|text| > 1 ==> (text + tail)[1] == text[1]);
      NumberDispatch(text + tail);
      NumberRead(n, tail);
    }
  }

  // ----- words and strings

  lemma {:induction false} NullReads()
    ensures ReadsAs(Lit("null"), Null)
  {
    var text := Lit("null");
    assert |text| == 4 && text[0] == 'n' as int;
    forall tail | Ends(tail) ensures ParseValue(text + tail) == Done(Null, tail) {
      var t := text + tail;
      assert t[..4] == text && t[4..] == tail && text <= t && t[0] == 'n' as int;
      hide ParseNumber, ParseString, ParseMembers, ParseItems, SkipSpace;
    }
  }

  lemma {:induction false} TrueReads()
    ensures ReadsAs(Lit("true"), Bool(true))
  {
    var text := Lit("true");
    assert |text| == 4 && text[0] == 't' as int && Lit("null")[0] == 'n' as int;
    forall tail | Ends(tail) ensures ParseValue(text + tail) == Done(Bool(true), tail) {
      var t := text + tail;
      assert t[..4] == text && t[4..] == tail && text <= t && t[0] == 't' as int;
      hide ParseNumber, ParseString, ParseMembers, ParseItems, SkipSpace;
    }
  }

  lemma {:induction false} FalseReads()
    ensures ReadsAs(Lit("false"), Bool(false))
  {
    var text := Lit("false");
    assert |text| == 5 && text[0] == 'f' as int && Lit("null")[0] == 'n' as int && Lit("true")[0] == 't' as int;
    forall tail | Ends(tail) ensures ParseValue(text + tail) == Done(Bool(false), tail) {
      var t := text + tail;
      assert t[..5] == text && t[5..] == tail && text <= t && t[0] == 'f' as int;
      hide ParseNumber, ParseString, ParseMembers, ParseItems, SkipSpace;
    }
  }

  lemma {:induction false} StrReads(s: Text)
    ensures ReadsAs(PrintString(s), Str(s))
  {
    assert PrintString(s)[0] == QUOTE;
    hide PrintString, ParseValue;
    forall tail | Ends(tail) ensures ParseValue(PrintString(s) + tail) == Done(Str(s), tail) {
      ParsePrintedString(s, tail);
    }
  }

  // ----- arrays

  lemma {:induction false} ItemsRead(items: seq<Json>, parts: seq<Text>, gap: Text, tail: Text)
    requires IsGap(gap) && items != [] && |parts| == |items|
    requires forall i :: 0 <= i < |items| ==> ReadsAs(parts[i], items[i])
    ensures ParseItems(Join(parts, gap, ']' as int) + tail) == Done(items, tail)
  {
    hide ParseValue, SkipSpace, Ends, IsGap;
    assert ReadsAs(parts[0], items[0]);
    if |items| == 1 {
      var after := gap + ([']' as int] + tail);
      GapEnds(gap, ']' as int, tail);
      SkipGap(gap, [']' as int] + tail);
      assert Join(parts, gap, ']' as int) + tail == parts[0] + after;
      assert ([']' as int] + tail)[1..] == tail && items == [items[0]];
    } else {
      var more := Join(parts[1..], gap, ']' as int) + tail;
      var after := gap + ([',' as int] + (gap + more));
      GapEnds(gap, ',' as int, gap + more);
      SkipGap(gap, [',' as int] + (gap + more));
      assert Join(parts, gap, ']' as int) + tail == parts[0] + after;
      assert ([',' as int] + (gap + more))[1..] == gap + more;
      assert ReadsAs(parts[1..][0], items[1..][0]);
      JoinStarts(parts[1..], gap, ']' as int, tail);
      SkipGap(gap, more);
      ItemsRead(items[1..], parts[1..], gap, tail);
      assert items == [items[0]] + items[1..];
    }
  }

  lemma {:induction false} JoinStarts(parts: seq<Text>, gap: Text, close: Rune, tail: Text)
    requires parts != [] && parts[0] != []
    ensures Join(parts, gap, close) != [] && (Join(parts, gap, close) + tail)[0] == parts[0][0]
  {
  }

  // ----- objects

  function Part(key: Text, value: Text, gap: Text): Text {
    PrintString(key) + (gap + ([':' as int] + (gap + value)))
  }

  /** One member, and the character after it decides how the object goes on. */
  lemma {:induction false} PartRead(key: Text, value: Text, v: Json, gap: Text, after: Text, next: Text)
    requires IsGap(gap) && ReadsAs(value, v) && Ends(after) && SkipSpace(after) == next
    requires next != [] && (next[0] == '}' as int || next[0] == ',' as int)
    ensures ParseMembers(Part(key, value, gap) + after)
            == if next[0] == '}' as int then Done([(key, v)], next[1..])
               else match ParseMembers(SkipSpace(next[1..]))
                    case Fail => Fail
                    case Done(more, rest) => Done([(key, v)] + more, rest)
  {
    var colon, text := [':' as int] + (gap + (value + after)), Part(key, value, gap) + after;
    PartText(key, value, gap, after);
    ParsePrintedString(key, gap + colon);
    SkipGap(gap, colon);
    ValueFirst(value, v, after);
    SkipGap(gap, value + after);
    assert colon[1..] == gap + (value + after);
    hide *;
    MemberParsed(text, key, v, gap + colon, colon, value + after, after, next);
  }

  lemma {:induction false} PartText(key: Text, value: Text, gap: Text, after: Text)
    ensures var colon := [':' as int] + (gap + (value + after));
            && Part(key, value, gap) + after == PrintString(key) + (gap + colon)
            && (PrintString(key) + (gap + colon))[0] == QUOTE
  {
    hide EscapeText;
  }

  lemma {:induction false} ValueFirst(value: Text, v: Json, after: Text)
    requires ReadsAs(value, v) && Ends(after)
    ensures value + after != [] && !IsJsonSpace((value + after)[0]) && ParseValue(value + after) == Done(v, after)
  {
    hide ParseValue, Ends;
    assert (value + after)[0] == value[0];
  }

  lemma {:induction false} MemberParsed(
      text: Text, key: Text, v: Json, afterKey: Text, colon: Text, value: Text, after: Text, next: Text)
    requires text != [] && text[0] == QUOTE && ParseString(text[1..]) == Done(key, afterKey)
    requires SkipSpace(afterKey) == colon && colon != [] && colon[0] == ':' as int
    requires SkipSpace(colon[1..]) == value && ParseValue(value) == Done(v, after) && SkipSpace(after) == next
    requires next != [] && (next[0] == '}' as int || next[0] == ',' as int)
    ensures ParseMembers(text)
            == if next[0] == '}' as int then Done([(key, v)], next[1..])
               else match ParseMembers(SkipSpace(next[1..]))
                    case Fail => Fail
                    case Done(more, rest) => Done([(key, v)] + more, rest)
  {
    hide ParseString, ParseValue, SkipSpace;
  }

  lemma {:induction false} MembersRead(
      members: seq<(Text, Json)>, values: seq<Text>, parts: seq<Text>, gap: Text, tail: Text)
    requires IsGap(gap) && members != [] && |values| == |parts| == |members|
    requires forall i :: 0 <= i < |members| ==>
               ReadsAs(values[i], members[i].1) && parts[i] == Part(members[i].0, values[i], gap)
    ensures ParseMembers(Join(parts, gap, '}' as int) + tail) == Done(members, tail)
  {
    hide ParseValue, ParseMembers, SkipSpace, Ends, IsGap, Part, ReadsAs;
    assert ReadsAs(values[0], members[0].1);
    if |members| == 1 {
      var next := ['}' as int] + tail;
      GapEnds(gap, '}' as int, tail);
      SkipGap(gap, next);
      PartRead(members[0].0, values[0], members[0].1, gap, gap + next, next);
      assert Join(parts, gap, '}' as int) + tail == parts[0] + (gap + next);
      assert next[1..] == tail && members == [members[0]];
    } else {
      var more := Join(parts[1..], gap, '}' as int) + tail;
      var next := [',' as int] + (gap + more);
      GapEnds(gap, ',' as int, gap + more);
      SkipGap(gap, next);
      PartRead(members[0].0, values[0], members[0].1, gap, gap + next, next);
      assert Join(parts, gap, '}' as int) + tail == parts[0] + (gap + next);
      assert next[1..] == gap + more;
      PartStarts(members[1].0, values[1], gap);
      JoinStarts(parts[1..], gap, '}' as int, tail);
      SkipGap(gap, more);
      MembersRead(members[1..], values[1..], parts[1..], gap, tail);
      assert members == [members[0]] + members[1..];
    }
  }

  lemma {:induction false} PartStarts(key: Text, value: Text, gap: Text)
    ensures Part(key, value, gap) != [] && Part(key, value, gap)[0] == QUOTE
  {
  }

  // ----- values

  lemma {:induction false} Inside(open: Rune, inner: Text, gap: Text, tail: Text)
    requires IsGap(gap) && inner != [] && !IsJsonSpace(inner[0])
    ensures var t := [open] + (gap + inner) + tail;
            t[0] == open && SkipSpace(t[1..]) == inner + tail && (inner + tail)[0] == inner[0]
  {
    var t := [open] + (gap + inner) + tail;
    assert t[1..] == gap + (inner + tail);
    hide SkipSpace, IsGap;
    SkipGap(gap, inner + tail);
  }

  lemma {:induction false} ArrayParsed(t: Text, u: Text, items: seq<Json>, tail: Text)
    requires t != [] && t[0] == '[' as int && SkipSpace(t[1..]) == u && u != []
    requires if items == [] then u[0] == ']' as int && u[1..] == tail
             else u[0] != ']' as int && ParseItems(u) == Done(items, tail)
    ensures ParseValue(t) == Done(Arr(items), tail)
  {
    hide ParseItems, ParseMembers, ParseString, ParseNumber, SkipSpace;
  }

  lemma {:induction false} ObjectParsed(t: Text, u: Text, members: seq<(Text, Json)>, tail: Text)
    requires t != [] && t[0] == '{' as int && SkipSpace(t[1..]) == u && u != []
    requires if members == [] then u[0] == '}' as int && u[1..] == tail
             else u[0] != '}' as int && ParseMembers(u) == Done(members, tail)
    ensures ParseValue(t) == Done(Obj(members), tail)
  {
    hide ParseItems, ParseMembers, ParseString, ParseNumber, SkipSpace;
  }

  lemma {:induction false} ArrayRead(items: seq<Json>, inner: Text, gap: Text, tail: Text)
    requires IsGap(gap)
    requires items == [] ==> inner == [']' as int]
    requires items != [] ==> inner != [] && inner[0] != ']' as int && !IsJsonSpace(inner[0])
                             && ParseItems(inner + tail) == Done(items, tail)
    ensures ParseValue(['[' as int] + (gap + inner) + tail) == Done(Arr(items), tail)
  {
    hide ParseItems, ParseValue, SkipSpace, IsGap;
    Inside('[' as int, inner, gap, tail);
    assert items == [] ==> (inner + tail)[1..] == tail;
    ArrayParsed(['[' as int] + (gap + inner) + tail, inner + tail, items, tail);
  }

  lemma {:induction false} ObjectRead(members: seq<(Text, Json)>, inner: Text, gap: Text, tail: Text)
    requires IsGap(gap)
    requires members == [] ==> inner == ['}' as int]
    requires members != [] ==> inner != [] && inner[0] == QUOTE && ParseMembers(inner + tail) == Done(members, tail)
    ensures ParseValue(['{' as int] + (gap + inner) + tail) == Done(Obj(members), tail)
  {
    hide ParseMembers, ParseValue, SkipSpace, IsGap;
    Inside('{' as int, inner, gap, tail);
    assert members == [] ==> (inner + tail)[1..] == tail;
    ObjectParsed(['{' as int] + (gap + inner) + tail, inner + tail, members, tail);
  }

  lemma {:induction false} ArrayReads(items: seq<Json>, parts: seq<Text>, gap: Text)
    requires IsGap(gap) && |parts| == |items| && forall i :: 0 <= i < |items| ==> ReadsAs(parts[i], items[i])
    ensures ReadsAs(['[' as int] + (gap + Join(parts, gap, ']' as int)), Arr(items))
  {
    hide ParseValue, ParseItems, IsGap, Ends;
    var inner := Join(parts, gap, ']' as int);
    if items != [] {
      assert ReadsAs(parts[0], items[0]);
      JoinStarts(parts, gap, ']' as int, []);
      assert inner + [] == inner;
    }
    forall tail | Ends(tail)
      ensures ParseValue(['[' as int] + (gap + inner) + tail) == Done(Arr(items), tail) {
      if items != [] {
        ItemsRead(items, parts, gap, tail);
      }
      hide Join, ReadsAs;
      ArrayRead(items, inner, gap, tail);
    }
  }

  lemma {:induction false} ObjectReads(
      members: seq<(Text, Json)>, values: seq<Text>, parts: seq<Text>, gap: Text)
    requires IsGap(gap) && |values| == |parts| == |members|
    requires forall i :: 0 <= i < |members| ==>
               ReadsAs(values[i], members[i].1) && parts[i] == Part(members[i].0, values[i], gap)
    ensures ReadsAs(['{' as int] + (gap + Join(parts, gap, '}' as int)), Obj(members))
  {
    hide ParseValue, ParseMembers, IsGap, Ends, Part;
    var inner := Join(parts, gap, '}' as int);
    if members != [] {
      PartStarts(members[0].0, values[0], gap);
      JoinStarts(parts, gap, '}' as int, []);
      assert inner + [] == inner;
    }
    forall tail | Ends(tail)
      ensures ParseValue(['{' as int] + (gap + inner) + tail) == Done(Obj(members), tail) {
      if members != [] {
        MembersRead(members, values, parts, gap, tail);
      }
      hide Join, ReadsAs;
      ObjectRead(members, inner, gap, tail);
    }
  }

  lemma {:induction false} PrintReads(v: Json, gap: Text)
    requires Printable(v) && IsGap(gap)
    ensures ReadsAs(Print(v, gap), v)
    decreases v
  {
    hide ReadsAs, IsGap, Join, PrintInt, PrintString, Lit;
    match v
    case Null => NullReads();
    case Bool(b) =>
      TrueReads();
      FalseReads();
    case Int(n) => IntReads(n);
    case Str(s) => StrReads(s);
    case Arr(items) =>
      var parts := seq(|items|, i requires 0 <= i < |items| => Print(items[i], gap));
      forall i | 0 <= i < |items| ensures ReadsAs(parts[i], items[i]) {
        PrintReads(items[i], gap);
      }
      ArrayReads(items, parts, gap);
    case Obj(members) =>
      var values := seq(|members|, i requires 0 <= i < |members| => Print(members[i].1, gap));
      var parts := seq(|members|, i requires 0 <= i < |members| =>
                     PrintString(members[i].0) + (gap + ([':' as int] + (gap + Print(members[i].1, gap)))));
      forall i | 0 <= i < |members|
        ensures ReadsAs(values[i], members[i].1) && parts[i] == Part(members[i].0, values[i], gap) {
        PrintReads(members[i].1, gap);
      }
      ObjectReads(members, values, parts, gap);
  }

  /**
   `json.loads` reads every value back from its text, with any blanks around it and between its tokens: numbers, words,
   strings, arrays and objects at any depth.
   */
  lemma {:induction false} LoadsInvertsValues(v: Json, gap: Text)
    requires Printable(v) && IsGap(gap)
    ensures Loads(gap + (Print(v, gap) + gap)) == Some(v)
  {
    PrintReads(v, gap);
    var text := Print(v, gap);
    assert (text + gap)[0] == text[0];
    hide Print, ParseValue, SkipSpace;
    SkipGap(gap, text + gap);
    assert gap + [] == gap;
    SkipGap(gap, []);
    assert Ends(gap) by { assert gap != [] ==> IsJsonSpace(gap[0]); }
    assert gap != [] ==> (gap + (text + gap))[0] == gap[0] && IsJsonSpace(gap[0]);
    assert gap == [] ==> gap + (text + gap) == text + gap;
  }

  // ----- a pair of escapes

  /** Two escapes with the halves of a character beyond the first plane are read as that character. */
  lemma {:induction false} PairRead(c: Rune, a: Text, b: Text, t: Text)
    requires 0x1_0000 <= c && |a| == 4 && |b| == 4
    requires Hex4(a + ([BACKSLASH, 'u' as int] + (b + t))) == Some(0xD800 + (c - 0x1_0000) / 0x400)
    requires Hex4(b + t) == Some(0xDC00 + (c - 0x1_0000) % 0x400)
    ensures ParseString([BACKSLASH, 'u' as int] + (a + ([BACKSLASH, 'u' as int] + (b + t))))
            == match ParseString(t) case Fail => Fail case Done(s, rest) => Done([c] + s, rest)
  {
    var second := [BACKSLASH, 'u' as int] + (b + t);
    var all := [BACKSLASH, 'u' as int] + (a + second);
    assert all[2..] == a + second && all[6..] == second && second[2..] == b + t && all[12..] == t;
    hide Hex4;
  }

  /** The characters that the eight short escapes stand for. */
  lemma {:induction false} ShortEscapes(t: Text)
    ensures EscapeReads('"' as int, 0x22, t) && EscapeReads('\\' as int, 0x5C, t) && EscapeReads('/' as int, 0x2F, t)
    ensures EscapeReads('b' as int, 0x08, t) && EscapeReads('f' as int, 0x0C, t) && EscapeReads('n' as int, 0x0A, t)
    ensures EscapeReads('r' as int, 0x0D, t) && EscapeReads('t' as int, 0x09, t)
  {
    ShortEscape('"' as int, 0x22, t);
    ShortEscape('\\' as int, 0x5C, t);
    ShortEscape('/' as int, 0x2F, t);
    ShortEscape('b' as int, 0x08, t);
    ShortEscape('f' as int, 0x0C, t);
    ShortEscape('n' as int, 0x0A, t);
    ShortEscape('r' as int, 0x0D, t);
    ShortEscape('t' as int, 0x09, t);
    hide EscapeReads;
  }

  predicate EscapeReads(letter: Rune, c: Rune, t: Text) {
    ParseString([0x5C, letter] + t) == match ParseString(t) case Fail => Fail case Done(s, rest) => Done([c] + s, rest)
  }

  lemma {:induction false} ShortEscape(letter: Rune, c: Rune, t: Text)
    requires Unescaped(letter) == Some(c)
    ensures EscapeReads(letter, c, t)
  {
    assert ([0x5C, letter] + t)[2..] == t;
    hide Unescaped, Hex4, LowEscape;
    assert letter != 'u' as int by { NotHex(letter); }
  }

  lemma {:induction false} NotHex(letter: Rune)
    requires Unescaped(letter).Some?
    ensures letter != 'u' as int
  {
  }
}
