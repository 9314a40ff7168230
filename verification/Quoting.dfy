/** Quoted values of the error dictionaries, and the three replacements that take their escapes out. */
module Quoting {
  import opened Runes

  const BACKSLASH: Rune := 0x5C
  const DOUBLE: Rune := 0x22
  const SINGLE: Rune := 0x27

  /** `t.replace("\\" + c, c)`. */
  function Drop(t: Text, c: Rune): (r: Text)
    ensures |r| <= |t|
  {
    if t == [] then []
    else if t[0] == BACKSLASH && |t| >= 2 && t[1] == c then [c] + Drop(t[2..], c)
    else [t[0]] + Drop(t[1..], c)
  }

  /** `_unescape`: three replacements, one after the other. */
  function Unescape(t: Text): Text {
    Drop(Drop(Drop(t, DOUBLE), SINGLE), BACKSLASH)
  }

  predicate Escapable(c: Rune) {
    c == DOUBLE || c == SINGLE || c == BACKSLASH
  }

  /** Taking the escapes out in one pass from the left. */
  function OnePass(t: Text): Text {
    if t == [] then []
    else if t[0] == BACKSLASH && |t| >= 2 && Escapable(t[1]) then [t[1]] + OnePass(t[2..])
    else [t[0]] + OnePass(t[1..])
  }

  /** A character that no replacement of `c` starts at. */
  lemma {:induction false} DropStep(first: Rune, rest: Text, c: Rune)
    requires first != BACKSLASH || rest == [] || rest[0] != c
    ensures Drop([first] + rest, c) == [first] + Drop(rest, c)
  {
    assert ([first] + rest)[1..] == rest;
  }

  lemma {:induction false} DropEscape(rest: Text, c: Rune)
    ensures Drop([BACKSLASH, c] + rest, c) == [c] + Drop(rest, c)
  {
    assert ([BACKSLASH, c] + rest)[2..] == rest;
  }

  /** The first character of a text after a replacement is its own first one, or the replaced one behind a backslash. */
  lemma {:induction false} DropFirst(t: Text, c: Rune)
    ensures t == [] <==> Drop(t, c) == []
    ensures t != [] ==> Drop(t, c)[0] == t[0] || (t[0] == BACKSLASH && Drop(t, c)[0] == c)
  {
  }

  /** An ordinary character passes through all three replacements. */
  lemma {:induction false} UnescapePlain(first: Rune, rest: Text)
    requires first != BACKSLASH || rest == [] || !Escapable(rest[0])
    ensures Unescape([first] + rest) == [first] + Unescape(rest)
  {
    DropFirst(rest, DOUBLE);
    DropFirst(Drop(rest, DOUBLE), SINGLE);
    DropStep(first, rest, DOUBLE);
    DropStep(first, Drop(rest, DOUBLE), SINGLE);
    DropStep(first, Drop(Drop(rest, DOUBLE), SINGLE), BACKSLASH);
  }

  /** An escaped quote is taken by its own replacement. */
  lemma {:induction false} UnescapeQuote(q: Rune, rest: Text)
    requires q == DOUBLE || q == SINGLE
    ensures Unescape([BACKSLASH, q] + rest) == [q] + Unescape(rest)
  {
    var one := Drop(rest, DOUBLE);
    if q == DOUBLE {
      DropEscape(rest, DOUBLE);
      DropStep(q, one, SINGLE);
    } else {
      assert [BACKSLASH, q] + rest == [BACKSLASH] + ([q] + rest) && ([q] + rest)[0] == q;
      DropStep(BACKSLASH, [q] + rest, DOUBLE);
      DropStep(q, rest, DOUBLE);
      assert [BACKSLASH] + ([q] + one) == [BACKSLASH, q] + one;
      DropEscape(one, SINGLE);
    }
    DropStep(q, Drop(one, SINGLE), BACKSLASH);
  }

  /**
   An escaped backslash gives a backslash, also in front of a quote: there the first or second replacement takes the
   second backslash, and the third one finds nothing to take.
   */
  lemma {:induction false} UnescapeBackslash(rest: Text)
    ensures Unescape([BACKSLASH, BACKSLASH] + rest) == [BACKSLASH] + Unescape(rest)
  {
    assert [BACKSLASH, BACKSLASH] + rest == [BACKSLASH] + ([BACKSLASH] + rest);
    assert ([BACKSLASH] + rest)[0] == BACKSLASH;
    DropStep(BACKSLASH, [BACKSLASH] + rest, DOUBLE);
    if rest != [] && rest[0] == DOUBLE {
      BackslashBeforeDouble(rest[1..]);
      assert rest == [DOUBLE] + rest[1..];
    } else if rest != [] && rest[0] == SINGLE {
      BackslashBeforeSingle(rest[1..]);
      assert rest == [SINGLE] + rest[1..];
    } else {
      BackslashBeforeOther(rest);
    }
  }

  lemma {:induction false} BackslashBeforeDouble(t: Text)
    ensures Unescape([BACKSLASH, BACKSLASH] + ([DOUBLE] + t)) == [BACKSLASH] + Unescape([DOUBLE] + t)
  {
    assert [BACKSLASH, BACKSLASH] + ([DOUBLE] + t) == [BACKSLASH] + ([BACKSLASH, DOUBLE] + t);
    DropStep(BACKSLASH, [BACKSLASH, DOUBLE] + t, DOUBLE);
    DropEscape(t, DOUBLE);
    DropStep(DOUBLE, t, DOUBLE);
    var one := Drop(t, DOUBLE);
    DropStep(BACKSLASH, [DOUBLE] + one, SINGLE);
    DropStep(DOUBLE, one, SINGLE);
    DropStep(BACKSLASH, [DOUBLE] + Drop(one, SINGLE), BACKSLASH);
  }

  lemma {:induction false} BackslashBeforeSingle(t: Text)
    ensures Unescape([BACKSLASH, BACKSLASH] + ([SINGLE] + t)) == [BACKSLASH] + Unescape([SINGLE] + t)
  {
    var one := Drop(t, DOUBLE);
    assert [BACKSLASH, BACKSLASH] + ([SINGLE] + t) == [BACKSLASH] + ([BACKSLASH] + ([SINGLE] + t));
    DropStep(SINGLE, t, DOUBLE);
    DropStep(BACKSLASH, [SINGLE] + t, DOUBLE);
    DropStep(BACKSLASH, [BACKSLASH] + ([SINGLE] + t), DOUBLE);
    assert [BACKSLASH] + ([SINGLE] + one) == [BACKSLASH, SINGLE] + one;
    DropStep(BACKSLASH, [BACKSLASH, SINGLE] + one, SINGLE);
    DropEscape(one, SINGLE);
    DropStep(SINGLE, one, SINGLE);
    DropStep(BACKSLASH, [SINGLE] + Drop(one, SINGLE), BACKSLASH);
  }

  lemma {:induction false} BackslashBeforeOther(rest: Text)
    requires rest == [] || (rest[0] != DOUBLE && rest[0] != SINGLE)
    ensures Unescape([BACKSLASH, BACKSLASH] + rest) == [BACKSLASH] + Unescape(rest)
  {
    var one := Drop(rest, DOUBLE);
    var two := Drop(one, SINGLE);
    DropFirst(rest, DOUBLE);
    assert [BACKSLASH, BACKSLASH] + rest == [BACKSLASH] + ([BACKSLASH] + rest);
    DropStep(BACKSLASH, rest, DOUBLE);
    DropStep(BACKSLASH, [BACKSLASH] + rest, DOUBLE);
    DropStep(BACKSLASH, one, SINGLE);
    DropStep(BACKSLASH, [BACKSLASH] + one, SINGLE);
    assert [BACKSLASH] + ([BACKSLASH] + two) == [BACKSLASH, BACKSLASH] + two;
    DropEscape(two, BACKSLASH);
  }

  /** The three replacements in a row mean the same as one pass from the left, on every text. */
  lemma {:induction false} UnescapeIsOnePass(t: Text)
    ensures Unescape(t) == OnePass(t)
  {
    hide Unescape;
    if t == [] {
      EmptyUnescapes();
    } else if t[0] == BACKSLASH && |t| >= 2 && Escapable(t[1]) {
      assert t == [BACKSLASH, t[1]] + t[2..];
      if t[1] == BACKSLASH {
        UnescapeBackslash(t[2..]);
      } else {
        UnescapeQuote(t[1], t[2..]);
      }
      UnescapeIsOnePass(t[2..]);
    } else {
      assert t == [t[0]] + t[1..];
      UnescapePlain(t[0], t[1..]);
      UnescapeIsOnePass(t[1..]);
    }
  }

  lemma EmptyUnescapes()
    ensures Unescape([]) == []
  {
  }

  /** `_unquote`; both parsers have their own copy of it. */
  function Unquote(value: Text): Text {
    if |value| >= 2 && value[0] == value[|value| - 1] && (value[0] == SINGLE || value[0] == DOUBLE)
    then Unescape(value[1..|value| - 1])
    else value
  }

  // ----- writing a value so that it can be read back

  /** The text with every backslash written twice. */
  function Escape(v: Text): Text {
    if v == [] then [] else (if v[0] == BACKSLASH then [BACKSLASH, BACKSLASH] else [v[0]]) + Escape(v[1..])
  }

  function Quote(v: Text, quote: Rune): Text {
    [quote] + Escape(v) + [quote]
  }

  lemma {:induction false} OnePassInvertsEscape(v: Text)
    ensures OnePass(Escape(v)) == v
  {
    if v != [] {
      OnePassInvertsEscape(v[1..]);
      var tail := Escape(v[1..]);
      if v[0] == BACKSLASH {
        assert ([BACKSLASH, BACKSLASH] + tail)[2..] == tail;
      } else {
        assert ([v[0]] + tail)[1..] == tail;
      }
      assert v == [v[0]] + v[1..];
    }
  }

  /** Every text can be written as a quoted value that reads back as itself, whatever quotes it holds. */
  lemma UnquoteInvertsQuote(v: Text, quote: Rune)
    requires quote == SINGLE || quote == DOUBLE
    ensures Unquote(Quote(v, quote)) == v
  {
    var value := Quote(v, quote);
    assert value[1..|value| - 1] == Escape(v);
    UnescapeIsOnePass(Escape(v));
    OnePassInvertsEscape(v);
  }
}
