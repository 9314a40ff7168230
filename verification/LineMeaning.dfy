/** What a line of an error dictionary file and a quoted value mean, said of their characters. */
module LineMeaning {
  import opened Runes
  import opened Trimming
  import opened DictionaryLines
  import Quoting
  import TextLines

  /** The number of spaces in front of a line. */
  predicate HasIndent(raw: Text, n: nat) {
    && n <= |raw| && (forall i :: 0 <= i < n ==> raw[i] == 0x20) && (n < |raw| ==> raw[n] != 0x20)
  }

  lemma {:induction false} IndentIs(raw: Text, n: nat)
    requires HasIndent(raw, n)
    ensures Indent(raw) == n
  {
    if n > 0 {
      IndentIs(raw[1..], n - 1);
    }
  }

  lemma {:induction false} NoneBefore(t: Text, k: nat)
    requires k <= |t| && COLON !in t[..k]
    ensures forall i :: 0 <= i < k ==> t[i] != COLON
  {
    forall i | 0 <= i < k ensures t[i] != COLON {
      assert t[..k][i] == t[i];
    }
  }

  lemma {:induction false} ColonIs(t: Text, k: nat)
    requires k < |t| && t[k] == COLON && COLON !in t[..k]
    ensures ColonAt(t) == k
  {
    NoneBefore(t, k);
  }

  /** A line with nothing on it, or with a comment, is skipped; every other one without a colon is no mapping. */
  lemma {:induction false} OtherLineMeans(raw: Text, body: Text, n: nat)
    requires IsTrimmed(raw, body) && HasIndent(raw, n)
    ensures body == [] || body[0] == '#' as int <==> ReadLine(raw).Ignored?
    ensures body != [] && body[0] != '#' as int && ':' as int !in body <==> ReadLine(raw) == NoMapping(n)
  {
    StripMeans(raw, body);
    IndentIs(raw, n);
    hide Strip, IsTrimmed, Indent;
    if ':' as int !in body {
      NoColon(body);
    } else {
      var k :| 0 <= k < |body| && body[k] == COLON;
      assert ColonAt(body) <= k;
    }
  }

  lemma {:induction false} NoColon(t: Text)
    requires COLON !in t
    ensures ColonAt(t) == |t|
  {
  }

  /** A line is a key and a value at its first colon, each without the blanks around it. */
  lemma {:induction false} MappingMeans(raw: Text, body: Text, n: nat, k: nat, key: Text, value: Text)
    requires IsTrimmed(raw, body) && HasIndent(raw, n) && body != [] && body[0] != '#' as int
    requires k < |body| && body[k] == ':' as int && ':' as int !in body[..k]
    requires IsTrimmed(body[..k], key) && IsTrimmed(body[k + 1..], value)
    ensures ReadLine(raw) == Mapping(n, key, value)
  {
    StripMeans(raw, body);
    StripMeans(body[..k], key);
    StripMeans(body[k + 1..], value);
    IndentIs(raw, n);
    ColonIs(body, k);
    hide Strip, IsTrimmed, Indent, ColonAt;
  }

  /** Only a value between two quotes of one kind loses them, and the backslashes in front of quotes and backslashes. */
  lemma {:induction false} UnquoteMeans(value: Text)
    ensures var quoted := |value| >= 2 && (value[0] == '\'' as int || value[0] == '\"' as int)
                          && value[|value| - 1] == value[0];
            Quoting.Unquote(value) == if quoted then Quoting.OnePass(value[1..|value| - 1]) else value
  {
    if |value| >= 2 {
      Quoting.UnescapeIsOnePass(value[1..|value| - 1]);
    }
    hide Quoting.Unescape, Quoting.OnePass;
  }

  /** The characters that end a line. */
  lemma {:induction false} BreaksAre(c: Rune)
    ensures TextLines.IsBreak(c) <==> c in {0x0A, 0x0B, 0x0C, 0x0D, 0x1C, 0x1D, 0x1E, 0x85, 0x2028, 0x2029}
  {
  }
}
