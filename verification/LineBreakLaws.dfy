/**
 What a line break in a key or text of an error dictionary does, and the exact condition for all of it to come back.
 */
module LineBreakLaws {
  import opened Wrappers
  import opened Runes
  import opened DictionaryLines
  import opened DictionaryWriter
  import opened DictionaryRoundTrip
  import opened TextLines
  import Quoting
  import Strict = ErrorDictionary

  // ----- what is read from a file holds no line break

  lemma {:induction false} StripParts(t: Text)
    ensures forall c :: c in Strip(t) ==> c in t
  {
    LeftParts(t);
    RightParts(LStrip(t));
    hide LStrip, RStrip;
  }

  lemma {:induction false} LeftParts(t: Text)
    ensures forall c :: c in LStrip(t) ==> c in t
  {
    hide IsSpace;
    if t != [] {
      LeftParts(t[1..]);
    }
  }

  lemma {:induction false} RightParts(t: Text)
    ensures forall c :: c in RStrip(t) ==> c in t
  {
    hide IsSpace;
    if t != [] {
      RightParts(t[..|t| - 1]);
    }
  }

  lemma {:induction false} DropParts(t: Text, q: Rune)
    ensures forall c :: c in Quoting.Drop(t, q) ==> c in t
  {
    if t != [] {
      DropParts(t[1..], q);
      if |t| >= 2 {
        DropParts(t[2..], q);
      }
    }
  }

  lemma {:induction false} UnquoteParts(value: Text)
    ensures forall c :: c in Quoting.Unquote(value) ==> c in value
  {
    if |value| >= 2 {
      var inner := value[1..|value| - 1];
      var one := Quoting.Drop(inner, Quoting.DOUBLE);
      var two := Quoting.Drop(one, Quoting.SINGLE);
      DropParts(inner, Quoting.DOUBLE);
      DropParts(one, Quoting.SINGLE);
      DropParts(two, Quoting.BACKSLASH);
      hide Quoting.Drop;
    }
  }

  predicate LineOnOneLine(line: Line) {
    line.Mapping? ==> OnOneLine(line.key) && OnOneLine(line.value)
  }

  lemma {:induction false} ReadOnOneLine(raw: Text)
    requires OnOneLine(raw)
    ensures LineOnOneLine(ReadLine(raw))
  {
    hide IsBreak, Strip, OnOneLine;
    var stripped := Strip(raw);
    StripParts(raw);
    PartOnOneLine(raw, stripped);
    var at := ColonAt(stripped);
    if at < |stripped| {
      var key, value := stripped[..at], stripped[at + 1..];
      StripParts(key);
      StripParts(value);
      assert forall c :: c in key ==> c in stripped;
      assert forall c :: c in value ==> c in stripped;
      PartOnOneLine(stripped, Strip(key));
      PartOnOneLine(stripped, Strip(value));
    }
  }

  predicate FieldsOnLines(fields: map<Text, Text>) {
    forall f :: f in fields ==> OnOneLine(fields[f])
  }

  predicate EntriesOnLines(entries: Entries) {
    forall key :: key in entries ==> OnOneLine(key) && FieldsOnLines(entries[key])
  }

  predicate LevelsOnLines(stack: seq<Level>) {
    forall i :: 0 <= i < |stack| ==> OnOneLine(stack[i].key)
  }

  lemma {:induction false} PutOnLines(entries: Entries, key: Text, field: Text, value: Text)
    requires EntriesOnLines(entries) && OnOneLine(key) && OnOneLine(value)
    ensures EntriesOnLines(Put(entries, key, field, value))
  {
    hide OnOneLine;
  }

  lemma {:induction false} KeyOnOneLine(scope: Text, name: Text)
    ensures OnOneLine(ErrorKey(scope, name)) <==> OnOneLine(scope) && OnOneLine(name)
  {
    DotsOnOneLine();
    hide OnOneLine, Lit;
    ConcatOnOneLine(Lit("errors.") + scope + Lit("."), name);
    ConcatOnOneLine(Lit("errors.") + scope, Lit("."));
    ConcatOnOneLine(Lit("errors."), scope);
  }

  lemma DotsOnOneLine()
    ensures OnOneLine(Lit("errors.")) && OnOneLine(Lit("."))
  {
  }

  lemma {:induction false} NextOnLines(p: Strict.Progress, n: nat, line: Line)
    requires LevelsOnLines(p.stack) && EntriesOnLines(p.entries) && LineOnOneLine(line)
    ensures var q := Strict.Next(p, n, line); LevelsOnLines(q.stack) && EntriesOnLines(q.entries)
  {
    hide OnOneLine, Quoting.Unquote, Put, ErrorKey, EntriesOnLines, Strict.RequiredFields, IsFieldPath;
    if line.Mapping? {
      var stack := Pop(p.stack, line.indent);
      assert forall i :: 0 <= i < |stack| ==> stack[i] == p.stack[i];
      var path := Keys(stack) + [line.key];
      assert forall i :: 0 <= i < |path| ==> OnOneLine(path[i]);
      UnquoteParts(line.value);
      PartOnOneLine(line.value, Quoting.Unquote(line.value));
      if IsFieldPath(path) {
        Strict.FieldPathParts(path);
        KeyOnOneLine(path[1], path[2]);
        PutOnLines(p.entries, ErrorKey(path[1], path[2]), path[3], Quoting.Unquote(line.value));
      }
    }
  }

  lemma {:induction false} FollowOnLines(p: Strict.Progress, n: nat, lines: seq<Line>)
    requires LevelsOnLines(p.stack) && EntriesOnLines(p.entries)
    requires forall i :: 0 <= i < |lines| ==> LineOnOneLine(lines[i])
    ensures EntriesOnLines(Strict.Follow(p, n, lines).entries)
    decreases |lines|
  {
    hide LevelsOnLines, EntriesOnLines, LineOnOneLine, Strict.Next;
    if lines != [] {
      NextOnLines(p, n, lines[0]);
      FollowOnLines(Strict.Next(p, n, lines[0]), n + 1, lines[1..]);
    }
  }

  /** No key and no text that is read from a file holds a line break. */
  lemma {:induction false} ReadHasNoBreaks(text: Text)
    ensures EntriesOnLines(Strict.Follow(Strict.START, 1, Strict.FileLines(text)).entries)
  {
    hide OnOneLine, LineOnOneLine, ReadLine, Strict.Follow;
    var raw, lines := SplitLines(text), Strict.FileLines(text);
    forall i | 0 <= i < |lines| ensures LineOnOneLine(lines[i]) {
      ReadOnOneLine(raw[i]);
    }
    FollowOnLines(Strict.START, 1, lines);
  }

  // ----- what can come back

  predicate PairOnLines(pair: (Text, Message)) {
    OnOneLine(pair.0) && OnOneLine(pair.1.title) && OnOneLine(pair.1.detail) && OnOneLine(pair.1.remediation)
  }

  lemma {:induction false} FieldsOfMessage(m: Message)
    ensures FieldsOnLines(Fields(m)) <==> OnOneLine(m.title) && OnOneLine(m.detail) && OnOneLine(m.remediation)
  {
    FieldsDiffer();
    hide Lit, OnOneLine;
    var fields := Fields(m);
    assert fields[Lit("title")] == m.title && fields[Lit("detail")] == m.detail
           && fields[Lit("remediation")] == m.remediation;
  }

  /** A message with a line break in its joined key or in a text comes back from no file whatsoever. */
  lemma {:induction false} BrokenNeverComesBack(text: Text, pair: (Text, Message))
    requires !PairOnLines(pair)
    ensures !ComesBack(Strict.Follow(Strict.START, 1, Strict.FileLines(text)).entries, pair)
  {
    ReadHasNoBreaks(text);
    FieldsOfMessage(pair.1);
    hide OnOneLine, Strict.Follow, Strict.FileLines, Fields, FieldsOnLines;
  }

  predicate PairsOnLines(pairs: seq<(Text, Message)>) {
    forall i :: 0 <= i < |pairs| ==> PairOnLines(pairs[i])
  }

  lemma {:induction false} MessagePairsOnLines(scope: Text, ms: seq<Message>)
    requires ms != []
    ensures PairsOnLines(MessagePairs(scope, ms)) <==>
            OnOneLine(scope) && forall i :: 0 <= i < |ms| ==> MessageOnLines(ms[i])
  {
    MessageKeys(scope, ms);
    hide OnOneLine, ErrorKey, MessagePairs;
    forall i | 0 <= i < |ms|
      ensures PairOnLines(MessagePairs(scope, ms)[i]) <==> OnOneLine(scope) && MessageOnLines(ms[i]) {
      KeyOnOneLine(scope, ms[i].name);
    }
    if PairsOnLines(MessagePairs(scope, ms)) {
      assert PairOnLines(MessagePairs(scope, ms)[0]);
    }
  }

  lemma {:induction false} PairsConcat(a: seq<(Text, Message)>, b: seq<(Text, Message)>)
    ensures PairsOnLines(a + b) <==> PairsOnLines(a) && PairsOnLines(b)
  {
    hide PairOnLines;
    var all := a + b;
    assert forall i :: 0 <= i < |a| ==> all[i] == a[i];
    assert forall i :: 0 <= i < |b| ==> all[|a| + i] == b[i];
  }

  predicate NoEmptyScope(d: seq<Scope>) {
    forall i :: 0 <= i < |d| ==> d[i].messages != []
  }

  /** Where every scope has a message, the line breaks are those of the joined keys and the texts. */
  lemma {:induction false} AllPairsOnLines(d: seq<Scope>)
    requires NoEmptyScope(d)
    ensures PairsOnLines(Pairs(d)) <==> NoLineBreaks(d)
  {
    hide OnOneLine, MessagePairs, PairOnLines, MessageOnLines;
    if d != [] {
      MessagePairsOnLines(d[0].name, d[0].messages);
      AllPairsOnLines(d[1..]);
      PairsConcat(MessagePairs(d[0].name, d[0].messages), Pairs(d[1..]));
      assert forall i :: 0 <= i < |d| - 1 ==> d[1..][i] == d[i + 1];
      assert NoLineBreaks(d) <==> ScopeOnLines(d[0]) && NoLineBreaks(d[1..]);
    }
  }

  /**
   Of a dictionary written to a file, with a message in every scope and no blank text, every message comes back exactly
   when no key and no text holds a line break and no two messages with one joined key say different things.
   */
  lemma {:induction false} ComesBackExactly(d: seq<Scope>)
    requires ValidDictionary(d) && d != [] && NoEmptyScope(d) && AllNonBlank(Pairs(d))
    ensures var entries := Strict.Follow(Strict.START, 1, Strict.FileLines(FileText(d))).entries;
            (forall i :: 0 <= i < |Pairs(d)| ==> ComesBack(entries, Pairs(d)[i])) <==>
            NoLineBreaks(d) && NoConflict(Pairs(d))
  {
    AllPairsOnLines(d);
    SomePair(d);
    hide ValidDictionary, Pairs, AllNonBlank, Strict.Follow, FileText, Strict.FileLines, NoLineBreaks, NoConflict,
         PairOnLines, ComesBack;
    if NoLineBreaks(d) {
      WrittenComesBack(d);
    } else {
      var i :| 0 <= i < |Pairs(d)| && !PairOnLines(Pairs(d)[i]);
      BrokenNeverComesBack(FileText(d), Pairs(d)[i]);
    }
  }

  lemma {:induction false} SomePair(d: seq<Scope>)
    requires d != [] && NoEmptyScope(d)
    ensures Pairs(d) != []
  {
    MessageKeys(d[0].name, d[0].messages);
  }
}
