/** Writing an error dictionary in the format that the parsers read, and what comes back from it. */
module DictionaryWriter {
  import opened Runes
  import opened DictionaryLines
  import opened Quoting
  import Strict = ErrorDictionary
  import opened TextLines

  datatype Message = Message(name: Text, title: Text, detail: Text, remediation: Text)

  datatype Scope = Scope(name: Text, messages: seq<Message>)

  function Spaces(n: nat): (t: Text)
    ensures |t| == n && forall i :: 0 <= i < n ==> t[i] == SPACE
  {
    seq(n, _ => SPACE)
  }

  function KeyText(indent: nat, key: Text): Text {
    Spaces(indent) + (key + [COLON])
  }

  function FieldText(field: Text, value: Text): Text {
    Spaces(6) + (field + [COLON] + ([SPACE] + Quote(value, DOUBLE)))
  }

  /** What can stand in front of the colon of a line and be read back. */
  predicate ValidKey(key: Text) {
    key != [] && Strip(key) == key && COLON !in key && key[0] != HASH
  }

  // ----- one line

  lemma {:induction false} IndentOf(n: nat, rest: Text)
    requires rest != [] && rest[0] != SPACE
    ensures Indent(Spaces(n) + rest) == n
  {
    if n == 0 {
      assert Spaces(0) + rest == rest;
    } else {
      assert (Spaces(n) + rest)[1..] == Spaces(n - 1) + rest;
      IndentOf(n - 1, rest);
    }
  }

  lemma {:induction false} StripSpaces(n: nat, rest: Text)
    ensures Strip(Spaces(n) + rest) == Strip(rest)
  {
    if n == 0 {
      assert Spaces(0) + rest == rest;
    } else {
      assert (Spaces(n) + rest)[1..] == Spaces(n - 1) + rest;
      StripSpaces(n - 1, rest);
    }
  }

  lemma {:induction false} StripSolid(t: Text)
    requires t != [] && !IsSpace(t[0]) && !IsSpace(t[|t| - 1])
    ensures Strip(t) == t
  {
    hide IsSpace;
  }

  lemma {:induction false} KeyParts(key: Text)
    requires ValidKey(key)
    ensures key != [] && Strip(key) == key && COLON !in key && key[0] != HASH && key[0] != SPACE && !IsSpace(key[0])
  {
    SpaceIsBlank();
    hide LStrip, RStrip, IsSpace;
  }

  lemma {:induction false} ColonBehind(key: Text, rest: Text)
    requires COLON !in key
    ensures ColonAt(key + [COLON] + rest) == |key|
  {
    if key == [] {
      assert [] + [COLON] + rest == [COLON] + rest;
    } else {
      assert (key + [COLON] + rest)[1..] == key[1..] + [COLON] + rest;
      ColonBehind(key[1..], rest);
    }
  }

  /** A key and what follows its colon, indented, is read as such when it does not end in a blank. */
  lemma {:induction false} ReadMapping(indent: nat, key: Text, rest: Text)
    requires ValidKey(key) && !IsSpace((key + [COLON] + rest)[|key + rest|])
    ensures ReadLine(Spaces(indent) + (key + [COLON] + rest)) == Mapping(indent, key, Strip(rest))
  {
    hide ValidKey, Strip, IsSpace, Indent, ColonAt;
    var stripped := key + [COLON] + rest;
    KeyParts(key);
    assert stripped[0] == key[0];
    StripSpaces(indent, stripped);
    StripSolid(stripped);
    IndentOf(indent, stripped);
    ColonBehind(key, rest);
    assert stripped[..|key|] == key && stripped[|key| + 1..] == rest;
  }

  lemma SpaceIsBlank()
    ensures IsSpace(SPACE) && !IsSpace(COLON) && !IsSpace(DOUBLE)
  {
  }

  lemma {:induction false} ReadKeyText(indent: nat, key: Text)
    requires ValidKey(key)
    ensures ReadLine(KeyText(indent, key)) == Mapping(indent, key, [])
  {
    SpaceIsBlank();
    hide IsSpace, ValidKey;
    assert key + [COLON] + [] == key + [COLON];
    ReadMapping(indent, key, []);
  }

  lemma {:induction false} ReadFieldText(field: Text, value: Text)
    requires ValidKey(field)
    ensures ReadLine(FieldText(field, value)) == Mapping(6, field, Quote(value, DOUBLE))
  {
    SpaceIsBlank();
    hide IsSpace, ValidKey, Escape, ReadLine, Strip;
    var quoted := Quote(value, DOUBLE);
    assert quoted != [] && quoted[0] == DOUBLE && quoted[|quoted| - 1] == DOUBLE;
    StripSolid(quoted);
    hide Quote;
    var rest := [SPACE] + quoted;
    assert (field + [COLON] + rest)[|field + rest|] == DOUBLE;
    ReadMapping(6, field, rest);
    assert Spaces(1) + quoted == rest;
    StripSpaces(1, quoted);
  }

  // ----- a whole dictionary

  function Errors(): Text {
    Lit("errors")
  }

  function MessageText(m: Message): seq<Text> {
    [KeyText(4, m.name), FieldText(Lit("title"), m.title), FieldText(Lit("detail"), m.detail),
     FieldText(Lit("remediation"), m.remediation)]
  }

  function MessagesText(ms: seq<Message>): seq<Text> {
    if ms == [] then [] else MessageText(ms[0]) + MessagesText(ms[1..])
  }

  function ScopesText(d: seq<Scope>): seq<Text> {
    if d == [] then [] else [KeyText(2, d[0].name)] + MessagesText(d[0].messages) + ScopesText(d[1..])
  }

  function DictionaryText(d: seq<Scope>): seq<Text> {
    [KeyText(0, Errors())] + ScopesText(d)
  }

  /** The file. */
  function FileText(d: seq<Scope>): Text {
    JoinLines(DictionaryText(d))
  }

  function MessageLines(m: Message): seq<Line> {
    [Mapping(4, m.name, []), Mapping(6, Lit("title"), Quote(m.title, DOUBLE)),
     Mapping(6, Lit("detail"), Quote(m.detail, DOUBLE)), Mapping(6, Lit("remediation"), Quote(m.remediation, DOUBLE))]
  }

  function MessagesLines(ms: seq<Message>): seq<Line> {
    if ms == [] then [] else MessageLines(ms[0]) + MessagesLines(ms[1..])
  }

  function ScopesLines(d: seq<Scope>): seq<Line> {
    if d == [] then [] else [Mapping(2, d[0].name, [])] + MessagesLines(d[0].messages) + ScopesLines(d[1..])
  }

  predicate ValidMessages(ms: seq<Message>) {
    forall i :: 0 <= i < |ms| ==> ValidKey(ms[i].name)
  }

  predicate DistinctMessages(ms: seq<Message>) {
    forall i, j :: 0 <= i < j < |ms| ==> ms[i].name != ms[j].name
  }

  /** Keys that can be read back, no scope twice, and no message twice in a scope. */
  predicate ValidDictionary(d: seq<Scope>) {
    && (forall i :: 0 <= i < |d| ==>
          ValidKey(d[i].name) && ValidMessages(d[i].messages) && DistinctMessages(d[i].messages))
    && forall i, j :: 0 <= i < j < |d| ==> d[i].name != d[j].name
  }

  lemma {:induction false} ReadLinesConcat(a: seq<Text>, b: seq<Text>)
    ensures Strict.ReadLines(a + b) == Strict.ReadLines(a) + Strict.ReadLines(b)
  {
    hide ReadLine;
    var both := Strict.ReadLines(a) + Strict.ReadLines(b);
    assert forall i :: 0 <= i < |a + b| ==> (a + b)[i] == if i < |a| then a[i] else b[i - |a|];
  }

  lemma {:induction false} FieldNamesValid()
    ensures ValidKey(Lit("title")) && ValidKey(Lit("detail")) && ValidKey(Lit("remediation")) && ValidKey(Errors())
  {
    hide ValidKey;
    WordIsKey("title");
    WordIsKey("detail");
    WordIsKey("remediation");
    WordIsKey("errors");
  }

  lemma {:induction false} WordIsKey(word: string)
    requires word != "" && forall i :: 0 <= i < |word| ==> 'a' <= word[i] <= 'z' || word[i] == '.'
    ensures ValidKey(Lit(word))
  {
    assert !IsSpace(Lit(word)[0]) && !IsSpace(Lit(word)[|word| - 1]);
    StripSolid(Lit(word));
    hide Strip;
  }

  lemma {:induction false} ReadMessageText(m: Message)
    requires ValidKey(m.name)
    ensures Strict.ReadLines(MessageText(m)) == MessageLines(m)
  {
    FieldNamesValid();
    hide ValidKey, KeyText, FieldText, ReadLine, Quote, Lit;
    ReadKeyText(4, m.name);
    ReadFieldText(Lit("title"), m.title);
    ReadFieldText(Lit("detail"), m.detail);
    ReadFieldText(Lit("remediation"), m.remediation);
    var lines := Strict.ReadLines(MessageText(m));
    assert lines[0] == MessageLines(m)[0] && lines[1] == MessageLines(m)[1];
    assert lines[2] == MessageLines(m)[2] && lines[3] == MessageLines(m)[3];
  }

  lemma {:induction false} ReadMessagesText(ms: seq<Message>)
    requires ValidMessages(ms)
    ensures Strict.ReadLines(MessagesText(ms)) == MessagesLines(ms)
  {
    hide ValidKey, MessageText, MessageLines, ReadLine;
    if ms != [] {
      ReadMessageText(ms[0]);
      ReadMessagesText(ms[1..]);
      ReadLinesConcat(MessageText(ms[0]), MessagesText(ms[1..]));
    }
  }

  lemma {:induction false} ReadScopesText(d: seq<Scope>)
    requires ValidDictionary(d)
    ensures Strict.ReadLines(ScopesText(d)) == ScopesLines(d)
  {
    hide ValidKey, ValidMessages, MessagesText, MessagesLines, ReadLine, KeyText, DistinctMessages;
    if d != [] {
      var head, messages, rest := [KeyText(2, d[0].name)], MessagesText(d[0].messages), ScopesText(d[1..]);
      ReadKeyText(2, d[0].name);
      assert Strict.ReadLines(head) == [Mapping(2, d[0].name, [])];
      ReadMessagesText(d[0].messages);
      ReadScopesText(d[1..]);
      ReadLinesConcat(head + messages, rest);
      ReadLinesConcat(head, messages);
    }
  }

  lemma {:induction false} ReadDictionaryText(d: seq<Scope>)
    requires ValidDictionary(d)
    ensures Strict.ReadLines(DictionaryText(d)) == [Mapping(0, Errors(), [])] + ScopesLines(d)
  {
    FieldNamesValid();
    hide ValidKey, ReadLine, KeyText, Lit;
    ReadKeyText(0, Errors());
    var head := [KeyText(0, Errors())];
    assert Strict.ReadLines(head) == [Mapping(0, Errors(), [])];
    ReadScopesText(d);
    ReadLinesConcat(head, ScopesText(d));
  }

  // ----- line breaks

  predicate MessageOnLines(m: Message) {
    OnOneLine(m.name) && OnOneLine(m.title) && OnOneLine(m.detail) && OnOneLine(m.remediation)
  }

  predicate ScopeOnLines(s: Scope) {
    OnOneLine(s.name) && forall i :: 0 <= i < |s.messages| ==> MessageOnLines(s.messages[i])
  }

  /** No key and no text holds a line break. */
  predicate NoLineBreaks(d: seq<Scope>) {
    forall i :: 0 <= i < |d| ==> ScopeOnLines(d[i])
  }

  lemma {:induction false} EscapeOnOneLine(v: Text)
    requires OnOneLine(v)
    ensures OnOneLine(Escape(v))
  {
    EscapeParts(v);
    PartOnOneLine(v, Escape(v));
  }

  lemma {:induction false} EscapeParts(v: Text)
    ensures forall c :: c in Escape(v) ==> c in v
  {
    if v != [] {
      EscapeParts(v[1..]);
    }
  }

  lemma Harmless(n: nat)
    ensures OnOneLine(Spaces(n)) && OnOneLine([SPACE]) && OnOneLine([COLON]) && OnOneLine([DOUBLE])
  {
  }

  lemma {:induction false} KeyTextOnOneLine(n: nat, key: Text)
    requires OnOneLine(key)
    ensures OnOneLine(KeyText(n, key))
  {
    Harmless(n);
    hide OnOneLine;
    ConcatOnOneLine(key, [COLON]);
    ConcatOnOneLine(Spaces(n), key + [COLON]);
  }

  lemma {:induction false} FieldTextOnOneLine(field: Text, value: Text)
    requires OnOneLine(field) && OnOneLine(value)
    ensures OnOneLine(FieldText(field, value))
  {
    Harmless(6);
    EscapeOnOneLine(value);
    hide OnOneLine, Escape;
    ConcatOnOneLine([DOUBLE], Escape(value));
    ConcatOnOneLine([DOUBLE] + Escape(value), [DOUBLE]);
    ConcatOnOneLine([SPACE], Quote(value, DOUBLE));
    ConcatOnOneLine(field, [COLON]);
    ConcatOnOneLine(field + [COLON], [SPACE] + Quote(value, DOUBLE));
    ConcatOnOneLine(Spaces(6), field + [COLON] + ([SPACE] + Quote(value, DOUBLE)));
  }

  predicate AllOnOneLine(lines: seq<Text>) {
    forall i :: 0 <= i < |lines| ==> OnOneLine(lines[i])
  }

  lemma {:induction false} FieldNamesOnOneLine()
    ensures OnOneLine(Lit("title")) && OnOneLine(Lit("detail")) && OnOneLine(Lit("remediation")) && OnOneLine(Errors())
  {
  }

  lemma {:induction false} MessageTextOnLines(m: Message)
    requires MessageOnLines(m)
    ensures AllOnOneLine(MessageText(m))
  {
    FieldNamesOnOneLine();
    hide OnOneLine, Lit, KeyText, FieldText;
    KeyTextOnOneLine(4, m.name);
    FieldTextOnOneLine(Lit("title"), m.title);
    FieldTextOnOneLine(Lit("detail"), m.detail);
    FieldTextOnOneLine(Lit("remediation"), m.remediation);
  }

  lemma {:induction false} MessagesTextOnLines(ms: seq<Message>)
    requires forall i :: 0 <= i < |ms| ==> MessageOnLines(ms[i])
    ensures AllOnOneLine(MessagesText(ms))
  {
    hide OnOneLine, MessageText, MessageOnLines;
    if ms != [] {
      MessageTextOnLines(ms[0]);
      MessagesTextOnLines(ms[1..]);
    }
  }

  lemma {:induction false} ScopesTextOnLines(d: seq<Scope>)
    requires NoLineBreaks(d)
    ensures AllOnOneLine(ScopesText(d))
  {
    hide OnOneLine, MessagesText, MessageOnLines, KeyText;
    if d != [] {
      assert ScopeOnLines(d[0]);
      KeyTextOnOneLine(2, d[0].name);
      MessagesTextOnLines(d[0].messages);
      ScopesTextOnLines(d[1..]);
    }
  }

  /** A file without line breaks in its keys and texts is read line by line as it was written. */
  lemma {:induction false} ReadFileText(d: seq<Scope>)
    requires ValidDictionary(d) && NoLineBreaks(d)
    ensures Strict.FileLines(FileText(d)) == [Mapping(0, Errors(), [])] + ScopesLines(d)
  {
    FieldNamesOnOneLine();
    KeyTextOnOneLine(0, Errors());
    ScopesTextOnLines(d);
    hide OnOneLine, ScopesText, KeyText, ScopesLines, Errors;
    SplitInvertsJoin(DictionaryText(d));
    ReadDictionaryText(d);
  }
}
