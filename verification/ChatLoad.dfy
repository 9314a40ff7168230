/** Reading a server-sent event stream that arrives in chunks, and the metrics of the events. */
module ChatLoad {
  import opened Wrappers
  import opened Runes
  import opened Utf8
  import opened Utf8Replace
  import Json

  const NEWLINE: Rune := 0x0A

  datatype Chunk = Str(text: Text) | Raw(bytes: Bytes)

  function TextOf(c: Chunk): Text {
    match c
    case Str(text) => text
    case Raw(bytes) => DecodeReplace(bytes)
  }

  /** The text of a whole stream. */
  function Joined(chunks: seq<Chunk>): Text {
    if chunks == [] then [] else TextOf(chunks[0]) + Joined(chunks[1..])
  }

  // ----- the lines of a text

  /** The position of the first newline, or the length of the text. */
  function LineEnd(t: Text): (n: nat)
    ensures n <= |t|
    ensures n < |t| ==> t[n] == NEWLINE
    ensures forall i :: 0 <= i < n ==> t[i] != NEWLINE
  {
    if t == [] || t[0] == NEWLINE then 0 else 1 + LineEnd(t[1..])
  }

  /** `t.split("\n")`. */
  function Lines(t: Text): (lines: seq<Text>)
    ensures lines != []
  {
    var n := LineEnd(t);
    if n == |t| then [t] else [t[..n]] + Lines(t[n + 1..])
  }

  /** The payload of a line: what follows `data:`, without surrounding blanks, unless that is empty. */
  function DataOf(line: Text): Option<Text> {
    var stripped := Strip(line);
    if Lit("data:") <= stripped then
      var data := Strip(stripped[5..]);
      if data != [] then Some(data) else None
    else None
  }

  lemma {:induction false} NotBlankAtTheEnds(t: Text)
    requires t != [] && Strip(t) == t
    ensures !IsSpace(t[0]) && !IsSpace(t[|t| - 1])
  {
    hide LStrip, RStrip, IsSpace;
  }

  lemma {:induction false} StripSolid(t: Text)
    requires t != [] && !IsSpace(t[0]) && !IsSpace(t[|t| - 1])
    ensures Strip(t) == t
  {
    hide IsSpace;
  }

  function Payloads(lines: seq<Text>): seq<Text> {
    if lines == [] then []
    else (if DataOf(lines[0]).Some? then [DataOf(lines[0]).value] else []) + Payloads(lines[1..])
  }

  /** The payloads of a text that is there at once. */
  function DataLines(t: Text): seq<Text> {
    Payloads(Lines(t))
  }

  /** Cutting the first line off. */
  lemma {:induction false} FirstLine(t: Text)
    requires LineEnd(t) < |t|
    ensures DataLines(t) == Payloads([t[..LineEnd(t)]]) + DataLines(t[LineEnd(t) + 1..])
  {
    hide DataOf, LineEnd, Payloads, Lines;
    var n := LineEnd(t);
    LinesFirst(t);
    PayloadsFirst(t[..n], Lines(t[n + 1..]));
  }

  lemma {:induction false} LinesFirst(t: Text)
    requires LineEnd(t) < |t|
    ensures Lines(t) == [t[..LineEnd(t)]] + Lines(t[LineEnd(t) + 1..])
  {
    hide LineEnd;
  }

  lemma {:induction false} PayloadsFirst(line: Text, rest: seq<Text>)
    ensures Payloads([line] + rest) == Payloads([line]) + Payloads(rest)
  {
    hide DataOf;
    assert ([line] + rest)[1..] == rest;
  }

  lemma {:induction false} LineEndConcat(a: Text, b: Text)
    requires LineEnd(a) < |a|
    ensures LineEnd(a + b) == LineEnd(a)
  {
    var n := LineEnd(a);
    assert (a + b)[n] == NEWLINE;
    assert forall i :: 0 <= i < n ==> (a + b)[i] == a[i];
  }

  /** A finished line is a line of every text that goes on from there. */
  lemma {:induction false} LineFinished(buffer: Text, later: Text)
    requires LineEnd(buffer) < |buffer|
    ensures DataLines(buffer + later)
            == Payloads([buffer[..LineEnd(buffer)]]) + DataLines(buffer[LineEnd(buffer) + 1..] + later)
  {
    hide DataLines, Payloads, LineEnd;
    var n := LineEnd(buffer);
    LineEndConcat(buffer, later);
    FirstLine(buffer + later);
    assert (buffer + later)[..n] == buffer[..n];
    assert (buffer + later)[n + 1..] == buffer[n + 1..] + later;
  }

  /** The inner loop: takes every finished line off the buffer. */
  method TakeLines(text: Text, ghost later: Text) returns (data: seq<Text>, buffer: Text)
    ensures LineEnd(buffer) == |buffer|
    ensures data + DataLines(buffer + later) == DataLines(text + later)
  {
    hide DataLines, DataOf;
    data, buffer := [], text;
    while LineEnd(buffer) < |buffer|
      invariant data + DataLines(buffer + later) == DataLines(text + later)
      decreases |buffer|
    {
      LineFinished(buffer, later);
      var n := LineEnd(buffer);
      var found := DataOf(buffer[..n]);
      assert Payloads([buffer[..n]]) == if found.Some? then [found.value] else [];
      if found.Some? {
        data := data + [found.value];
      }
      buffer := buffer[n + 1..];
    }
  }

  lemma {:induction false} NextChunk(chunks: seq<Chunk>, i: nat)
    requires i < |chunks|
    ensures Joined(chunks[i..]) == TextOf(chunks[i]) + Joined(chunks[i + 1..])
  {
    hide TextOf;
    assert chunks[i..][1..] == chunks[i + 1..];
  }

  lemma {:induction false} LastLine(buffer: Text)
    requires LineEnd(buffer) == |buffer|
    ensures DataLines(buffer + Joined([])) == if DataOf(buffer).Some? then [DataOf(buffer).value] else []
  {
    hide DataOf, LineEnd, Lines, Payloads;
    assert buffer + Joined([]) == buffer;
    LinesWhole(buffer);
    PayloadsOne(buffer);
  }

  lemma {:induction false} LinesWhole(t: Text)
    requires LineEnd(t) == |t|
    ensures Lines(t) == [t]
  {
    hide LineEnd;
  }

  lemma {:induction false} PayloadsOne(line: Text)
    ensures Payloads([line]) == if DataOf(line).Some? then [DataOf(line).value] else []
  {
    hide DataOf;
    assert [line][1..] == [];
  }

  /** `iter_sse_data_lines`: however a stream is cut into chunks, the payloads are those of its text as a whole. */
  method IterSseDataLines(chunks: seq<Chunk>) returns (data: seq<Text>)
    ensures data == DataLines(Joined(chunks))
  {
    hide DataLines, DataOf, Joined, TextOf, LineEnd;
    var buffer: Text := [];
    data := [];
    assert [] + Joined(chunks) == Joined(chunks);
    NoLine();
    for i := 0 to |chunks|
      invariant data + DataLines(buffer + Joined(chunks[i..])) == DataLines(Joined(chunks))
      invariant LineEnd(buffer) == |buffer|
    {
      NextChunk(chunks, i);
      assert buffer + Joined(chunks[i..]) == (buffer + TextOf(chunks[i])) + Joined(chunks[i + 1..]);
      var more, rest := TakeLines(buffer + TextOf(chunks[i]), Joined(chunks[i + 1..]));
      data, buffer := data + more, rest;
    }
    assert chunks[|chunks|..] == [];
    LastLine(buffer);
    var trailing := DataOf(buffer);
    if trailing.Some? {
      data := data + [trailing.value];
    }
  }

  lemma {:induction false} NoLine()
    ensures LineEnd([]) == 0
  {
  }

  // ----- byte chunks

  function Flatten(parts: seq<Bytes>): Bytes {
    if parts == [] then [] else parts[0] + Flatten(parts[1..])
  }

  function AsChunks(parts: seq<Bytes>): (chunks: seq<Chunk>)
    ensures |chunks| == |parts| && forall i :: 0 <= i < |parts| ==> chunks[i] == Raw(parts[i])
  {
    seq(|parts|, i requires 0 <= i < |parts| => Raw(parts[i]))
  }

  lemma {:induction false} JoinedParts(parts: seq<Bytes>)
    requires parts != []
    ensures Joined(AsChunks(parts)) == DecodeReplace(parts[0]) + Joined(AsChunks(parts[1..]))
  {
    assert AsChunks(parts)[1..] == AsChunks(parts[1..]);
  }

  lemma {:induction false} WholePartsKeepText(parts: seq<Bytes>)
    requires forall i :: 0 <= i < |parts| ==> Decode(parts[i]).Some?
    ensures Decode(Flatten(parts)) == Some(Joined(AsChunks(parts)))
  {
    hide Decode, DecodeReplace;
    if parts == [] {
      EmptyDecodes();
    } else {
      WholePartsKeepText(parts[1..]);
      DecodeConcat(parts[0], Flatten(parts[1..]));
      NothingReplaced(parts[0]);
      JoinedParts(parts);
    }
  }

  lemma {:induction false} EmptyDecodes()
    ensures Decode([]) == Some([])
  {
  }

  /** Every start is decoded, and a continuation byte in front adds a character. */
  lemma {:induction false} PartsStarts(parts: seq<Bytes>)
    ensures |Joined(AsChunks(parts))| >= Starts(Flatten(parts)) + if IsTail(Flatten(parts), 0) then 1 else 0
  {
    hide DecodeReplace, Starts;
    if parts == [] {
      NoStarts();
    } else {
      JoinedParts(parts);
      PartsStarts(parts[1..]);
      ReplacedStarts(parts[0]);
      StartsConcat(parts[0], Flatten(parts[1..]));
    }
  }

  lemma {:induction false} NoStarts()
    ensures Starts([]) == 0
  {
  }

  lemma {:induction false} CutGrows(parts: seq<Bytes>)
    requires Decode(Flatten(parts)).Some?
    requires exists i :: 0 <= i < |parts| && Decode(parts[i]).None?
    ensures |Joined(AsChunks(parts))| > Starts(Flatten(parts))
  {
    hide Decode, DecodeReplace, Starts, DecodeFirst;
    var rest := Flatten(parts[1..]);
    JoinedParts(parts);
    StartsConcat(parts[0], rest);
    if Decode(parts[0]).Some? {
      DecodeConcat(parts[0], rest);
      NothingReplaced(parts[0]);
      DecodedStarts(parts[0]);
      var i :| 0 <= i < |parts| && Decode(parts[i]).None?;
      assert Decode(parts[1..][i - 1]).None?;
      CutGrows(parts[1..]);
    } else {
      CutInside(parts[0], rest);
      ReplacedStarts(parts[0]);
      PartsStarts(parts[1..]);
    }
  }

  /** A well-formed stream keeps its text exactly when no chunk ends inside a character. */
  lemma {:induction false} CutsKeepText(parts: seq<Bytes>)
    requires Decode(Flatten(parts)).Some?
    ensures Joined(AsChunks(parts)) == Decode(Flatten(parts)).value <==>
            forall i :: 0 <= i < |parts| ==> Decode(parts[i]).Some?
  {
    if forall i :: 0 <= i < |parts| ==> Decode(parts[i]).Some? {
      WholePartsKeepText(parts);
    } else {
      CutGrows(parts);
      DecodedStarts(Flatten(parts));
    }
  }

  /** The two bytes of one character, sent in two chunks: the stream is well formed and its text changes. */
  lemma {:induction false} CutChangesText()
    ensures var parts: seq<Bytes> := [[0xC3], [0xA9]];
            && Decode(Flatten(parts)) == Some([0xE9])
            && Joined(AsChunks(parts)) != [0xE9]
  {
    var parts: seq<Bytes> := [[0xC3], [0xA9]];
    assert parts[1..] == [[0xA9]] && parts[1..][1..] == [];
    assert Flatten(parts[1..]) == [0xA9];
    assert Flatten(parts) == [0xC3, 0xA9];
    assert Encode([]) == Some([]);
    assert EncodeRune(0xE9) == [0xC3, 0xA9] && [0xC3, 0xA9] + [] == [0xC3, 0xA9];
    DecodeRune(0xE9, []);
    EmptyDecodes();
    assert [0xE9] + [] == [0xE9];
    assert Decode(parts[0]).None?;
    CutsKeepText(parts);
  }

  // ----- a stream that carries given payloads

  /** An event: its payload on a `data:` line, and the empty line behind it. */
  function Emit(payload: Text): Text {
    Lit("data: ") + payload + [NEWLINE, NEWLINE]
  }

  function EmitAll(payloads: seq<Text>): Text {
    if payloads == [] then [] else Emit(payloads[0]) + EmitAll(payloads[1..])
  }

  /** What can be sent as one line: not empty, no blanks around it and no newline in it. */
  predicate Sendable(payload: Text) {
    payload != [] && Strip(payload) == payload && NEWLINE !in payload
  }

  lemma {:induction false} EmittedIsSolid(payload: Text)
    requires Sendable(payload)
    ensures Strip(Lit("data: ") + payload) == Lit("data: ") + payload
  {
    var line := Lit("data: ") + payload;
    NotBlankAtTheEnds(payload);
    assert line[0] == 'd' as int && line[|line| - 1] == payload[|payload| - 1];
    hide Strip;
    StripSolid(line);
  }

  lemma {:induction false} DataOfEmitted(payload: Text)
    requires Sendable(payload)
    ensures DataOf(Lit("data: ") + payload) == Some(payload)
  {
    hide Strip;
    EmittedIsSolid(payload);
    StripBlank(payload);
    var line := Lit("data: ") + payload;
    assert line[..5] == Lit("data:");
    assert line[5..] == [0x20] + payload;
  }

  lemma {:induction false} StripBlank(t: Text)
    ensures Strip([0x20] + t) == Strip(t)
  {
    assert ([0x20] + t)[1..] == t;
  }

  lemma {:induction false} EmittedLine(payload: Text, later: Text)
    requires Sendable(payload)
    ensures DataLines(Emit(payload) + later) == [payload] + DataLines(later)
  {
    hide Sendable, DataOf, DataLines, Lit;
    var line := Lit("data: ") + payload;
    NoNewline(payload);
    DataOfEmitted(payload);
    assert Emit(payload) + later == (line + [NEWLINE]) + ([NEWLINE] + later);
    OneLine(line, [NEWLINE] + later);
    EmptyLine(later);
  }

  lemma {:induction false} NoNewline(payload: Text)
    requires Sendable(payload)
    ensures NEWLINE !in Lit("data: ") + payload
  {
    hide Strip;
  }

  lemma {:induction false} EmptyLine(later: Text)
    ensures DataLines([NEWLINE] + later) == DataLines(later)
  {
    hide DataOf, DataLines;
    assert [NEWLINE] + later == ([] + [NEWLINE]) + later;
    OneLine([], later);
    NoPayload();
  }

  lemma {:induction false} OneLine(line: Text, later: Text)
    requires NEWLINE !in line
    ensures DataLines((line + [NEWLINE]) + later)
            == (if DataOf(line).Some? then [DataOf(line).value] else []) + DataLines(later)
  {
    hide DataOf, DataLines, LineEnd;
    var first := line + [NEWLINE];
    FirstNewline(line);
    LineFinished(first, later);
    assert first[..|line|] == line && first[|line| + 1..] + later == later;
    hide Payloads;
    PayloadsOne(line);
  }

  lemma {:induction false} FirstNewline(line: Text)
    requires NEWLINE !in line
    ensures LineEnd(line + [NEWLINE]) == |line|
  {
    if line != [] {
      FirstNewline(line[1..]);
      assert (line + [NEWLINE])[1..] == line[1..] + [NEWLINE];
    }
  }

  lemma {:induction false} NoPayload()
    ensures DataOf([]).None?
  {
  }

  /** Payloads come back in order and nothing else does, whatever the chunks that carry them. */
  lemma {:induction false} EmittedComeBack(payloads: seq<Text>)
    requires forall i :: 0 <= i < |payloads| ==> Sendable(payloads[i])
    ensures DataLines(EmitAll(payloads)) == payloads
  {
    hide Sendable, Emit, DataLines;
    if payloads == [] {
      EmptyStream();
    } else {
      EmittedLine(payloads[0], EmitAll(payloads[1..]));
      EmittedComeBack(payloads[1..]);
    }
  }

  lemma {:induction false} EmptyStream()
    ensures DataLines([]) == []
  {
    NoPayload();
    NoLine();
    LastLine([]);
  }

  /** Sent as UTF-8 and cut anywhere but inside a character, the stream still gives exactly the payloads. */
  lemma {:induction false} EmittedComeBackInParts(payloads: seq<Text>, parts: seq<Bytes>)
    requires forall i :: 0 <= i < |payloads| ==> Sendable(payloads[i])
    requires Encode(EmitAll(payloads)) == Some(Flatten(parts))
    requires forall i :: 0 <= i < |parts| ==> Decode(parts[i]).Some?
    ensures DataLines(Joined(AsChunks(parts))) == payloads
  {
    hide DataLines, EmitAll, Joined, Encode, Decode, Sendable;
    DecodeEncode(EmitAll(payloads));
    WholePartsKeepText(parts);
    EmittedComeBack(payloads);
  }

  /** Two ways of cutting the same bytes between characters give the same payloads. */
  lemma {:induction false} CutsAgree(a: seq<Bytes>, b: seq<Bytes>)
    requires Flatten(a) == Flatten(b)
    requires forall i :: 0 <= i < |a| ==> Decode(a[i]).Some?
    requires forall i :: 0 <= i < |b| ==> Decode(b[i]).Some?
    ensures DataLines(Joined(AsChunks(a))) == DataLines(Joined(AsChunks(b)))
  {
    hide DataLines;
    WholePartsKeepText(a);
    WholePartsKeepText(b);
  }

  // ----- the units of an event

  datatype CountMethod = ProviderUsage | Approximation

  /** The first of the three usage fields with a positive integer; `True` is the integer 1. */
  function UsageUnits(usage: seq<(Text, Json.Json)>, keys: seq<Text>): (n: nat) {
    if keys == [] then 0
    else
      match Json.Get(usage, keys[0])
      case Some(Int(n)) => if n > 0 then n else UsageUnits(usage, keys[1..])
      case Some(Bool(true)) => 1
      case _ => UsageUnits(usage, keys[1..])
  }

  /** `len(t.split())`: the number of maximal runs of characters that are not blank. */
  function WordCount(t: Text): nat {
    if t == [] then 0
    else WordCount(t[..|t| - 1]) + if !IsSpace(t[|t| - 1]) && (|t| == 1 || IsSpace(t[|t| - 2])) then 1 else 0
  }

  function AtLeastOne(n: nat): (m: nat)
    ensures m >= 1 && m >= n && (m == 1 || m == n)
  {
    if n == 0 then 1 else n
  }

  /** A text that ends in a word has at least one, so the lower bound of one never binds. */
  lemma {:induction false} WordCountPositive(t: Text)
    requires t != [] && !IsSpace(t[|t| - 1])
    ensures WordCount(t) >= 1
  {
    if |t| > 1 && !IsSpace(t[|t| - 2]) {
      hide IsSpace;
      WordCountPositive(t[..|t| - 1]);
    }
  }

  /** The units of a text are its words, blank or not. */
  lemma {:induction false} TextUnitsAreWords(s: Text)
    ensures TextUnits(Some(Json.Str(s))) == WordCount(Strip(s))
  {
    if Strip(s) != [] {
      WordCountPositive(Strip(s));
    }
  }

  function TextUnits(value: Option<Json.Json>): nat {
    match value
    case Some(Str(s)) => if Strip(s) == [] then 0 else AtLeastOne(WordCount(Strip(s)))
    case _ => 0
  }

  function DeltaContent(members: seq<(Text, Json.Json)>): Option<Json.Json> {
    match Json.Get(members, Lit("delta"))
    case Some(Obj(delta)) => Json.Get(delta, Lit("content"))
    case _ => None
  }

  function ProviderUnits(members: seq<(Text, Json.Json)>): nat {
    match Json.Get(members, Lit("usage"))
    case Some(Obj(usage)) => UsageUnits(usage, [Lit("completion_tokens"), Lit("output_tokens"), Lit("tokens")])
    case _ => 0
  }

  /** `extract_token_units`. */
  function TokenUnits(data: Text): (r: (nat, CountMethod)) {
    match Json.Loads(data)
    case Some(Obj(members)) =>
      if ProviderUnits(members) > 0 then (ProviderUnits(members), ProviderUsage)
      else
        (TextUnits(Json.Get(members, Lit("content"))) + TextUnits(Json.Get(members, Lit("token")))
         + TextUnits(Json.Get(members, Lit("text"))) + TextUnits(DeltaContent(members)), Approximation)
    case _ =>
      (if Strip(data) != [] && Strip(data) != Lit("[DONE]") then 1 else 0, Approximation)
  }

  // ----- the metrics

  datatype StreamMetrics = StreamMetrics(
    firstTokenLatencyMs: Option<real>,
    totalResponseLatencyMs: real,
    streamingTokensPerSecond: real,
    tokenCountMethod: CountMethod,
    tokenUnits: nat,
    completed: bool)

  function TotalUnits(data: seq<Text>): nat {
    if data == [] then 0 else TotalUnits(data[..|data| - 1]) + TokenUnits(data[|data| - 1]).0
  }

  predicate Counts(data: Text) {
    TokenUnits(data).0 > 0
  }

  predicate AnyUnits(data: seq<Text>) {
    exists i :: 0 <= i < |data| && Counts(data[i])
  }

  predicate AnyProvider(data: seq<Text>) {
    exists i :: 0 <= i < |data| && Counts(data[i]) && TokenUnits(data[i]).1.ProviderUsage?
  }

  function Data(events: seq<(real, Text)>): (data: seq<Text>)
    ensures |data| == |events| && forall i :: 0 <= i < |events| ==> data[i] == events[i].1
  {
    seq(|events|, i requires 0 <= i < |events| => events[i].1)
  }

  function MaxReal(a: real, b: real): real {
    if a >= b then a else b
  }

  /** The time of the first event that has units. */
  ghost predicate FirstTokenAt(events: seq<(real, Text)>, at: Option<real>) {
    match at
    case None => !AnyUnits(Data(events))
    case Some(t) => exists i: nat :: IsFirstToken(events, i) && events[i].0 == t
  }

  ghost predicate IsFirstToken(events: seq<(real, Text)>, i: nat) {
    i < |events| && Counts(events[i].1) && forall j :: 0 <= j < i ==> !Counts(events[j].1)
  }

  /** `calculate_stream_metrics`. */
  method CalculateStreamMetrics(startedAt: real, completedAt: real, events: seq<(real, Text)>)
    returns (m: StreamMetrics, ghost firstTokenAt: Option<real>)
    ensures FirstTokenAt(events, firstTokenAt)
    ensures m.totalResponseLatencyMs == (completedAt - startedAt) * 1000.0
    ensures m.tokenUnits == TotalUnits(Data(events))
    ensures m.completed <==> AnyUnits(Data(events))
    ensures m.completed <==> firstTokenAt.Some?
    ensures m.tokenCountMethod == if AnyProvider(Data(events)) then ProviderUsage else Approximation
    ensures if firstTokenAt.Some? then
              && m.firstTokenLatencyMs == Some((firstTokenAt.value - startedAt) * 1000.0)
              && m.streamingTokensPerSecond
                 == m.tokenUnits as real / MaxReal(completedAt - firstTokenAt.value, 0.001)
            else m.firstTokenLatencyMs == None && m.streamingTokensPerSecond == 0.0
  {
    NoEvents();
    hide TokenUnits, FirstTokenAt, AnyUnits, AnyProvider, TotalUnits;
    var first: Option<real> := None;
    var units, provider := 0, false;
    assert events[..0] == [];
    for i := 0 to |events|
      invariant FirstTokenAt(events[..i], first)
      invariant units == TotalUnits(Data(events[..i]))
      invariant first.Some? <==> AnyUnits(Data(events[..i]))
      invariant provider <==> AnyProvider(Data(events[..i]))
    {
      var (at, data) := events[i];
      var (n, how) := TokenUnits(data);
      NextEvent(events, i, first);
      if n > 0 {
        if first.None? {
          first := Some(at);
        }
        units := units + n;
        provider := provider || how.ProviderUsage?;
      }
    }
    assert events[..|events|] == events;
    firstTokenAt := first;
    if first.None? {
      NoUnits(Data(events));
      m := StreamMetrics(None, (completedAt - startedAt) * 1000.0, 0.0, Approximation, 0, false);
    } else {
      var seconds := MaxReal(completedAt - first.value, 0.001);
      m := StreamMetrics(Some((first.value - startedAt) * 1000.0), (completedAt - startedAt) * 1000.0,
                         units as real / seconds, if provider then ProviderUsage else Approximation, units, true);
    }
  }

  lemma {:induction false} NoEvents()
    ensures FirstTokenAt([], None)
    ensures var data := Data([]); TotalUnits(data) == 0 && !AnyUnits(data) && !AnyProvider(data)
  {
  }

  /** What one more event does to the accumulators. */
  lemma {:induction false} NextEvent(events: seq<(real, Text)>, i: nat, first: Option<real>)
    requires i < |events| && FirstTokenAt(events[..i], first)
    ensures var (before, after, data) := (Data(events[..i]), Data(events[..i + 1]), events[i].1);
            && TotalUnits(after) == TotalUnits(before) + TokenUnits(data).0
            && (AnyUnits(after) <==> AnyUnits(before) || Counts(data))
            && (AnyProvider(after) <==> AnyProvider(before) || (Counts(data) && TokenUnits(data).1.ProviderUsage?))
    ensures FirstTokenAt(events[..i + 1], if first.None? && Counts(events[i].1) then Some(events[i].0) else first)
  {
    hide TokenUnits;
    var shorter, longer := events[..i], events[..i + 1];
    var before, after := Data(shorter), Data(longer);
    assert after[..i] == before && after[i] == events[i].1;
    assert forall j :: 0 <= j < i ==> longer[j] == shorter[j];
    if AnyUnits(before) {
      var j :| 0 <= j < |before| && Counts(before[j]);
      assert Counts(after[j]);
    }
    if AnyProvider(before) {
      var j :| 0 <= j < |before| && Counts(before[j]) && TokenUnits(before[j]).1.ProviderUsage?;
      assert Counts(after[j]);
    }
    if first.Some? {
      var j: nat :| IsFirstToken(shorter, j) && shorter[j].0 == first.value;
      assert IsFirstToken(longer, j);
    } else if Counts(events[i].1) {
      forall j | 0 <= j < i ensures !Counts(longer[j].1) {
        assert !Counts(before[j]);
      }
      assert IsFirstToken(longer, i);
    }
  }

  lemma {:induction false} NoUnits(data: seq<Text>)
    ensures !AnyUnits(data) <==> TotalUnits(data) == 0
    ensures !AnyUnits(data) ==> !AnyProvider(data)
  {
    hide TokenUnits;
    if data != [] {
      var last := |data| - 1;
      NoUnits(data[..last]);
      assert forall i :: 0 <= i < last ==> data[..last][i] == data[i];
      if TotalUnits(data) == 0 {
        assert forall i :: 0 <= i < |data| ==> !Counts(data[i]) by {
          assert !Counts(data[last]);
          assert forall i :: 0 <= i < last ==> !Counts(data[..last][i]);
        }
      }
    }
  }

  /** The records that the reader of a stream keeps: each payload with the time at which it was seen. */
  function Records(data: seq<Text>, clock: nat -> real): (events: seq<(real, Text)>)
    ensures Data(events) == data
    ensures |events| == |data| && forall i :: 0 <= i < |data| ==> events[i].0 == clock(i)
  {
    var events := seq(|data|, i requires 0 <= i < |data| => (clock(i), data[i]));
    assert Data(events) == data;
    events
  }

  /**
   Reading a stream and measuring it: token units, counting method and completion depend on the text of the stream
   alone, not on how it was cut into chunks nor on when its payloads were seen.
   */
  method MeasureStream(chunks: seq<Chunk>, clock: nat -> real, startedAt: real, completedAt: real)
      returns (m: StreamMetrics)
    ensures m.tokenUnits == TotalUnits(DataLines(Joined(chunks)))
    ensures m.completed <==> AnyUnits(DataLines(Joined(chunks)))
    ensures m.tokenCountMethod == if AnyProvider(DataLines(Joined(chunks))) then ProviderUsage else Approximation
    ensures m.totalResponseLatencyMs == (completedAt - startedAt) * 1000.0
    ensures m.completed <==> m.firstTokenLatencyMs.Some?
    ensures m.firstTokenLatencyMs.None? ==> m.streamingTokensPerSecond == 0.0
    ensures forall i: nat :: FirstCounting(DataLines(Joined(chunks)), i) ==>
              && m.firstTokenLatencyMs == Some((clock(i) - startedAt) * 1000.0)
              && m.streamingTokensPerSecond == m.tokenUnits as real / MaxReal(completedAt - clock(i), 0.001)
  {
    hide DataLines, Joined, TotalUnits, AnyUnits, AnyProvider, Counts;
    var data := IterSseDataLines(chunks);
    ghost var at;
    m, at := CalculateStreamMetrics(startedAt, completedAt, Records(data, clock));
    forall i: nat | FirstCounting(data, i) ensures at == Some(clock(i)) {
      FirstIs(data, clock, i, at);
    }
  }

  /** The first payload that counts. */
  predicate FirstCounting(data: seq<Text>, i: nat) {
    i < |data| && Counts(data[i]) && forall j :: 0 <= j < i ==> !Counts(data[j])
  }

  lemma {:induction false} FirstIs(data: seq<Text>, clock: nat -> real, i: nat, at: Option<real>)
    requires FirstCounting(data, i) && FirstTokenAt(Records(data, clock), at)
    ensures at == Some(clock(i))
  {
    hide Counts;
    var events := Records(data, clock);
    assert forall k :: 0 <= k < |data| ==> events[k].1 == Data(events)[k];
    assert AnyUnits(Data(events));
    var k: nat :| IsFirstToken(events, k) && events[k].0 == at.value;
    assert k == i;
  }
}
