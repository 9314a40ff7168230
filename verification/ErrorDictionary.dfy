/** The strict parser of the error dictionaries, which reports what it does not accept. */
module ErrorDictionary {
  import opened Runes
  import opened DictionaryLines
  import Quoting
  import TextLines

  datatype Problem =
    | OddIndent(line: nat)
    | NotAMapping(line: nat)
    | DuplicateKey(line: nat, path: seq<Text>)
    | UnexpectedScalar(line: nat, path: seq<Text>)
    | UnsupportedField(line: nat, field: Text)

  /** What the loop over the lines updates. */
  datatype Progress = Progress(stack: seq<Level>, seen: set<seq<Text>>, entries: Entries, problems: seq<Problem>)

  const START := Progress([], {}, map[], [])

  function RequiredFields(): set<Text> {
    {Lit("title"), Lit("detail"), Lit("remediation")}
  }

  function Repeated(p: Progress, n: nat, path: seq<Text>): seq<Problem> {
    if path in p.seen then [DuplicateKey(n, path)] else []
  }

  /** One line. */
  function Next(p: Progress, n: nat, line: Line): Progress {
    if line.Ignored? then p
    else if line.indent % 2 != 0 then p.(problems := p.problems + [OddIndent(n)])
    else if line.NoMapping? then p.(problems := p.problems + [NotAMapping(n)])
    else
      var stack := Pop(p.stack, line.indent);
      var path := Keys(stack) + [line.key];
      var q := Progress(stack, p.seen + {path}, p.entries, p.problems + Repeated(p, n, path));
      if line.value == [] then q.(stack := stack + [Level(line.indent, line.key)])
      else if !IsFieldPath(path) then q.(problems := q.problems + [UnexpectedScalar(n, path)])
      else if path[3] !in RequiredFields() then q.(problems := q.problems + [UnsupportedField(n, path[3])])
      else q.(entries := Put(q.entries, ErrorKey(path[1], path[2]), path[3], Quoting.Unquote(line.value)))
  }

  /** The lines from line number `n` on. */
  function Follow(p: Progress, n: nat, lines: seq<Line>): Progress
    decreases |lines|
  {
    if lines == [] then p else Follow(Next(p, n, lines[0]), n + 1, lines[1..])
  }

  function ReadLines(raw: seq<Text>): (lines: seq<Line>)
    ensures |lines| == |raw| && forall i :: 0 <= i < |raw| ==> lines[i] == ReadLine(raw[i])
  {
    seq(|raw|, i requires 0 <= i < |raw| => ReadLine(raw[i]))
  }

  /** The lines of a file. */
  function FileLines(text: Text): seq<Line> {
    ReadLines(TextLines.SplitLines(text))
  }

  /** What the parser returns; the last two parts stand for the errors reported after the loop. */
  datatype DictionaryResult = DictionaryResult(
    entries: Entries,
    problems: seq<Problem>,
    noEntries: bool,
    incomplete: set<(Text, Text)>)
  {
    predicate Clean() {
      problems == [] && !noEntries && incomplete == {}
    }
  }

  /** The required fields that a message lacks or has only blanks for. */
  function Incomplete(entries: Entries): set<(Text, Text)> {
    set key, field | key in entries && field in RequiredFields()
                     && (field !in entries[key] || Strip(entries[key][field]) == []) :: (key, field)
  }

  function Result(p: Progress): DictionaryResult {
    DictionaryResult(p.entries, p.problems, p.entries == map[] && p.problems == [], Incomplete(p.entries))
  }

  /** `parse_error_dictionary`, on the text of an existing file. */
  method ParseErrorDictionary(text: Text) returns (r: DictionaryResult)
    ensures r == Result(Follow(START, 1, FileLines(text)))
  {
    hide Next, ReadLine;
    var raw := TextLines.SplitLines(text);
    var p := START;
    for i := 0 to |raw|
      invariant Follow(p, i + 1, ReadLines(raw)[i..]) == Follow(START, 1, ReadLines(raw))
    {
      assert ReadLines(raw)[i..][0] == ReadLine(raw[i]) && ReadLines(raw)[i..][1..] == ReadLines(raw)[i + 1..];
      p := TakeLine(p, i + 1, raw[i]);
    }
    r := Result(p);
  }

  /** The body of the loop. */
  method TakeLine(p: Progress, n: nat, raw: Text) returns (q: Progress)
    ensures q == Next(p, n, ReadLine(raw))
  {
    hide ReadLine, IsFieldPath, Quoting.Unquote;
    var line := ReadLine(raw);
    if line.Ignored? {
      return p;
    }
    if line.indent % 2 != 0 {
      return p.(problems := p.problems + [OddIndent(n)]);
    }
    if line.NoMapping? {
      return p.(problems := p.problems + [NotAMapping(n)]);
    }
    var stack, seen, problems := p.stack, p.seen, p.problems;
    stack := PopLevels(stack, line.indent);
    var path := Keys(stack) + [line.key];
    if path in seen {
      problems := problems + [DuplicateKey(n, path)];
    }
    seen := seen + {path};
    if line.value == [] {
      stack := stack + [Level(line.indent, line.key)];
      return Progress(stack, seen, p.entries, problems);
    }
    if !IsFieldPath(path) {
      return Progress(stack, seen, p.entries, problems + [UnexpectedScalar(n, path)]);
    }
    FieldPathParts(path);
    if path[3] !in RequiredFields() {
      return Progress(stack, seen, p.entries, problems + [UnsupportedField(n, path[3])]);
    }
    var entries := Put(p.entries, ErrorKey(path[1], path[2]), path[3], Quoting.Unquote(line.value));
    return Progress(stack, seen, entries, problems);
  }

  lemma FieldPathParts(path: seq<Text>)
    requires IsFieldPath(path)
    ensures |path| == 4
  {
  }
}
