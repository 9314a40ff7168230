/** The lines of an error dictionary file, as both of its parsers read them. */
module DictionaryLines {
  import opened Runes

  const SPACE: Rune := 0x20
  const COLON: Rune := 0x3A
  const HASH: Rune := 0x23

  /** A line that is skipped, one without a colon, or a key with a value that may be empty. */
  datatype Line = Ignored | NoMapping(indent: nat) | Mapping(indent: nat, key: Text, value: Text)

  /** The number of spaces in front; other blanks do not count. */
  function Indent(raw: Text): (n: nat)
    ensures n <= |raw|
  {
    if raw != [] && raw[0] == SPACE then 1 + Indent(raw[1..]) else 0
  }

  function ColonAt(t: Text): (n: nat)
    ensures n <= |t|
    ensures n < |t| ==> t[n] == COLON
    ensures forall i :: 0 <= i < n ==> t[i] != COLON
  {
    if t == [] || t[0] == COLON then 0 else 1 + ColonAt(t[1..])
  }

  function ReadLine(raw: Text): Line {
    var stripped := Strip(raw);
    if stripped == [] || stripped[0] == HASH then Ignored
    else
      var at := ColonAt(stripped);
      if at == |stripped| then NoMapping(Indent(raw))
      else Mapping(Indent(raw), Strip(stripped[..at]), Strip(stripped[at + 1..]))
  }

  /** A level of the stack: the indentation and the key of a line without a value. */
  datatype Level = Level(indent: nat, key: Text)

  /** The levels that a line at an indentation is nested in. */
  function Pop(stack: seq<Level>, indent: nat): (r: seq<Level>)
    ensures r <= stack
    ensures r != [] ==> r[|r| - 1].indent < indent
  {
    if stack != [] && indent <= stack[|stack| - 1].indent then Pop(stack[..|stack| - 1], indent) else stack
  }

  /** The loop of both parsers that leaves the levels a line is not nested in. */
  method PopLevels(levels: seq<Level>, indent: nat) returns (stack: seq<Level>)
    ensures stack == Pop(levels, indent)
  {
    stack := levels;
    while stack != [] && indent <= stack[|stack| - 1].indent
      invariant Pop(stack, indent) == Pop(levels, indent)
      decreases |stack|
    {
      stack := stack[..|stack| - 1];
    }
  }

  function Keys(stack: seq<Level>): (keys: seq<Text>)
    ensures |keys| == |stack| && forall i :: 0 <= i < |stack| ==> keys[i] == stack[i].key
  {
    seq(|stack|, i requires 0 <= i < |stack| => stack[i].key)
  }

  predicate Increasing(stack: seq<Level>) {
    forall i, j :: 0 <= i < j < |stack| ==> stack[i].indent < stack[j].indent
  }

  /** Leaving levels and entering a new one keeps the indentations strictly increasing. */
  lemma {:induction false} NestingIncreases(stack: seq<Level>, indent: nat, key: Text)
    requires Increasing(stack)
    ensures Increasing(Pop(stack, indent)) && Increasing(Pop(stack, indent) + [Level(indent, key)])
  {
    var kept := Pop(stack, indent);
    assert forall i :: 0 <= i < |kept| ==> kept[i] == stack[i];
  }

  /** The fields of each message; a dictionary of dictionaries. */
  type Entries = map<Text, map<Text, Text>>

  /** `entries.setdefault(key, {})[field] = value`. */
  function Put(entries: Entries, key: Text, field: Text, value: Text): Entries {
    entries[key := (if key in entries then entries[key] else map[])[field := value]]
  }

  /** `errors.<scope>.<name>`. */
  function ErrorKey(scope: Text, name: Text): Text {
    Lit("errors.") + scope + Lit(".") + name
  }

  /** A path of four parts below `errors`. */
  predicate IsFieldPath(path: seq<Text>) {
    |path| == 4 && path[0] == Lit("errors")
  }
}
