/** The lenient parser of the error dictionaries, in the audit of the messages, and where the two parsers agree. */
module AuditDictionary {
  import opened Runes
  import opened DictionaryLines
  import Quoting
  import Strict = ErrorDictionary
  import TextLines

  datatype Progress = Progress(stack: seq<Level>, entries: Entries)

  const START := Progress([], map[])

  /** One line. */
  function Next(p: Progress, line: Line): Progress {
    if !line.Mapping? then p
    else
      var stack := Pop(p.stack, line.indent);
      var path := Keys(stack) + [line.key];
      if line.value == [] then p.(stack := stack + [Level(line.indent, line.key)])
      else if IsFieldPath(path) then
        Progress(stack, Put(p.entries, ErrorKey(path[1], path[2]), path[3], Quoting.Unquote(line.value)))
      else p.(stack := stack)
  }

  function Follow(p: Progress, lines: seq<Line>): Progress
    decreases |lines|
  {
    if lines == [] then p else Follow(Next(p, lines[0]), lines[1..])
  }

  /** `_parse_dictionary`. */
  method ParseDictionary(text: Text) returns (entries: Entries)
    ensures entries == Follow(START, Strict.FileLines(text)).entries
  {
    hide ReadLine, IsFieldPath, Quoting.Unquote;
    var raw := TextLines.SplitLines(text);
    var stack: seq<Level> := [];
    entries := map[];
    for i := 0 to |raw|
      invariant Follow(Progress(stack, entries), Strict.ReadLines(raw)[i..]) == Follow(START, Strict.ReadLines(raw))
    {
      assert Strict.ReadLines(raw)[i..][0] == ReadLine(raw[i]);
      assert Strict.ReadLines(raw)[i..][1..] == Strict.ReadLines(raw)[i + 1..];
      var line := ReadLine(raw[i]);
      if line.Mapping? {
        stack := PopLevels(stack, line.indent);
        var path := Keys(stack) + [line.key];
        if line.value == [] {
          stack := stack + [Level(line.indent, line.key)];
        } else if IsFieldPath(path) {
          Strict.FieldPathParts(path);
          entries := Put(entries, ErrorKey(path[1], path[2]), path[3], Quoting.Unquote(line.value));
        }
      }
    }
  }

  // ----- agreement

  /** Without the fields that the strict parser does not support, and without the messages that have no other. */
  function Supported(entries: Entries): Entries {
    map key | key in entries && AnySupported(entries[key]) :: SupportedFields(entries[key])
  }

  predicate AnySupported(fields: map<Text, Text>) {
    exists f :: f in fields && f in Strict.RequiredFields()
  }

  predicate AnyUnsupported(fields: map<Text, Text>) {
    exists f :: f in fields && f !in Strict.RequiredFields()
  }

  function SupportedFields(fields: map<Text, Text>): map<Text, Text> {
    map f | f in fields && f in Strict.RequiredFields() :: fields[f]
  }

  predicate HasUnsupported(entries: Entries) {
    exists key :: key in entries && AnyUnsupported(entries[key])
  }

  predicate NoEmptyMessage(entries: Entries) {
    forall key :: key in entries ==> exists f :: f in entries[key]
  }

  predicate ReportsUnsupported(problems: seq<Strict.Problem>) {
    exists i :: 0 <= i < |problems| && problems[i].UnsupportedField?
  }

  /** How the states of the two parsers correspond. */
  ghost predicate Lockstep(s: Strict.Progress, a: Progress) {
    && s.stack == a.stack && Increasing(a.stack)
    && s.entries == Supported(a.entries)
    && (ReportsUnsupported(s.problems) <==> HasUnsupported(a.entries))
    && NoEmptyMessage(a.entries)
  }

  lemma {:induction false} ReportsMore(problems: seq<Strict.Problem>, more: seq<Strict.Problem>)
    ensures ReportsUnsupported(problems + more) <==> ReportsUnsupported(problems) || ReportsUnsupported(more)
  {
    var all := problems + more;
    assert forall i :: 0 <= i < |problems| ==> all[i] == problems[i];
    assert forall i :: 0 <= i < |more| ==> all[|problems| + i] == more[i];
  }

  function FieldsOf(entries: Entries, key: Text): map<Text, Text> {
    if key in entries then entries[key] else map[]
  }

  /** What a new field does to one message. */
  lemma {:induction false} NewField(fields: map<Text, Text>, field: Text, value: Text)
    ensures var after := fields[field := value];
            if field in Strict.RequiredFields() then
              && SupportedFields(after) == SupportedFields(fields)[field := value]
              && AnySupported(after) && (AnyUnsupported(after) <==> AnyUnsupported(fields))
            else
              && SupportedFields(after) == SupportedFields(fields)
              && (AnySupported(after) <==> AnySupported(fields)) && AnyUnsupported(after)
    ensures !AnySupported(fields) ==> SupportedFields(fields) == map[]
  {
    hide Strict.RequiredFields;
    var after := fields[field := value];
    assert field in after;
    assert forall f :: f in fields ==> f in after;
  }

  lemma {:induction false} NothingYet()
    ensures !AnySupported(map[]) && !AnyUnsupported(map[]) && SupportedFields(map[]) == map[]
  {
  }

  /** Putting a supported field commutes with dropping the unsupported ones. */
  lemma {:induction false} PutSupported(entries: Entries, key: Text, field: Text, value: Text)
    requires field in Strict.RequiredFields()
    ensures Supported(Put(entries, key, field, value)) == Put(Supported(entries), key, field, value)
    ensures HasUnsupported(Put(entries, key, field, value)) <==> HasUnsupported(entries)
  {
    NewField(FieldsOf(entries, key), field, value);
    NothingYet();
    hide Strict.RequiredFields, SupportedFields, AnySupported, AnyUnsupported;
    var after := Put(entries, key, field, value);
    assert after[key] == FieldsOf(entries, key)[field := value];
    assert forall k :: k != key ==> (k in after <==> k in entries) && (k in after ==> after[k] == entries[k]);
    hide Put;
    var a, kept := Supported(after), Supported(entries);
    assert key in a && a[key] == FieldsOf(kept, key)[field := value];
    PutIs(kept, key, field, value);
    assert a == Put(kept, key, field, value);
  }

  lemma {:induction false} PutIs(entries: Entries, key: Text, field: Text, value: Text)
    ensures Put(entries, key, field, value) == entries[key := FieldsOf(entries, key)[field := value]]
  {
  }

  /** Putting an unsupported field leaves what is supported as it was. */
  lemma {:induction false} PutUnsupported(entries: Entries, key: Text, field: Text, value: Text)
    requires field !in Strict.RequiredFields()
    ensures Supported(Put(entries, key, field, value)) == Supported(entries)
    ensures HasUnsupported(Put(entries, key, field, value))
  {
    NewField(FieldsOf(entries, key), field, value);
    NothingYet();
    hide Strict.RequiredFields, SupportedFields, AnySupported, AnyUnsupported;
    var after := Put(entries, key, field, value);
    assert key in after && after[key] == FieldsOf(entries, key)[field := value];
    assert forall k :: k != key ==> (k in after <==> k in entries);
  }

  lemma {:induction false} PutNotEmpty(entries: Entries, key: Text, field: Text, value: Text)
    requires NoEmptyMessage(entries)
    ensures NoEmptyMessage(Put(entries, key, field, value))
  {
    var after := Put(entries, key, field, value);
    assert field in after[key];
  }

  /** Each line keeps the two parsers in lockstep. */
  lemma {:induction false} StepKeepsLockstep(s: Strict.Progress, a: Progress, n: nat, line: Line)
    requires Lockstep(s, a) && !IsOdd(line)
    ensures Lockstep(Strict.Next(s, n, line), Next(a, line))
  {
    hide Supported, HasUnsupported, NoEmptyMessage, ReportsUnsupported, Strict.RequiredFields,
         Quoting.Unquote, Put, ErrorKey, IsFieldPath, Increasing;
    if line.NoMapping? {
      OneProblem(Strict.NotAMapping(n));
      ReportsMore(s.problems, [Strict.NotAMapping(n)]);
    } else if line.Mapping? {
      NestingIncreases(s.stack, line.indent, line.key);
      var path := Keys(Pop(s.stack, line.indent)) + [line.key];
      var repeated := Strict.Repeated(s, n, path);
      NoProblem();
      OneProblem(Strict.DuplicateKey(n, path));
      ReportsMore(s.problems, repeated);
      if line.value == [] {
      } else if !IsFieldPath(path) {
        OneProblem(Strict.UnexpectedScalar(n, path));
        ReportsMore(s.problems + repeated, [Strict.UnexpectedScalar(n, path)]);
      } else {
        Strict.FieldPathParts(path);
        var key, value := ErrorKey(path[1], path[2]), Quoting.Unquote(line.value);
        PutNotEmpty(a.entries, key, path[3], value);
        if path[3] in Strict.RequiredFields() {
          PutSupported(a.entries, key, path[3], value);
        } else {
          PutUnsupported(a.entries, key, path[3], value);
          OneProblem(Strict.UnsupportedField(n, path[3]));
          ReportsMore(s.problems + repeated, [Strict.UnsupportedField(n, path[3])]);
        }
      }
    }
  }

  lemma NoProblem()
    ensures !ReportsUnsupported([])
  {
  }

  lemma OneProblem(p: Strict.Problem)
    ensures ReportsUnsupported([p]) <==> p.UnsupportedField?
  {
    assert [p][0] == p;
  }

  // ----- lines at an odd indentation, which only the strict parser skips

  predicate IsOdd(line: Line) {
    !line.Ignored? && line.indent % 2 != 0
  }

  /** The lines without those at an odd indentation. */
  function EvenLines(lines: seq<Line>): seq<Line> {
    if lines == [] then [] else (if IsOdd(lines[0]) then [] else [lines[0]]) + EvenLines(lines[1..])
  }

  predicate HasOdd(lines: seq<Line>) {
    exists i :: 0 <= i < |lines| && IsOdd(lines[i])
  }

  lemma {:induction false} NoOddLines(lines: seq<Line>)
    ensures !HasOdd(lines) ==> EvenLines(lines) == lines
  {
    hide IsOdd;
    if lines != [] && !HasOdd(lines) {
      forall i | 0 <= i < |lines| - 1 ensures !IsOdd(lines[1..][i]) {
        assert lines[1..][i] == lines[i + 1];
      }
      NoOddLines(lines[1..]);
    }
  }

  /** An odd line leaves the strict parser where it was, but for the report. */
  lemma {:induction false} OddStep(s: Strict.Progress, a: Progress, n: nat, line: Line)
    requires IsOdd(line)
    ensures Lockstep(s, a) ==> Lockstep(Strict.Next(s, n, line), a)
    ensures Strict.Next(s, n, line).problems != []
  {
    hide Supported, HasUnsupported, NoEmptyMessage, ReportsUnsupported, Increasing;
    OneProblem(Strict.OddIndent(n));
    ReportsMore(s.problems, [Strict.OddIndent(n)]);
  }

  lemma {:induction false} ReportsStay(s: Strict.Progress, n: nat, lines: seq<Line>)
    ensures s.problems != [] ==> Strict.Follow(s, n, lines).problems != []
    decreases |lines|
  {
    if lines != [] {
      OneReportsMore(s, n, lines[0]);
      hide Strict.Next;
      ReportsStay(Strict.Next(s, n, lines[0]), n + 1, lines[1..]);
    }
  }

  lemma {:induction false} OneReportsMore(s: Strict.Progress, n: nat, line: Line)
    ensures s.problems <= Strict.Next(s, n, line).problems
  {
    hide Put, ErrorKey, IsFieldPath, Strict.RequiredFields, Quoting.Unquote;
  }

  /** Over any lines, the strict parser goes in lockstep with the lenient one on the lines at even indentations. */
  lemma {:induction false} LockstepThroughout(s: Strict.Progress, a: Progress, n: nat, lines: seq<Line>)
    requires Lockstep(s, a)
    ensures Lockstep(Strict.Follow(s, n, lines), Follow(a, EvenLines(lines)))
    decreases |lines|
  {
    hide Lockstep;
    if lines != [] {
      var first, rest := lines[0], lines[1..];
      if IsOdd(first) {
        OddStep(s, a, n, first);
        hide Strict.Next, Next;
        LockstepThroughout(Strict.Next(s, n, first), a, n + 1, rest);
        assert [] + EvenLines(rest) == EvenLines(rest);
      } else {
        StepKeepsLockstep(s, a, n, first);
        hide Strict.Next, Next;
        LockstepThroughout(Strict.Next(s, n, first), Next(a, first), n + 1, rest);
        assert ([first] + EvenLines(rest))[1..] == EvenLines(rest);
      }
    }
  }

  /** An accepted dictionary has no line at an odd indentation. */
  lemma {:induction false} OddLinesReported(s: Strict.Progress, n: nat, lines: seq<Line>)
    requires HasOdd(lines)
    ensures Strict.Follow(s, n, lines).problems != []
    decreases |lines|
  {
    hide IsOdd;
    if IsOdd(lines[0]) {
      OddStep(s, START, n, lines[0]);
      hide Strict.Next;
      ReportsStay(Strict.Next(s, n, lines[0]), n + 1, lines[1..]);
    } else {
      var i :| 0 <= i < |lines| && IsOdd(lines[i]);
      assert lines[1..][i - 1] == lines[i];
      hide Strict.Next;
      OddLinesReported(Strict.Next(s, n, lines[0]), n + 1, lines[1..]);
    }
  }

  lemma {:induction false} LockstepAtStart()
    ensures Lockstep(Strict.START, START)
  {
  }

  /** All fields are supported, so nothing is dropped. */
  lemma {:induction false} SupportedAlready(entries: Entries)
    requires NoEmptyMessage(entries)
    ensures Supported(entries) == entries <==> !HasUnsupported(entries)
  {
    hide Strict.RequiredFields;
    var kept := Supported(entries);
    if HasUnsupported(entries) {
      var k :| k in entries && AnyUnsupported(entries[k]);
      var f :| f in entries[k] && f !in Strict.RequiredFields();
      assert k !in kept || f !in kept[k];
    } else {
      forall k | k in entries
        ensures k in kept && kept[k] == entries[k]
      {
        assert !AnyUnsupported(entries[k]);
        var f :| f in entries[k];
        assert f in Strict.RequiredFields();
      }
    }
  }

  /**
   On every input the strict parser reads exactly the supported fields of what the audit would read from the lines at
   even indentations, and reports an unsupported field exactly when there is one among them. So the two agree exactly
   when dropping the lines at odd indentations and then the unsupported fields changes nothing for the audit; without
   such a line, exactly when no unsupported field is reported.
   */
  lemma {:induction false} ParsersAgree(text: Text)
    ensures var lines := Strict.FileLines(text);
            var strict := Strict.Result(Strict.Follow(Strict.START, 1, lines));
            var audit, even := Follow(START, lines).entries, Follow(START, EvenLines(lines)).entries;
            && strict.entries == Supported(even)
            && (strict.entries == even <==> !ReportsUnsupported(strict.problems))
            && (strict.entries == audit <==> audit == Supported(even))
            && (!HasOdd(lines) ==> (strict.entries == audit <==> !ReportsUnsupported(strict.problems)))
  {
    hide Strict.Follow, Follow, Supported, HasUnsupported, NoEmptyMessage, ReportsUnsupported, HasOdd, EvenLines,
         Strict.FileLines;
    var lines := Strict.FileLines(text);
    LockstepAtStart();
    LockstepThroughout(Strict.START, START, 1, lines);
    SupportedAlready(Follow(START, EvenLines(lines)).entries);
    NoOddLines(lines);
  }

  lemma {:induction false} CompleteMessages(entries: Entries)
    requires Supported(entries) == entries && Strict.Incomplete(entries) == {}
    ensures forall key :: key in entries ==>
              && entries[key].Keys == Strict.RequiredFields()
              && forall f :: f in entries[key] ==> Strip(entries[key][f]) != []
  {
    hide Strip, Strict.RequiredFields;
    forall key, f | key in entries && f in Strict.RequiredFields()
      ensures f in entries[key] && Strip(entries[key][f]) != []
    {
      assert (key, f) !in Strict.Incomplete(entries);
    }
    assert forall key :: key in entries ==> entries[key] == SupportedFields(entries[key]);
  }

  /**
   In particular they agree on every dictionary that the strict parser accepts, and every message there is complete.
   */
  lemma {:induction false} CleanDictionariesAgree(text: Text)
    requires Strict.Result(Strict.Follow(Strict.START, 1, Strict.FileLines(text))).Clean()
    ensures var entries := Follow(START, Strict.FileLines(text)).entries;
            && entries == Strict.Follow(Strict.START, 1, Strict.FileLines(text)).entries && entries != map[]
            && forall key :: key in entries ==>
                 && entries[key].Keys == Strict.RequiredFields()
                 && forall f :: f in entries[key] ==> Strip(entries[key][f]) != []
  {
    hide Strict.Follow, Follow, Strip, Strict.RequiredFields, Strict.Incomplete, Supported, HasOdd, EvenLines,
         Strict.FileLines;
    var lines := Strict.FileLines(text);
    ParsersAgree(text);
    if HasOdd(lines) {
      OddLinesReported(Strict.START, 1, lines);
    }
    NoOddLines(lines);
    CompleteMessages(Follow(START, lines).entries);
  }
}
