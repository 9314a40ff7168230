/** What the strict parser reports and reads, said of the lines themselves: by their paths, without its stack. */
module DictionaryPaths {
  import opened Runes
  import opened DictionaryLines
  import opened ErrorDictionary
  import Quoting

  // ----- the path of a line

  /** A line with a key at an even indentation; the others do not take part in the nesting. */
  predicate IsKeyLine(line: Line) {
    line.Mapping? && line.indent % 2 == 0
  }

  /** No line with a key from `j` up to but excluding `k` stands as far to the left as line `j`, which opens a level. */
  predicate Open(lines: seq<Line>, j: nat, k: nat)
    requires j < k <= |lines|
  {
    && IsKeyLine(lines[j]) && lines[j].value == []
    && forall i :: j < i < k && IsKeyLine(lines[i]) ==> lines[j].indent < lines[i].indent
  }

  /** A line stands in an earlier one that has no value when all lines with a key since stand further to the right. */
  predicate Encloses(lines: seq<Line>, j: nat, k: nat)
    requires j < k < |lines| && IsKeyLine(lines[k])
  {
    && IsKeyLine(lines[j]) && lines[j].value == []
    && forall i :: j < i <= k && IsKeyLine(lines[i]) ==> lines[j].indent < lines[i].indent
  }

  /** The keys of those of the first `m` lines that a line stands in. */
  function Outer(lines: seq<Line>, m: nat, k: nat): seq<Text>
    requires m <= k < |lines| && IsKeyLine(lines[k])
  {
    if m == 0 then []
    else if Encloses(lines, m - 1, k) then Outer(lines, m - 1, k) + [lines[m - 1].key]
    else Outer(lines, m - 1, k)
  }

  function PathAt(lines: seq<Line>, k: nat): (path: seq<Text>)
    requires k < |lines| && IsKeyLine(lines[k])
    ensures path != []
  {
    Outer(lines, k, k) + [lines[k].key]
  }

  /** An earlier line has the same path. */
  predicate IsRepeated(lines: seq<Line>, k: nat)
    requires k < |lines| && IsKeyLine(lines[k])
  {
    exists j :: 0 <= j < k && IsKeyLine(lines[j]) && PathAt(lines, j) == PathAt(lines, k)
  }

  // ----- the problems of a line

  predicate IsField(path: seq<Text>) {
    |path| == 4 && path[0] == Lit("errors")
  }

  predicate IsRequired(field: Text) {
    field == Lit("title") || field == Lit("detail") || field == Lit("remediation")
  }

  /** What is wrong with the value of a line. */
  function ValueProblems(n: nat, path: seq<Text>, value: Text): seq<Problem> {
    if value == [] then []
    else if !IsField(path) then [UnexpectedScalar(n, path)]
    else if !IsRequired(path[3]) then [UnsupportedField(n, path[3])]
    else []
  }

  function ProblemsAt(lines: seq<Line>, k: nat): seq<Problem>
    requires k < |lines|
  {
    match lines[k]
    case Ignored => []
    case NoMapping(indent) => if indent % 2 == 1 then [OddIndent(k + 1)] else [NotAMapping(k + 1)]
    case Mapping(indent, _, value) =>
      if indent % 2 == 1 then [OddIndent(k + 1)]
      else
        (if IsRepeated(lines, k) then [DuplicateKey(k + 1, PathAt(lines, k))] else [])
        + ValueProblems(k + 1, PathAt(lines, k), value)
  }

  function Problems(lines: seq<Line>, n: nat): seq<Problem>
    requires n <= |lines|
  {
    if n == 0 then [] else Problems(lines, n - 1) + ProblemsAt(lines, n - 1)
  }

  // ----- the fields that are read

  /** Line `k` gives the field of a message. */
  predicate GivesField(lines: seq<Line>, k: nat, key: Text, field: Text)
    requires k < |lines|
  {
    && IsKeyLine(lines[k]) && lines[k].value != []
    && IsField(PathAt(lines, k)) && IsRequired(PathAt(lines, k)[3])
    && key == ErrorKey(PathAt(lines, k)[1], PathAt(lines, k)[2]) && field == PathAt(lines, k)[3]
  }

  /** The value of a field: that of the last of the first `n` lines that gives it. */
  function ValueOf(lines: seq<Line>, n: nat, key: Text, field: Text): (value: seq<Text>)
    requires n <= |lines|
    ensures |value| <= 1
    ensures value == [] <==> forall k :: 0 <= k < n ==> !GivesField(lines, k, key, field)
  {
    if n == 0 then []
    else if GivesField(lines, n - 1, key, field) then [Quoting.Unquote(lines[n - 1].value)]
    else ValueOf(lines, n - 1, key, field)
  }

  function Found(entries: Entries, key: Text, field: Text): seq<Text> {
    if key in entries && field in entries[key] then [entries[key][field]] else []
  }

  // ----- the stack holds the open levels

  function Levels(lines: seq<Line>, m: nat, k: nat): seq<Level>
    requires m <= k <= |lines|
  {
    if m == 0 then []
    else if Open(lines, m - 1, k) then Levels(lines, m - 1, k) + [Level(lines[m - 1].indent, lines[m - 1].key)]
    else Levels(lines, m - 1, k)
  }

  lemma {:induction false} PopNothing(indent: nat)
    ensures Pop([], indent) == []
  {
  }

  lemma {:induction false} PopLast(stack: seq<Level>, last: Level, indent: nat)
    ensures Pop(stack + [last], indent) == if indent <= last.indent then Pop(stack, indent) else stack + [last]
  {
    assert (stack + [last])[..|stack|] == stack;
  }

  lemma {:induction false} KeysLast(stack: seq<Level>, last: Level)
    ensures Keys(stack + [last]) == Keys(stack) + [last.key]
  {
  }

  /** Levels that all stand further to the left are all kept. */
  lemma {:induction false} AllKept(lines: seq<Line>, m: nat, k: nat)
    requires m <= k < |lines| && IsKeyLine(lines[k])
    requires forall j :: 0 <= j < m && Open(lines, j, k) ==> lines[j].indent < lines[k].indent
    ensures Levels(lines, m, k + 1) == Levels(lines, m, k)
  {
    if m > 0 {
      AllKept(lines, m - 1, k);
      EnclosesIsOpen(lines, m - 1, k);
    }
  }

  lemma {:induction false} OuterLevelsLeft(lines: seq<Line>, m: nat, k: nat)
    requires m < k <= |lines| && Open(lines, m, k)
    ensures IsKeyLine(lines[m])
    ensures forall j :: 0 <= j < m && Open(lines, j, k) ==> lines[j].indent < lines[m].indent
  {
  }

  /** Leaving levels down to the indentation of a line leaves those it stands in. */
  lemma {:induction false} PopIsEnclosing(lines: seq<Line>, m: nat, k: nat)
    requires m <= k < |lines| && IsKeyLine(lines[k])
    ensures Pop(Levels(lines, m, k), lines[k].indent) == Levels(lines, m, k + 1)
  {
    hide Pop, Open;
    if m == 0 {
      PopNothing(lines[k].indent);
    } else {
      PopIsEnclosing(lines, m - 1, k);
      EnclosesIsOpen(lines, m - 1, k);
      if Open(lines, m - 1, k) {
        OuterLevelsLeft(lines, m - 1, k);
        PopLast(Levels(lines, m - 1, k), Level(lines[m - 1].indent, lines[m - 1].key), lines[k].indent);
        if lines[m - 1].indent < lines[k].indent {
          AllKept(lines, m - 1, k);
        }
      }
    }
  }

  lemma {:induction false} KeysAreOuter(lines: seq<Line>, m: nat, k: nat)
    requires m <= k < |lines| && IsKeyLine(lines[k])
    ensures Keys(Levels(lines, m, k + 1)) == Outer(lines, m, k)
  {
    hide Open, Encloses;
    if m > 0 {
      KeysAreOuter(lines, m - 1, k);
      EnclosesIsOpen(lines, m - 1, k);
      if Encloses(lines, m - 1, k) {
        KeysLast(Levels(lines, m - 1, k + 1), Level(lines[m - 1].indent, lines[m - 1].key));
      }
    }
  }

  lemma {:induction false} EnclosesIsOpen(lines: seq<Line>, j: nat, k: nat)
    requires j < k < |lines| && IsKeyLine(lines[k])
    ensures Encloses(lines, j, k) <==> Open(lines, j, k + 1)
    ensures Open(lines, j, k) ==> IsKeyLine(lines[j])
    ensures Open(lines, j, k + 1) <==> Open(lines, j, k) && lines[j].indent < lines[k].indent
  {
  }

  /** A line that is no key line opens no level and closes none. */
  lemma {:induction false} OtherLineKeeps(lines: seq<Line>, m: nat, k: nat)
    requires m <= k < |lines| && !IsKeyLine(lines[k])
    ensures Levels(lines, m, k + 1) == Levels(lines, m, k)
  {
    if m > 0 {
      OtherLineKeeps(lines, m - 1, k);
      assert Open(lines, m - 1, k + 1) <==> Open(lines, m - 1, k);
    }
  }

  /** The stack after a line: the levels that are open behind it. */
  lemma {:induction false} StackStep(lines: seq<Line>, k: nat)
    requires k < |lines|
    ensures !IsKeyLine(lines[k]) ==> Levels(lines, k + 1, k + 1) == Levels(lines, k, k)
    ensures IsKeyLine(lines[k]) ==>
              var left := Pop(Levels(lines, k, k), lines[k].indent);
              && Keys(left) + [lines[k].key] == PathAt(lines, k)
              && Levels(lines, k + 1, k + 1)
                 == if lines[k].value == [] then left + [Level(lines[k].indent, lines[k].key)] else left
  {
    if IsKeyLine(lines[k]) {
      PopIsEnclosing(lines, k, k);
      KeysAreOuter(lines, k, k);
      hide Pop, Keys, Outer;
    } else {
      OtherLineKeeps(lines, k, k);
    }
  }

  // ----- the fold is what the lines say

  ghost predicate IsSeen(lines: seq<Line>, n: nat, path: seq<Text>)
    requires n <= |lines|
  {
    exists j :: 0 <= j < n && IsKeyLine(lines[j]) && PathAt(lines, j) == path
  }

  /** The paths that the parser remembers are those of the lines with a key. */
  ghost predicate SeenIs(lines: seq<Line>, n: nat, seen: set<seq<Text>>)
    requires n <= |lines|
  {
    forall path :: path in seen <==> IsSeen(lines, n, path)
  }

  ghost predicate EntriesAre(lines: seq<Line>, n: nat, entries: Entries)
    requires n <= |lines|
  {
    && (forall key :: key in entries ==> entries[key] != map[])
    && forall key, field :: Found(entries, key, field) == ValueOf(lines, n, key, field)
  }

  /** The progress of the parser behind the first `n` lines. */
  ghost predicate Reached(lines: seq<Line>, n: nat, p: Progress)
    requires n <= |lines|
  {
    && p.stack == Levels(lines, n, n)
    && SeenIs(lines, n, p.seen)
    && p.problems == Problems(lines, n)
    && EntriesAre(lines, n, p.entries)
  }

  lemma {:induction false} SeenStep(lines: seq<Line>, k: nat, path: seq<Text>)
    requires k < |lines|
    ensures IsSeen(lines, k + 1, path) <==> IsSeen(lines, k, path) || (IsKeyLine(lines[k]) && PathAt(lines, k) == path)
  {
    hide PathAt, IsKeyLine;
    if IsSeen(lines, k, path) {
      var j :| 0 <= j < k && IsKeyLine(lines[j]) && PathAt(lines, j) == path;
      assert IsSeen(lines, k + 1, path);
    }
  }

  lemma {:induction false} PutFound(entries: Entries, key: Text, field: Text, value: Text, k: Text, f: Text)
    ensures Found(Put(entries, key, field, value), k, f)
            == if k == key && f == field then [value] else Found(entries, k, f)
  {
  }

  lemma {:induction false} RequiredIs(field: Text)
    ensures field in RequiredFields() <==> IsRequired(field)
  {
    hide Lit;
  }

  /** What a line that is no key line does. */
  lemma {:induction false} OtherLine(lines: seq<Line>, k: nat, p: Progress)
    requires k < |lines| && Reached(lines, k, p) && !IsKeyLine(lines[k])
    ensures Reached(lines, k + 1, Next(p, k + 1, lines[k]))
  {
    var q := Next(p, k + 1, lines[k]);
    assert q == p.(problems := p.problems + ProblemsAt(lines, k));
    StackStep(lines, k);
    forall path ensures path in q.seen <==> IsSeen(lines, k + 1, path) {
      SeenStep(lines, k, path);
    }
    hide Levels, IsSeen, Next, PathAt;
  }

  function FieldPut(entries: Entries, path: seq<Text>, value: Text): Entries {
    if value != [] && IsField(path) && IsRequired(path[3])
    then Put(entries, ErrorKey(path[1], path[2]), path[3], Quoting.Unquote(value))
    else entries
  }

  /** What a key line does, in terms of the levels that it leaves. */
  lemma {:induction false} KeyLineNext(p: Progress, n: nat, line: Line, left: seq<Level>, path: seq<Text>)
    requires IsKeyLine(line) && left == Pop(p.stack, line.indent) && path == Keys(left) + [line.key]
    ensures var q := Next(p, n, line);
            && q.stack == (if line.value == [] then left + [Level(line.indent, line.key)] else left)
            && q.seen == p.seen + {path}
            && q.problems == p.problems + ((if path in p.seen then [DuplicateKey(n, path)] else [])
                                           + ValueProblems(n, path, line.value))
            && q.entries == FieldPut(p.entries, path, line.value)
  {
    if |path| == 4 {
      RequiredIs(path[3]);
    }
    hide RequiredFields, IsRequired, Pop, Keys, Put, ErrorKey, Quoting.Unquote;
  }

  lemma {:induction false} SeenAfter(lines: seq<Line>, k: nat, seen: set<seq<Text>>)
    requires k < |lines| && IsKeyLine(lines[k])
    requires SeenIs(lines, k, seen)
    ensures SeenIs(lines, k + 1, seen + {PathAt(lines, k)})
    ensures IsRepeated(lines, k) <==> PathAt(lines, k) in seen
  {
    assert IsRepeated(lines, k) <==> IsSeen(lines, k, PathAt(lines, k));
    hide IsSeen, PathAt, IsRepeated;
    forall path ensures path in seen + {PathAt(lines, k)} <==> IsSeen(lines, k + 1, path) {
      SeenStep(lines, k, path);
    }
  }

  lemma {:induction false} PutNotEmpty(entries: Entries, path: seq<Text>, value: Text)
    requires forall key :: key in entries ==> entries[key] != map[]
    ensures forall key :: key in FieldPut(entries, path, value) ==> FieldPut(entries, path, value)[key] != map[]
  {
    hide ErrorKey, IsRequired, Quoting.Unquote;
    if value != [] && IsField(path) && IsRequired(path[3]) {
      assert path[3] in FieldPut(entries, path, value)[ErrorKey(path[1], path[2])];
    }
  }

  lemma {:induction false} FieldAfter(lines: seq<Line>, k: nat, entries: Entries)
    requires k < |lines| && IsKeyLine(lines[k])
    requires EntriesAre(lines, k, entries)
    ensures EntriesAre(lines, k + 1, FieldPut(entries, PathAt(lines, k), lines[k].value))
  {
    var path := PathAt(lines, k);
    PutNotEmpty(entries, path, lines[k].value);
    hide PathAt, Found, Put, Quoting.Unquote, ErrorKey, IsRequired;
    forall key, field
      ensures Found(FieldPut(entries, path, lines[k].value), key, field) == ValueOf(lines, k + 1, key, field) {
      if lines[k].value != [] && IsField(path) && IsRequired(path[3]) {
        PutFound(entries, ErrorKey(path[1], path[2]), path[3], Quoting.Unquote(lines[k].value), key, field);
      }
    }
  }

  lemma {:induction false} KeyLineReached(lines: seq<Line>, k: nat, p: Progress)
    requires k < |lines| && Reached(lines, k, p) && IsKeyLine(lines[k])
    ensures Reached(lines, k + 1, Next(p, k + 1, lines[k]))
  {
    StackStep(lines, k);
    ProblemsAfter(lines, k);
    var q, path := Next(p, k + 1, lines[k]), PathAt(lines, k);
    KeyLineNext(p, k + 1, lines[k], Pop(p.stack, lines[k].indent), path);
    SeenAfter(lines, k, p.seen);
    FieldAfter(lines, k, p.entries);
    hide Next, Levels, PathAt, SeenIs, IsRepeated, ValueProblems, FieldPut, EntriesAre, Pop, Keys, Problems, IsKeyLine;
  }

  lemma {:induction false} ProblemsAfter(lines: seq<Line>, k: nat)
    requires k < |lines| && IsKeyLine(lines[k])
    ensures Problems(lines, k + 1) == Problems(lines, k)
            + ((if IsRepeated(lines, k) then [DuplicateKey(k + 1, PathAt(lines, k))] else [])
               + ValueProblems(k + 1, PathAt(lines, k), lines[k].value))
  {
    hide IsRepeated, PathAt, ValueProblems;
  }

  lemma {:induction false} FollowReaches(lines: seq<Line>, n: nat, p: Progress)
    requires n <= |lines| && Reached(lines, n, p)
    ensures Reached(lines, |lines|, Follow(p, n + 1, lines[n..]))
    decreases |lines| - n
  {
    hide Reached, Next;
    if n < |lines| {
      if IsKeyLine(lines[n]) {
        KeyLineReached(lines, n, p);
      } else {
        OtherLine(lines, n, p);
      }
      assert lines[n..][0] == lines[n] && lines[n..][1..] == lines[n + 1..];
      FollowReaches(lines, n + 1, Next(p, n + 1, lines[n]));
    }
  }

  /**
   The strict parser on any lines: it reports the problems of each line, in order, and reads for each field of each
   message the value of the last line that gives it.
   */
  lemma {:induction false} ParserMeans(lines: seq<Line>)
    ensures var p := Follow(START, 1, lines);
            && p.problems == Problems(lines, |lines|)
            && EntriesAre(lines, |lines|, p.entries)
  {
    hide Follow;
    assert lines[0..] == lines;
    FollowReaches(lines, 0, START);
  }

  // ----- the problems, kind by kind

  lemma {:induction false} ProblemOfSomeLine(lines: seq<Line>, n: nat, problem: Problem)
    requires n <= |lines|
    ensures problem in Problems(lines, n) <==> exists k :: 0 <= k < n && problem in ProblemsAt(lines, k)
  {
    hide ProblemsAt;
    if n > 0 {
      ProblemOfSomeLine(lines, n - 1, problem);
    }
  }

  lemma {:induction false} ProblemOfItsLine(lines: seq<Line>, k: nat, problem: Problem)
    requires k < |lines| && problem in ProblemsAt(lines, k)
    ensures problem.line == k + 1
  {
    hide IsRepeated, PathAt, IsField, IsRequired;
  }

  /** A problem names the line it is found on. */
  lemma {:induction false} ProblemNamesLine(lines: seq<Line>, problem: Problem)
    ensures problem in Problems(lines, |lines|) <==>
            1 <= problem.line <= |lines| && problem in ProblemsAt(lines, problem.line - 1)
  {
    hide ProblemsAt, Problems;
    ProblemOfSomeLine(lines, |lines|, problem);
    if k :| 0 <= k < |lines| && problem in ProblemsAt(lines, k) {
      ProblemOfItsLine(lines, k, problem);
    }
  }

  /**
   The strict parser reports a repeated key exactly for a line whose path is that of an earlier line, and each other
   problem exactly for the lines that have it.
   */
  lemma {:induction false} ProblemsMean(lines: seq<Line>, n: nat, path: seq<Text>, field: Text)
    requires 1 <= n <= |lines|
    ensures var problems, line := Follow(START, 1, lines).problems, lines[n - 1];
            && (OddIndent(n) in problems <==> !line.Ignored? && line.indent % 2 == 1)
            && (NotAMapping(n) in problems <==> line.NoMapping? && line.indent % 2 == 0)
            && (DuplicateKey(n, path) in problems <==>
                && IsKeyLine(line) && PathAt(lines, n - 1) == path
                && exists j :: 0 <= j < n - 1 && IsKeyLine(lines[j]) && PathAt(lines, j) == path)
            && (UnexpectedScalar(n, path) in problems <==>
                && IsKeyLine(line) && line.value != [] && PathAt(lines, n - 1) == path
                && !(|path| == 4 && path[0] == Lit("errors")))
            && (UnsupportedField(n, field) in problems <==>
                && IsKeyLine(line) && line.value != []
                && IsField(PathAt(lines, n - 1)) && PathAt(lines, n - 1)[3] == field && !IsRequired(field))
  {
    ParserMeans(lines);
    ProblemsAtMean(lines, n - 1, path, field);
    hide Follow, Problems, EntriesAre, ProblemsAt, PathAt, IsRequired, IsField, IsKeyLine;
    ProblemNamesLine(lines, OddIndent(n));
    ProblemNamesLine(lines, NotAMapping(n));
    ProblemNamesLine(lines, DuplicateKey(n, path));
    ProblemNamesLine(lines, UnexpectedScalar(n, path));
    ProblemNamesLine(lines, UnsupportedField(n, field));
  }

  lemma {:induction false} ProblemsAtMean(lines: seq<Line>, k: nat, path: seq<Text>, field: Text)
    requires k < |lines|
    ensures var problems, line := ProblemsAt(lines, k), lines[k];
            && (OddIndent(k + 1) in problems <==> !line.Ignored? && line.indent % 2 == 1)
            && (NotAMapping(k + 1) in problems <==> line.NoMapping? && line.indent % 2 == 0)
            && (DuplicateKey(k + 1, path) in problems <==>
                IsKeyLine(line) && PathAt(lines, k) == path && IsRepeated(lines, k))
            && (UnexpectedScalar(k + 1, path) in problems <==>
                IsKeyLine(line) && line.value != [] && PathAt(lines, k) == path && !IsField(path))
            && (UnsupportedField(k + 1, field) in problems <==>
                && IsKeyLine(line) && line.value != []
                && IsField(PathAt(lines, k)) && PathAt(lines, k)[3] == field && !IsRequired(field))
  {
    hide PathAt, IsRepeated, IsRequired;
  }

  /** Every problem is about a line of the file. */
  lemma {:induction false} ProblemsOfLines(lines: seq<Line>, problem: Problem)
    ensures problem in Follow(START, 1, lines).problems ==> 1 <= problem.line <= |lines|
  {
    ParserMeans(lines);
    ProblemNamesLine(lines, problem);
  }

  // ----- what is accepted

  /** Nothing is wrong with a line. */
  predicate IsSound(lines: seq<Line>, k: nat)
    requires k < |lines|
  {
    || lines[k].Ignored?
    || (&& IsKeyLine(lines[k]) && !IsRepeated(lines, k)
        && (lines[k].value != [] ==> IsField(PathAt(lines, k)) && IsRequired(PathAt(lines, k)[3])))
  }

  lemma {:induction false} NoProblems(lines: seq<Line>, n: nat)
    requires n <= |lines|
    ensures Problems(lines, n) == [] <==> forall k :: 0 <= k < n ==> IsSound(lines, k)
  {
    hide IsSound, ProblemsAt;
    if n > 0 {
      NoProblems(lines, n - 1);
      NoProblemAt(lines, n - 1);
      assert |Problems(lines, n)| == |Problems(lines, n - 1)| + |ProblemsAt(lines, n - 1)|;
    }
  }

  lemma {:induction false} NoProblemAt(lines: seq<Line>, k: nat)
    requires k < |lines|
    ensures ProblemsAt(lines, k) == [] <==> IsSound(lines, k)
  {
    if IsKeyLine(lines[k]) {
      var values := ValueProblems(k + 1, PathAt(lines, k), lines[k].value);
      assert |ProblemsAt(lines, k)| == (if IsRepeated(lines, k) then 1 else 0) + |values|;
      hide IsRepeated, PathAt, IsField, IsRequired;
    }
  }

  /** A message that is there gives some field. */
  ghost predicate HasMessage(lines: seq<Line>, key: Text) {
    exists field :: ValueOf(lines, |lines|, key, field) != []
  }

  /** The required field of a message is there and is not blank. */
  predicate HasText(lines: seq<Line>, key: Text, field: Text) {
    var value := ValueOf(lines, |lines|, key, field);
    value != [] && Strip(value[0]) != []
  }

  lemma {:induction false} MessageFound(lines: seq<Line>, entries: Entries, key: Text)
    requires EntriesAre(lines, |lines|, entries)
    ensures key in entries <==> HasMessage(lines, key)
  {
    hide ValueOf;
    if key in entries {
      var field :| field in entries[key];
      assert Found(entries, key, field) != [];
    }
  }

  /** A field is reported as missing or blank exactly when its message is there and it has no text. */
  lemma {:induction false} IncompleteMeans(lines: seq<Line>, key: Text, field: Text)
    ensures (key, field) in Incomplete(Follow(START, 1, lines).entries) <==>
            HasMessage(lines, key) && IsRequired(field) && !HasText(lines, key, field)
  {
    ParserMeans(lines);
    var entries := Follow(START, 1, lines).entries;
    MessageFound(lines, entries, key);
    RequiredIs(field);
    assert Found(entries, key, field) == ValueOf(lines, |lines|, key, field);
    hide Follow, HasMessage, IsRequired, RequiredFields, ValueOf, EntriesAre;
  }

  /**
   A file is accepted exactly when nothing is wrong with any of its lines, their paths are distinct, some message is
   there, and every message has all three fields with a text.
   */
  lemma {:induction false} AcceptedExactly(lines: seq<Line>)
    ensures Result(Follow(START, 1, lines)).Clean() <==>
            && (forall k :: 0 <= k < |lines| ==> IsSound(lines, k))
            && (exists key :: HasMessage(lines, key))
            && forall key, field :: HasMessage(lines, key) && IsRequired(field) ==> HasText(lines, key, field)
  {
    ParserMeans(lines);
    NoProblems(lines, |lines|);
    var p := Follow(START, 1, lines);
    forall key, field
      ensures (key, field) in Incomplete(p.entries) <==>
              HasMessage(lines, key) && IsRequired(field) && !HasText(lines, key, field) {
      IncompleteMeans(lines, key, field);
    }
    forall key ensures key in p.entries <==> HasMessage(lines, key) {
      MessageFound(lines, p.entries, key);
    }
    hide Follow, HasMessage, HasText, IsRequired, EntriesAre, Problems, IsSound;
    NothingIn(p.entries);
  }

  lemma {:induction false} NothingIn(entries: Entries)
    ensures entries != map[] <==> exists key :: key in entries
    ensures Incomplete(entries) == {} <==> forall key, field :: (key, field) !in Incomplete(entries)
  {
    hide Incomplete;
    if pair :| pair in Incomplete(entries) {
      assert (pair.0, pair.1) in Incomplete(entries);
    }
  }

  /** The paths of an accepted file are pairwise distinct. */
  lemma {:induction false} AcceptedDistinct(lines: seq<Line>, j: nat, k: nat)
    requires Result(Follow(START, 1, lines)).Clean()
    requires j < k < |lines| && IsKeyLine(lines[j]) && IsKeyLine(lines[k])
    ensures PathAt(lines, j) != PathAt(lines, k)
  {
    AcceptedExactly(lines);
    hide Follow, PathAt, HasMessage, HasText, IsRequired;
    assert IsSound(lines, k);
  }

  // ----- writing something twice

  lemma {:induction false} SameOuter(lines: seq<Line>, m: nat, j: nat, k: nat)
    requires m <= j < k < |lines| && IsKeyLine(lines[j]) && IsKeyLine(lines[k])
    requires lines[j].indent == lines[k].indent
    requires forall i :: j < i < k && IsKeyLine(lines[i]) ==> lines[j].indent <= lines[i].indent
    ensures Outer(lines, m, j) == Outer(lines, m, k)
  {
    if m > 0 {
      SameOuter(lines, m - 1, j, k);
      assert Encloses(lines, m - 1, j) ==> lines[m - 1].indent < lines[j].indent;
      assert Encloses(lines, m - 1, k) <==> Encloses(lines, m - 1, j);
    }
  }

  lemma {:induction false} NothingBetween(lines: seq<Line>, m: nat, j: nat, k: nat)
    requires j <= m <= k < |lines| && IsKeyLine(lines[k])
    requires forall i :: j <= i < k && IsKeyLine(lines[i]) ==> lines[k].indent <= lines[i].indent
    ensures Outer(lines, m, k) == Outer(lines, j, k)
  {
    if j < m {
      NothingBetween(lines, m - 1, j, k);
      assert !Encloses(lines, m - 1, k);
    }
  }

  /**
   A key that is written again at the same indentation, before the level it stands in is left, is reported: a message
   twice in a scope, a field twice in a message, a scope twice.
   */
  lemma {:induction false} WrittenTwiceIsReported(lines: seq<Line>, j: nat, k: nat)
    requires j < k < |lines| && IsKeyLine(lines[j]) && IsKeyLine(lines[k])
    requires lines[j].indent == lines[k].indent && lines[j].key == lines[k].key
    requires forall i :: j < i < k && IsKeyLine(lines[i]) ==> lines[j].indent <= lines[i].indent
    ensures DuplicateKey(k + 1, PathAt(lines, k)) in Follow(START, 1, lines).problems
    ensures !Result(Follow(START, 1, lines)).Clean()
  {
    SameOuter(lines, j, j, k);
    NothingBetween(lines, k, j, k);
    assert PathAt(lines, j) == PathAt(lines, k);
    hide Follow, PathAt, IsKeyLine;
    ProblemsMean(lines, k + 1, PathAt(lines, k), []);
  }
}
