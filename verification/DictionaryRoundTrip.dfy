/** Every dictionary that is written comes back from the parsers: exactly when no two messages share a joined key. */
module DictionaryRoundTrip {
  import opened Runes
  import opened DictionaryLines
  import opened Quoting
  import opened TextLines
  import opened DictionaryWriter
  import Strict = ErrorDictionary
  import Audit = AuditDictionary

  // ----- the state of the parser at the lines of a written dictionary

  function Root(): seq<Level> {
    [Level(0, Errors())]
  }

  function InScope(scope: Text): seq<Level> {
    [Level(0, Errors()), Level(2, scope)]
  }

  function InMessage(scope: Text, name: Text): seq<Level> {
    [Level(0, Errors()), Level(2, scope), Level(4, name)]
  }

  /** No path below the prefix has been seen. */
  ghost predicate Unseen(seen: set<seq<Text>>, prefix: seq<Text>) {
    forall path :: path in seen ==> !(prefix <= path)
  }

  /** Only paths below the prefix have been added. */
  ghost predicate AddsBelow(before: set<seq<Text>>, after: set<seq<Text>>, prefix: seq<Text>) {
    forall path :: path in after ==> path in before || prefix <= path
  }

  function PutMessage(entries: Entries, scope: Text, m: Message): Entries {
    var key := ErrorKey(scope, m.name);
    Put(Put(Put(entries, key, Lit("title"), m.title), key, Lit("detail"), m.detail),
        key, Lit("remediation"), m.remediation)
  }

  function PutMessages(entries: Entries, scope: Text, ms: seq<Message>): Entries
    decreases |ms|
  {
    if ms == [] then entries else PutMessages(PutMessage(entries, scope, ms[0]), scope, ms[1..])
  }

  function PutScopes(entries: Entries, d: seq<Scope>): Entries
    decreases |d|
  {
    if d == [] then entries else PutScopes(PutMessages(entries, d[0].name, d[0].messages), d[1..])
  }

  lemma {:induction false} FollowConcat(p: Strict.Progress, n: nat, a: seq<Line>, b: seq<Line>)
    ensures Strict.Follow(p, n, a + b) == Strict.Follow(Strict.Follow(p, n, a), n + |a|, b)
    decreases |a|
  {
    hide Strict.Next;
    if a == [] {
      assert a + b == b;
    } else {
      assert (a + b)[1..] == a[1..] + b;
      FollowConcat(Strict.Next(p, n, a[0]), n + 1, a[1..], b);
    }
  }

  lemma {:induction false} FollowOne(p: Strict.Progress, n: nat, line: Line)
    ensures Strict.Follow(p, n, [line]) == Strict.Next(p, n, line)
  {
    hide Strict.Next;
    assert [line][1..] == [];
  }

  /** A key without a value, at the level below the ones it is nested in. */
  lemma {:induction false} KeyStep(p: Strict.Progress, n: nat, indent: nat, key: Text, kept: seq<Level>)
    requires indent % 2 == 0 && p.problems == [] && Pop(p.stack, indent) == kept
    requires Keys(kept) + [key] !in p.seen
    ensures Strict.Next(p, n, Mapping(indent, key, []))
            == Strict.Progress(kept + [Level(indent, key)], p.seen + {Keys(kept) + [key]}, p.entries, [])
  {
  }

  lemma {:induction false} MessagePath(scope: Text, name: Text)
    ensures Keys(InMessage(scope, name)) == [Errors(), scope, name]
    ensures Keys(InScope(scope)) == [Errors(), scope] && Keys(Root()) == [Errors()]
    ensures Pop(InMessage(scope, name), 6) == InMessage(scope, name)
    ensures Pop(InMessage(scope, name), 4) == InScope(scope) && Pop(InMessage(scope, name), 2) == Root()
    ensures Pop(InScope(scope), 4) == InScope(scope) && Pop(InScope(scope), 2) == Root() && Pop(Root(), 2) == Root()
  {
    hide Errors;
    var m, s := InMessage(scope, name), InScope(scope);
    assert m[..2] == s && s[..1] == Root();
    assert Pop(s, 2) == Root();
  }

  lemma {:induction false} FieldStep(p: Strict.Progress, n: nat, scope: Text, name: Text, field: Text, value: Text)
    requires p.stack == InMessage(scope, name) && p.problems == []
    requires field in Strict.RequiredFields() && [Errors(), scope, name, field] !in p.seen
    ensures Strict.Next(p, n, Mapping(6, field, Quote(value, DOUBLE)))
            == Strict.Progress(p.stack, p.seen + {[Errors(), scope, name, field]},
                               Put(p.entries, ErrorKey(scope, name), field, value), [])
  {
    UnquoteInvertsQuote(value, DOUBLE);
    MessagePath(scope, name);
    hide Strict.RequiredFields, Unquote, Escape, Put, ErrorKey, Pop, Keys, InMessage;
    assert [Errors(), scope, name] + [field] == [Errors(), scope, name, field];
  }

  /** The four lines of a message that has not been seen. */
  lemma {:induction false} MessageFollowed(p: Strict.Progress, n: nat, scope: Text, m: Message)
    requires Pop(p.stack, 4) == InScope(scope) && p.problems == []
    requires Unseen(p.seen, [Errors(), scope, m.name])
    ensures var q := Strict.Follow(p, n, MessageLines(m));
            && q.stack == InMessage(scope, m.name) && q.problems == [] && q.entries == PutMessage(p.entries, scope, m)
            && AddsBelow(p.seen, q.seen, [Errors(), scope, m.name])
  {
    var title, detail, remediation := Lit("title"), Lit("detail"), Lit("remediation");
    FieldsDiffer();
    MessagePath(scope, m.name);
    hide Lit, Quote, Put, ErrorKey, Pop, Keys, Strict.Next, Errors, Strict.RequiredFields, PutMessage, AddsBelow;
    var path := [Errors(), scope, m.name];
    var a, b, c := path + [title], path + [detail], path + [remediation];
    assert InScope(scope) + [Level(4, m.name)] == InMessage(scope, m.name);
    assert [Errors(), scope] + [m.name] == path;
    KeyStep(p, n, 4, m.name, InScope(scope));
    var p1 := Strict.Next(p, n, Mapping(4, m.name, []));
    FieldStep(p1, n + 1, scope, m.name, title, m.title);
    var p2 := Strict.Next(p1, n + 1, Mapping(6, title, Quote(m.title, DOUBLE)));
    FieldStep(p2, n + 2, scope, m.name, detail, m.detail);
    var p3 := Strict.Next(p2, n + 2, Mapping(6, detail, Quote(m.detail, DOUBLE)));
    FieldStep(p3, n + 3, scope, m.name, remediation, m.remediation);
    var p4 := Strict.Next(p3, n + 3, Mapping(6, remediation, Quote(m.remediation, DOUBLE)));
    FourLines(p, n, Mapping(4, m.name, []), Mapping(6, title, Quote(m.title, DOUBLE)),
              Mapping(6, detail, Quote(m.detail, DOUBLE)), Mapping(6, remediation, Quote(m.remediation, DOUBLE)));
    MessagePut(p.entries, scope, m);
    assert a == [Errors(), scope, m.name, title] && b == [Errors(), scope, m.name, detail];
    assert c == [Errors(), scope, m.name, remediation];
    FourPaths(p.seen, path, a, b, c);
  }

  lemma {:induction false} MessagePut(entries: Entries, scope: Text, m: Message)
    ensures PutMessage(entries, scope, m)
            == Put(Put(Put(entries, ErrorKey(scope, m.name), Lit("title"), m.title), ErrorKey(scope, m.name),
                   Lit("detail"), m.detail), ErrorKey(scope, m.name), Lit("remediation"), m.remediation)
  {
    hide Put, ErrorKey, Lit;
  }

  lemma {:induction false} FourPaths(seen: set<seq<Text>>, path: seq<Text>, a: seq<Text>, b: seq<Text>, c: seq<Text>)
    requires path <= a && path <= b && path <= c
    ensures AddsBelow(seen, seen + {path} + {a} + {b} + {c}, path)
  {
  }

  lemma {:induction false} FourLines(p: Strict.Progress, n: nat, a: Line, b: Line, c: Line, d: Line)
    ensures Strict.Follow(p, n, [a, b, c, d])
            == Strict.Next(Strict.Next(Strict.Next(Strict.Next(p, n, a), n + 1, b), n + 2, c), n + 3, d)
  {
    hide Strict.Next;
    assert [a, b, c, d] == [a] + ([b] + ([c] + [d]));
    FollowConcat(p, n, [a], [b] + ([c] + [d]));
    FollowOne(p, n, a);
    var p1 := Strict.Next(p, n, a);
    FollowConcat(p1, n + 1, [b], [c] + [d]);
    FollowOne(p1, n + 1, b);
    var p2 := Strict.Next(p1, n + 1, b);
    FollowConcat(p2, n + 2, [c], [d]);
    FollowOne(p2, n + 2, c);
    FollowOne(Strict.Next(p2, n + 2, c), n + 3, d);
    hide Strict.Follow;
  }

  lemma {:induction false} FieldsDiffer()
    ensures Lit("title") in Strict.RequiredFields() && Lit("detail") in Strict.RequiredFields()
    ensures Lit("remediation") in Strict.RequiredFields()
    ensures Lit("title") != Lit("detail") && Lit("title") != Lit("remediation") && Lit("detail") != Lit("remediation")
  {
    assert |Lit("title")| == 5 && |Lit("detail")| == 6 && |Lit("remediation")| == 11;
  }

  /** What is below one message is not below another one of the scope. */
  lemma {:induction false} OtherMessage(before: set<seq<Text>>, after: set<seq<Text>>, scope: Text, name: Text,
      other: Text)
    requires AddsBelow(before, after, [Errors(), scope, name]) && Unseen(before, [Errors(), scope, other])
             && name != other
    ensures Unseen(after, [Errors(), scope, other])
  {
    hide Errors;
    forall path | path in after && [Errors(), scope, name] <= path ensures !([Errors(), scope, other] <= path) {
      assert path[2] == [Errors(), scope, name][2];
    }
  }

  lemma {:induction false} AddsBelowScope(a: set<seq<Text>>, b: set<seq<Text>>, c: set<seq<Text>>, scope: Text,
      name: Text)
    requires AddsBelow(a, b, [Errors(), scope, name]) && AddsBelow(b, c, [Errors(), scope])
    ensures AddsBelow(a, c, [Errors(), scope])
  {
    hide Errors;
    forall path | path in c ensures path in a || [Errors(), scope] <= path {
      ShorterPrefix(path, scope, name);
    }
  }

  ghost predicate AllUnseen(seen: set<seq<Text>>, scope: Text, ms: seq<Message>) {
    forall i :: 0 <= i < |ms| ==> Unseen(seen, [Errors(), scope, ms[i].name])
  }

  /** After its first message, the other messages of a scope are still unseen. */
  lemma {:induction false} RestUnseen(before: set<seq<Text>>, after: set<seq<Text>>, scope: Text, ms: seq<Message>)
    requires ms != [] && DistinctMessages(ms) && AllUnseen(before, scope, ms)
    requires AddsBelow(before, after, [Errors(), scope, ms[0].name])
    ensures DistinctMessages(ms[1..]) && AllUnseen(after, scope, ms[1..])
  {
    hide Errors, Unseen, AddsBelow;
    forall i | 0 <= i < |ms[1..]| ensures Unseen(after, [Errors(), scope, ms[1..][i].name]) {
      assert ms[1..][i] == ms[i + 1];
      OtherMessage(before, after, scope, ms[0].name, ms[i + 1].name);
    }
  }

  lemma {:induction false} FirstUnseen(seen: set<seq<Text>>, scope: Text, ms: seq<Message>)
    requires ms != [] && AllUnseen(seen, scope, ms)
    ensures Unseen(seen, [Errors(), scope, ms[0].name])
  {
    hide Errors, Unseen;
  }

  /** The lines of the messages of a scope. */
  lemma {:induction false} MessagesFollowed(p: Strict.Progress, n: nat, scope: Text, ms: seq<Message>)
    requires Pop(p.stack, 4) == InScope(scope) && Pop(p.stack, 2) == Root() && p.problems == []
    requires DistinctMessages(ms) && AllUnseen(p.seen, scope, ms)
    ensures var q := Strict.Follow(p, n, MessagesLines(ms));
            && Pop(q.stack, 2) == Root() && q.problems == [] && q.entries == PutMessages(p.entries, scope, ms)
            && AddsBelow(p.seen, q.seen, [Errors(), scope])
    decreases |ms|
  {
    hide MessageLines, PutMessage, Pop, Errors, Unseen, AddsBelow, Strict.Next, AllUnseen, DistinctMessages, InScope,
         InMessage, Root;
    if ms == [] {
      NothingAdded(p.seen, [Errors(), scope]);
    } else {
      var m, rest, lines := ms[0], ms[1..], MessageLines(ms[0]);
      FirstUnseen(p.seen, scope, ms);
      MessageFollowed(p, n, scope, m);
      var q := Strict.Follow(p, n, lines);
      MessagePath(scope, m.name);
      RestUnseen(p.seen, q.seen, scope, ms);
      MessagesFollowed(q, n + |lines|, scope, rest);
      FollowConcat(p, n, lines, MessagesLines(rest));
      hide Strict.Follow;
      AddsBelowScope(p.seen, q.seen, Strict.Follow(q, n + |lines|, MessagesLines(rest)).seen, scope, m.name);
    }
  }

  lemma {:induction false} NothingAdded(seen: set<seq<Text>>, prefix: seq<Text>)
    ensures AddsBelow(seen, seen, prefix)
  {
  }

  ghost predicate ScopesUnseen(seen: set<seq<Text>>, d: seq<Scope>) {
    forall i :: 0 <= i < |d| ==> Unseen(seen, [Errors(), d[i].name])
  }

  /** The lines of one scope. */
  lemma {:induction false} ScopeFollowed(p: Strict.Progress, n: nat, s: Scope)
    requires Pop(p.stack, 2) == Root() && p.problems == []
    requires DistinctMessages(s.messages) && Unseen(p.seen, [Errors(), s.name])
    ensures var q := Strict.Follow(p, n, [Mapping(2, s.name, [])] + MessagesLines(s.messages));
            && Pop(q.stack, 2) == Root() && q.problems == [] && q.entries == PutMessages(p.entries, s.name, s.messages)
            && AddsBelow(p.seen, q.seen, [Errors(), s.name])
  {
    var head := Mapping(2, s.name, []);
    MessagePath(s.name, []);
    SeesScope(p.seen, s.name, s.messages);
    hide MessagesLines, Pop, Errors, AddsBelow, Strict.Next, Keys, PutMessages, AllUnseen;
    assert [Errors()] + [s.name] == [Errors(), s.name];
    KeyStep(p, n, 2, s.name, Root());
    FollowOne(p, n, head);
    var q := Strict.Next(p, n, head);
    assert Root() + [Level(2, s.name)] == InScope(s.name);
    MessagesFollowed(q, n + 1, s.name, s.messages);
    FollowConcat(p, n, [head], MessagesLines(s.messages));
    AddsOneMore(p.seen, Strict.Follow(q, n + 1, MessagesLines(s.messages)).seen, [Errors(), s.name]);
  }

  lemma {:induction false} AddsOneMore(before: set<seq<Text>>, after: set<seq<Text>>, prefix: seq<Text>)
    requires AddsBelow(before + {prefix}, after, prefix)
    ensures AddsBelow(before, after, prefix)
  {
  }

  /** Once only the path of a new scope has been added, none of its messages has been seen. */
  lemma {:induction false} SeesScope(seen: set<seq<Text>>, scope: Text, ms: seq<Message>)
    requires Unseen(seen, [Errors(), scope])
    ensures AllUnseen(seen + {[Errors(), scope]}, scope, ms)
  {
    hide Errors;
    forall path, name: Text | path in seen ensures !([Errors(), scope, name] <= path) {
      ShorterPrefix(path, scope, name);
    }
    assert |[Errors(), scope]| == 2;
  }

  lemma {:induction false} ShorterPrefix(path: seq<Text>, scope: Text, name: Text)
    ensures [Errors(), scope, name] <= path ==> [Errors(), scope] <= path
  {
    hide Errors;
    assert [Errors(), scope, name][..2] == [Errors(), scope];
  }

  lemma {:induction false} OtherScope(before: set<seq<Text>>, after: set<seq<Text>>, name: Text, other: Text)
    requires AddsBelow(before, after, [Errors(), name]) && Unseen(before, [Errors(), other]) && name != other
    ensures Unseen(after, [Errors(), other])
  {
    hide Errors;
    forall path | path in after && [Errors(), name] <= path ensures !([Errors(), other] <= path) {
      assert path[1] == [Errors(), name][1];
    }
  }

  lemma {:induction false} ScopesFollowed(p: Strict.Progress, n: nat, d: seq<Scope>)
    requires Pop(p.stack, 2) == Root() && p.problems == []
    requires ValidDictionary(d) && ScopesUnseen(p.seen, d)
    ensures var q := Strict.Follow(p, n, ScopesLines(d)); q.problems == [] && q.entries == PutScopes(p.entries, d)
    decreases |d|
  {
    hide MessagesLines, Pop, Errors, Unseen, AddsBelow, Strict.Next, PutMessages, ValidKey, ValidMessages,
         DistinctMessages;
    if d != [] {
      var s, rest := d[0], d[1..];
      var lines := [Mapping(2, s.name, [])] + MessagesLines(s.messages);
      ScopeFollowed(p, n, s);
      var q := Strict.Follow(p, n, lines);
      forall i | 0 <= i < |rest| ensures Unseen(q.seen, [Errors(), rest[i].name]) {
        assert rest[i] == d[i + 1];
        OtherScope(p.seen, q.seen, s.name, rest[i].name);
      }
      ScopesFollowed(q, n + |lines|, rest);
      FollowConcat(p, n, lines, ScopesLines(rest));
    }
  }

  /** The strict parser reads every written dictionary without a problem, and puts its messages one after the other. */
  lemma {:induction false} WrittenIsRead(d: seq<Scope>)
    requires ValidDictionary(d) && NoLineBreaks(d)
    ensures var p := Strict.Follow(Strict.START, 1, Strict.FileLines(FileText(d)));
            p.problems == [] && p.entries == PutScopes(map[], d)
  {
    ReadFileText(d);
    RootStep();
    NothingSeen(d);
    hide ScopesLines, FileText, Strict.FileLines, NoLineBreaks, Strict.Next, Errors, PutScopes, ValidDictionary, Pop,
         ScopesUnseen;
    var head := Mapping(0, Errors(), []);
    FollowOne(Strict.START, 1, head);
    FollowConcat(Strict.START, 1, [head], ScopesLines(d));
    ScopesFollowed(Strict.Next(Strict.START, 1, head), 2, d);
  }

  lemma {:induction false} RootStep()
    ensures Strict.Next(Strict.START, 1, Mapping(0, Errors(), [])) == Strict.Progress(Root(), {[Errors()]}, map[], [])
    ensures Pop(Root(), 2) == Root()
  {
    hide Errors;
    assert Pop([], 0) == [] && Keys([]) == [];
    assert Root() == [] + [Level(0, Errors())] && [] + [Errors()] == [Errors()];
    assert {} + {[Errors()]} == {[Errors()]};
    hide Strict.Next, Keys;
    KeyStep(Strict.START, 1, 0, Errors(), []);
  }

  lemma {:induction false} NothingSeen(d: seq<Scope>)
    ensures ScopesUnseen({[Errors()]}, d)
  {
    hide Errors;
  }

  // ----- what the entries are

  function Fields(m: Message): map<Text, Text> {
    map[Lit("title") := m.title, Lit("detail") := m.detail, Lit("remediation") := m.remediation]
  }

  /** The joined keys and the messages, in the order of the file. */
  function MessagePairs(scope: Text, ms: seq<Message>): seq<(Text, Message)> {
    if ms == [] then [] else [(ErrorKey(scope, ms[0].name), ms[0])] + MessagePairs(scope, ms[1..])
  }

  function Pairs(d: seq<Scope>): seq<(Text, Message)> {
    if d == [] then [] else MessagePairs(d[0].name, d[0].messages) + Pairs(d[1..])
  }

  /** The messages entered one after the other: a later one replaces an earlier one with the same joined key. */
  function Enter(entries: Entries, pairs: seq<(Text, Message)>): Entries
    decreases |pairs|
  {
    if pairs == [] then entries else Enter(entries[pairs[0].0 := Fields(pairs[0].1)], pairs[1..])
  }

  predicate OnlyRequired(entries: Entries) {
    forall key :: key in entries ==> entries[key].Keys <= Strict.RequiredFields()
  }

  lemma {:induction false} FieldsComplete(m: Message)
    ensures Fields(m).Keys == Strict.RequiredFields()
  {
    hide Lit;
  }

  lemma {:induction false} PutIsEnter(entries: Entries, scope: Text, m: Message)
    requires OnlyRequired(entries)
    ensures PutMessage(entries, scope, m) == entries[ErrorKey(scope, m.name) := Fields(m)]
    ensures OnlyRequired(PutMessage(entries, scope, m))
  {
    FieldsComplete(m);
    FieldsDiffer();
    MessagePut(entries, scope, m);
    var key := ErrorKey(scope, m.name);
    var fields := if key in entries then entries[key] else map[];
    hide Lit, ErrorKey, PutMessage;
    assert fields.Keys <= {Lit("title"), Lit("detail"), Lit("remediation")};
    assert fields[Lit("title") := m.title][Lit("detail") := m.detail][Lit("remediation") := m.remediation] == Fields(m);
  }

  lemma {:induction false} MessagesEntered(entries: Entries, scope: Text, ms: seq<Message>)
    requires OnlyRequired(entries)
    ensures PutMessages(entries, scope, ms) == Enter(entries, MessagePairs(scope, ms))
    ensures OnlyRequired(PutMessages(entries, scope, ms))
    decreases |ms|
  {
    hide PutMessage, OnlyRequired, Fields, ErrorKey;
    if ms != [] {
      PutIsEnter(entries, scope, ms[0]);
      MessagesEntered(PutMessage(entries, scope, ms[0]), scope, ms[1..]);
      assert MessagePairs(scope, ms)[1..] == MessagePairs(scope, ms[1..]);
    }
  }

  lemma {:induction false} EnterConcat(entries: Entries, a: seq<(Text, Message)>, b: seq<(Text, Message)>)
    ensures Enter(entries, a + b) == Enter(Enter(entries, a), b)
    decreases |a|
  {
    hide Fields;
    if a == [] {
      assert a + b == b;
    } else {
      assert (a + b)[1..] == a[1..] + b;
      EnterConcat(entries[a[0].0 := Fields(a[0].1)], a[1..], b);
    }
  }

  lemma {:induction false} ScopesEntered(entries: Entries, d: seq<Scope>)
    requires OnlyRequired(entries)
    ensures PutScopes(entries, d) == Enter(entries, Pairs(d))
    decreases |d|
  {
    hide OnlyRequired, PutMessages, MessagePairs, Enter;
    if d == [] {
      NothingEntered(entries);
    } else {
      MessagesEntered(entries, d[0].name, d[0].messages);
      ScopesEntered(PutMessages(entries, d[0].name, d[0].messages), d[1..]);
      EnterConcat(entries, MessagePairs(d[0].name, d[0].messages), Pairs(d[1..]));
    }
  }

  lemma {:induction false} NothingEntered(entries: Entries)
    ensures Enter(entries, []) == entries
  {
  }

  /** No two messages with one joined key say different things. */
  predicate NoConflict(pairs: seq<(Text, Message)>) {
    forall i, j :: 0 <= i < j < |pairs| && pairs[i].0 == pairs[j].0 ==> Fields(pairs[i].1) == Fields(pairs[j].1)
  }

  predicate ComesBack(entries: Entries, pair: (Text, Message)) {
    pair.0 in entries && entries[pair.0] == Fields(pair.1)
  }

  /** Entering messages leaves the others, and enters only them. */
  lemma {:induction false} EnteredKeys(entries: Entries, pairs: seq<(Text, Message)>, key: Text)
    ensures (forall i :: 0 <= i < |pairs| ==> pairs[i].0 != key) ==>
              && (key in Enter(entries, pairs) <==> key in entries)
              && (key in entries ==> Enter(entries, pairs)[key] == entries[key])
    ensures key in Enter(entries, pairs) ==> key in entries || exists i :: 0 <= i < |pairs| && pairs[i].0 == key
    decreases |pairs|
  {
    hide Fields;
    if pairs != [] {
      EnteredKeys(entries[pairs[0].0 := Fields(pairs[0].1)], pairs[1..], key);
      assert forall i :: 0 <= i < |pairs| - 1 ==> pairs[1..][i] == pairs[i + 1];
    }
  }

  lemma {:induction false} AllComeBack(entries: Entries, pairs: seq<(Text, Message)>)
    requires NoConflict(pairs)
    ensures forall i :: 0 <= i < |pairs| ==> ComesBack(Enter(entries, pairs), pairs[i])
    decreases |pairs|
  {
    hide Fields;
    if pairs != [] {
      var rest, next := pairs[1..], entries[pairs[0].0 := Fields(pairs[0].1)];
      assert forall i :: 0 <= i < |rest| ==> rest[i] == pairs[i + 1];
      AllComeBack(next, rest);
      EnteredKeys(next, rest, pairs[0].0);
      var after := Enter(next, rest);
      if i :| 0 <= i < |rest| && rest[i].0 == pairs[0].0 {
        assert ComesBack(after, rest[i]);
      }
      forall i | 0 <= i < |pairs| ensures ComesBack(after, pairs[i]) {
        if i > 0 {
          assert rest[i - 1] == pairs[i];
        }
      }
    }
  }

  /** Every entry is one of the messages. */
  lemma {:induction false} EntriesAreMessages(entries: Entries, pairs: seq<(Text, Message)>, key: Text)
    ensures key in Enter(entries, pairs) ==>
              || (key in entries && Enter(entries, pairs)[key] == entries[key])
              || exists i :: 0 <= i < |pairs| && pairs[i].0 == key && Enter(entries, pairs)[key] == Fields(pairs[i].1)
    decreases |pairs|
  {
    hide Fields;
    if pairs != [] {
      EntriesAreMessages(entries[pairs[0].0 := Fields(pairs[0].1)], pairs[1..], key);
      assert forall i :: 0 <= i < |pairs| - 1 ==> pairs[1..][i] == pairs[i + 1];
    }
  }

  predicate NonBlank(m: Message) {
    Strip(m.title) != [] && Strip(m.detail) != [] && Strip(m.remediation) != []
  }

  predicate AllNonBlank(pairs: seq<(Text, Message)>) {
    forall i :: 0 <= i < |pairs| ==> NonBlank(pairs[i].1)
  }

  lemma {:induction false} NothingIncomplete(pairs: seq<(Text, Message)>)
    requires AllNonBlank(pairs)
    ensures Strict.Incomplete(Enter(map[], pairs)) == {}
    ensures pairs != [] ==> Enter(map[], pairs) != map[]
  {
    var entries := Enter(map[], pairs);
    forall key, field | key in entries && field in Strict.RequiredFields()
      ensures field in entries[key] && Strip(entries[key][field]) != []
    {
      EntriesAreMessages(map[], pairs, key);
      var i :| 0 <= i < |pairs| && pairs[i].0 == key && entries[key] == Fields(pairs[i].1);
      FieldIsNonBlank(pairs[i].1, field);
    }
    if pairs != [] {
      LastComesBack(map[], pairs);
    }
  }

  lemma {:induction false} FieldIsNonBlank(m: Message, field: Text)
    requires NonBlank(m) && field in Strict.RequiredFields()
    ensures field in Fields(m) && Strip(Fields(m)[field]) != []
  {
    FieldsComplete(m);
    FieldsDiffer();
    hide Lit, Strip;
  }

  lemma {:induction false} LastComesBack(entries: Entries, pairs: seq<(Text, Message)>)
    requires pairs != []
    ensures pairs[|pairs| - 1].0 in Enter(entries, pairs)
    decreases |pairs|
  {
    hide Fields;
    if |pairs| > 1 {
      LastComesBack(entries[pairs[0].0 := Fields(pairs[0].1)], pairs[1..]);
    } else {
      NothingEntered(entries[pairs[0].0 := Fields(pairs[0].1)]);
    }
  }

  /**
   A dictionary written to a file, with some message, no blank text and no line break in a key or text, is accepted,
   both parsers read the same from it, and every message comes back exactly when no two messages with one joined key
   say different things.
   */
  lemma {:induction false} WrittenComesBack(d: seq<Scope>)
    requires ValidDictionary(d) && NoLineBreaks(d) && Pairs(d) != [] && AllNonBlank(Pairs(d))
    ensures var lines := Strict.FileLines(FileText(d));
            var result := Strict.Result(Strict.Follow(Strict.START, 1, lines));
            && result.Clean() && Audit.Follow(Audit.START, lines).entries == result.entries
            && ((forall i :: 0 <= i < |Pairs(d)| ==> ComesBack(result.entries, Pairs(d)[i])) <==> NoConflict(Pairs(d)))
  {
    hide ValidDictionary, Pairs, AllNonBlank, Strict.Follow, Audit.Follow, PutScopes, Enter, Fields, Strict.Incomplete,
         FileText, Strict.FileLines, NoLineBreaks;
    var pairs := Pairs(d);
    WrittenIsRead(d);
    NothingPut();
    ScopesEntered(map[], d);
    NothingIncomplete(pairs);
    Audit.CleanDictionariesAgree(FileText(d));
    if NoConflict(pairs) {
      AllComeBack(map[], pairs);
    } else {
      var entries := Enter(map[], pairs);
      var i, j :| 0 <= i < j < |pairs| && pairs[i].0 == pairs[j].0 && Fields(pairs[i].1) != Fields(pairs[j].1);
      assert !(ComesBack(entries, pairs[i]) && ComesBack(entries, pairs[j]));
    }
  }

  lemma {:induction false} NothingPut()
    ensures OnlyRequired(map[])
  {
  }

  // ----- dots in keys

  const DOT: Rune := 0x2E

  /** The scope can be told from a joined key when it holds no dot. */
  lemma {:induction false} KeyInjective(scope: Text, name: Text, otherScope: Text, otherName: Text)
    requires DOT !in scope && DOT !in otherScope
    requires ErrorKey(scope, name) == ErrorKey(otherScope, otherName)
    ensures scope == otherScope && name == otherName
  {
    var head := Lit("errors.");
    var a, b := scope + Lit(".") + name, otherScope + Lit(".") + otherName;
    assert ErrorKey(scope, name) == head + a && ErrorKey(otherScope, otherName) == head + b;
    assert a == (head + a)[|head|..] && b == (head + b)[|head|..];
    hide ErrorKey;
    SplitAtDot(scope, name);
    SplitAtDot(otherScope, otherName);
  }

  function DotAt(t: Text): nat {
    if t == [] || t[0] == DOT then 0 else 1 + DotAt(t[1..])
  }

  lemma {:induction false} SplitAtDot(scope: Text, name: Text)
    requires DOT !in scope
    ensures var t := scope + Lit(".") + name; DotAt(t) == |scope| && t[..|scope|] == scope && t[|scope| + 1..] == name
  {
    var t := scope + Lit(".") + name;
    assert t[|scope|] == DOT;
    if scope != [] {
      SplitAtDot(scope[1..], name);
      assert t[1..] == scope[1..] + Lit(".") + name;
    }
  }

  predicate DistinctKeys(pairs: seq<(Text, Message)>) {
    forall i, j :: 0 <= i < j < |pairs| ==> pairs[i].0 != pairs[j].0
  }

  predicate DotFreeScopes(d: seq<Scope>) {
    forall i :: 0 <= i < |d| ==> DOT !in d[i].name
  }

  lemma {:induction false} MessageKeys(scope: Text, ms: seq<Message>)
    ensures |MessagePairs(scope, ms)| == |ms|
    ensures forall i :: 0 <= i < |ms| ==> MessagePairs(scope, ms)[i] == (ErrorKey(scope, ms[i].name), ms[i])
  {
    hide ErrorKey;
    if ms != [] {
      MessageKeys(scope, ms[1..]);
    }
  }

  lemma {:induction false} PairOrigin(d: seq<Scope>, i: nat) returns (k: nat, name: Text)
    requires i < |Pairs(d)|
    ensures k < |d| && Pairs(d)[i].0 == ErrorKey(d[k].name, name)
  {
    hide ErrorKey, MessagePairs;
    var first := MessagePairs(d[0].name, d[0].messages);
    MessageKeys(d[0].name, d[0].messages);
    if i < |first| {
      k, name := 0, d[0].messages[i].name;
    } else {
      k, name := PairOrigin(d[1..], i - |first|);
      k := k + 1;
    }
  }

  /** With no dot in a scope, no two messages share a joined key, so every message comes back. */
  lemma {:induction false} DotFreeComesBack(d: seq<Scope>)
    requires ValidDictionary(d) && DotFreeScopes(d)
    ensures DistinctKeys(Pairs(d))
  {
    hide ErrorKey, MessagePairs, ValidKey, ValidMessages;
    if d != [] {
      var first, rest := MessagePairs(d[0].name, d[0].messages), Pairs(d[1..]);
      DotFreeComesBack(d[1..]);
      MessageKeys(d[0].name, d[0].messages);
      var all: seq<(Text, Message)> := first + rest;
      forall i, j | 0 <= i < j < |all| ensures all[i].0 != all[j].0 {
        if j < |first| {
          if first[i].0 == first[j].0 {
            KeyInjective(d[0].name, d[0].messages[i].name, d[0].name, d[0].messages[j].name);
          }
        } else if i < |first| {
          var k, name := PairOrigin(d[1..], j - |first|);
          if first[i].0 == rest[j - |first|].0 {
            KeyInjective(d[0].name, d[0].messages[i].name, d[1..][k].name, name);
          }
        }
      }
    }
  }

  function SameText(name: Text, text: Text): Message {
    Message(name, text, text, text)
  }

  lemma {:induction false} SameTextFields(name: Text, text: Text)
    ensures Lit("title") in Fields(SameText(name, text)) && Fields(SameText(name, text))[Lit("title")] == text
  {
    FieldsDiffer();
    hide Lit;
  }

  /** Two scopes with one message each. */
  function TwoScopes(scope: Text, name: Text, text: Text, otherScope: Text, otherName: Text,
      otherText: Text): seq<Scope> {
    [Scope(scope, [SameText(name, text)]), Scope(otherScope, [SameText(otherName, otherText)])]
  }

  /** Messages with one joined key and different texts are in conflict; nothing in the format forbids them. */
  lemma {:induction false} SharedKeyConflicts(scope: Text, name: Text, text: Text, otherScope: Text, otherName: Text,
      otherText: Text)
    requires ValidKey(scope) && ValidKey(name) && ValidKey(otherScope) && ValidKey(otherName) && scope != otherScope
    requires ErrorKey(scope, name) == ErrorKey(otherScope, otherName) && text != otherText
    ensures ValidDictionary(TwoScopes(scope, name, text, otherScope, otherName, otherText))
    ensures !NoConflict(Pairs(TwoScopes(scope, name, text, otherScope, otherName, otherText)))
  {
    SameTextFields(name, text);
    SameTextFields(otherName, otherText);
    hide ValidKey, ErrorKey, Fields, Pairs;
    var first, second := SameText(name, text), SameText(otherName, otherText);
    var d := TwoScopes(scope, name, text, otherScope, otherName, otherText);
    PairsOfTwo(Scope(scope, [first]), Scope(otherScope, [second]));
    var pairs := Pairs(d);
    assert pairs == [(ErrorKey(scope, name), first), (ErrorKey(otherScope, otherName), second)];
    assert Fields(first) != Fields(second);
    assert pairs[0].0 == pairs[1].0 && Fields(pairs[0].1) != Fields(pairs[1].1);
  }

  lemma {:induction false} PairsOfTwo(a: Scope, b: Scope)
    requires |a.messages| == 1 && |b.messages| == 1
    ensures Pairs([a, b]) == [(ErrorKey(a.name, a.messages[0].name), a.messages[0]),
                              (ErrorKey(b.name, b.messages[0].name), b.messages[0])]
  {
    MessageKeys(a.name, a.messages);
    MessageKeys(b.name, b.messages);
    hide ErrorKey, MessagePairs;
    assert [a, b][1..] == [b] && [b][1..] == [];
    assert Pairs([]) == [];
    assert Pairs([b]) == MessagePairs(b.name, b.messages) + Pairs([]);
  }

  /** With a dot it can happen: scope `a.b` with message `c`, and scope `a` with message `b.c`. */
  lemma {:induction false} DottedKeysCollide()
    ensures var d := TwoScopes(Lit("a.b"), Lit("c"), Lit("x"), Lit("a"), Lit("b.c"), Lit("y"));
            ValidDictionary(d) && !NoConflict(Pairs(d))
  {
    hide ErrorKey, ValidKey, ValidDictionary, NoConflict, Pairs, TwoScopes, Lit;
    SameKey();
    DottedKeysValid();
    SharedKeyConflicts(Lit("a.b"), Lit("c"), Lit("x"), Lit("a"), Lit("b.c"), Lit("y"));
  }

  lemma {:induction false} DottedKeysValid()
    ensures ValidKey(Lit("a.b")) && ValidKey(Lit("c")) && ValidKey(Lit("a")) && ValidKey(Lit("b.c"))
    ensures Lit("a.b") != Lit("a") && Lit("x") != Lit("y")
  {
    hide ValidKey;
    WordIsKey("a.b");
    WordIsKey("c");
    WordIsKey("a");
    WordIsKey("b.c");
    assert |Lit("a.b")| == 3 && |Lit("a")| == 1 && Lit("x")[0] == 'x' as int && Lit("y")[0] == 'y' as int;
  }

  lemma SameKey()
    ensures ErrorKey(Lit("a.b"), Lit("c")) == ErrorKey(Lit("a"), Lit("b.c"))
  {
    assert Lit("a.b") + Lit(".") + Lit("c") == Lit("a") + Lit(".") + Lit("b.c");
    assert ErrorKey(Lit("a.b"), Lit("c")) == Lit("errors.") + (Lit("a.b") + Lit(".") + Lit("c"));
    assert ErrorKey(Lit("a"), Lit("b.c")) == Lit("errors.") + (Lit("a") + Lit(".") + Lit("b.c"));
  }

  // ----- an odd indentation

  /** A message with a field that is indented by one space too many. */
  function OddText(scope: Text, name: Text, field: Text, value: Text): seq<Text> {
    [KeyText(0, Errors()), KeyText(2, scope), KeyText(4, name), Spaces(1) + FieldText(field, value)]
  }

  function OddLines(scope: Text, name: Text, field: Text, value: Text): seq<Line> {
    [Mapping(0, Errors(), []), Mapping(2, scope, []), Mapping(4, name, []), Mapping(7, field, Quote(value, DOUBLE))]
  }

  lemma {:induction false} ReadOddField(field: Text, value: Text)
    requires ValidKey(field)
    ensures ReadLine(Spaces(1) + FieldText(field, value)) == Mapping(7, field, Quote(value, DOUBLE))
  {
    SpaceIsBlank();
    hide IsSpace, ValidKey, Escape, ReadLine, Strip;
    var quoted := Quote(value, DOUBLE);
    assert quoted != [] && quoted[0] == DOUBLE && quoted[|quoted| - 1] == DOUBLE;
    StripSolid(quoted);
    hide Quote;
    var rest := [SPACE] + quoted;
    assert (field + [COLON] + rest)[|field + rest|] == DOUBLE;
    ReadMapping(7, field, rest);
    assert Spaces(1) + quoted == rest;
    StripSpaces(1, quoted);
    assert Spaces(1) + FieldText(field, value) == Spaces(7) + (field + [COLON] + rest);
  }

  lemma {:induction false} ReadOddText(scope: Text, name: Text, field: Text, value: Text)
    requires ValidKey(scope) && ValidKey(name) && ValidKey(field)
    ensures Strict.ReadLines(OddText(scope, name, field, value)) == OddLines(scope, name, field, value)
  {
    FieldNamesValid();
    hide ValidKey, KeyText, FieldText, ReadLine, Quote, Errors;
    ReadKeyText(0, Errors());
    ReadKeyText(2, scope);
    ReadKeyText(4, name);
    ReadOddField(field, value);
    var lines, odd := Strict.ReadLines(OddText(scope, name, field, value)), OddLines(scope, name, field, value);
    assert lines[0] == odd[0] && lines[1] == odd[1] && lines[2] == odd[2] && lines[3] == odd[3];
  }

  lemma {:induction false} OddTextOnLines(scope: Text, name: Text, field: Text, value: Text)
    requires OnOneLine(scope) && OnOneLine(name) && OnOneLine(field) && OnOneLine(value)
    ensures AllOnOneLine(OddText(scope, name, field, value))
  {
    FieldNamesOnOneLine();
    Harmless(1);
    hide OnOneLine, KeyText, FieldText, Errors;
    KeyTextOnOneLine(0, Errors());
    KeyTextOnOneLine(2, scope);
    KeyTextOnOneLine(4, name);
    FieldTextOnOneLine(field, value);
    ConcatOnOneLine(Spaces(1), FieldText(field, value));
  }

  /** The audit reads such a field, and the strict parser reports the line and reads nothing: there the two differ. */
  lemma {:induction false} OddIndentDiffers(scope: Text, name: Text, value: Text)
    requires ValidKey(scope) && ValidKey(name) && OnOneLine(scope) && OnOneLine(name) && OnOneLine(value)
    ensures var lines := Strict.FileLines(JoinLines(OddText(scope, name, Lit("title"), value)));
            && Strict.Follow(Strict.START, 1, lines).entries == map[]
            && Audit.Follow(Audit.START, lines).entries == map[ErrorKey(scope, name) := map[Lit("title") := value]]
  {
    FieldNamesValid();
    FieldNamesOnOneLine();
    hide ValidKey, Lit, Errors, OnOneLine, OddText, OddLines;
    OddTextOnLines(scope, name, Lit("title"), value);
    SplitInvertsJoin(OddText(scope, name, Lit("title"), value));
    ReadOddText(scope, name, Lit("title"), value);
    AuditReadsOdd(scope, name, Lit("title"), value);
    StrictSkipsOdd(scope, name, Lit("title"), value);
  }

  lemma {:induction false} StrictSkipsOdd(scope: Text, name: Text, field: Text, value: Text)
    ensures Strict.Follow(Strict.START, 1, OddLines(scope, name, field, value)).entries == map[]
  {
    var a, b, c := Mapping(0, Errors(), []), Mapping(2, scope, []), Mapping(4, name, []);
    var d := Mapping(7, field, Quote(value, DOUBLE));
    FourLines(Strict.START, 1, a, b, c, d);
    KeysEnterNothing(Strict.START, 1, a);
    var p := Strict.Next(Strict.START, 1, a);
    KeysEnterNothing(p, 2, b);
    var q := Strict.Next(p, 2, b);
    KeysEnterNothing(q, 3, c);
    var r := Strict.Next(q, 3, c);
    KeysEnterNothing(r, 4, d);
    hide Strict.Next, Strict.Follow, Quote, Errors;
  }

  lemma {:induction false} KeysEnterNothing(p: Strict.Progress, n: nat, line: Line)
    requires line.Mapping? && (line.value == [] || line.indent % 2 != 0)
    ensures Strict.Next(p, n, line).entries == p.entries
  {
    hide Pop, Keys, Put;
  }

  lemma {:induction false} AuditReadsOdd(scope: Text, name: Text, field: Text, value: Text)
    ensures Audit.Follow(Audit.START, OddLines(scope, name, field, value)).entries
            == map[ErrorKey(scope, name) := map[field := value]]
  {
    MessagePath(scope, name);
    AuditField(scope, name, field, value);
    hide Quote, ErrorKey, Audit.Next, Audit.Follow, Pop, Errors;
    assert [] + [Level(0, Errors())] == Root() && Root() + [Level(2, scope)] == InScope(scope);
    assert InScope(scope) + [Level(4, name)] == InMessage(scope, name);
    NothingToPop();
    AuditKey([], 0, Errors());
    AuditKey(Root(), 2, scope);
    AuditKey(InScope(scope), 4, name);
    AuditFourLines(Audit.START, Mapping(0, Errors(), []), Mapping(2, scope, []), Mapping(4, name, []),
                   Mapping(7, field, Quote(value, DOUBLE)));
  }

  lemma NothingToPop()
    ensures Pop([], 0) == []
  {
  }

  lemma {:induction false} AuditField(scope: Text, name: Text, field: Text, value: Text)
    ensures Audit.Next(Audit.Progress(InMessage(scope, name), map[]), Mapping(7, field, Quote(value, DOUBLE))).entries
            == map[ErrorKey(scope, name) := map[field := value]]
  {
    UnquoteInvertsQuote(value, DOUBLE);
    MessagePath(scope, name);
    assert Pop(InMessage(scope, name), 7) == InMessage(scope, name);
    assert Quote(value, DOUBLE) != [];
    hide Quote, Unquote, ErrorKey, Pop, Keys, InMessage;
    assert [Errors(), scope, name] + [field] == [Errors(), scope, name, field];
  }

  lemma {:induction false} AuditFourLines(p: Audit.Progress, a: Line, b: Line, c: Line, d: Line)
    ensures Audit.Follow(p, [a, b, c, d]) == Audit.Next(Audit.Next(Audit.Next(Audit.Next(p, a), b), c), d)
  {
    hide Audit.Next;
    assert [a, b, c, d][1..] == [b, c, d] && [b, c, d][1..] == [c, d] && [c, d][1..] == [d] && [d][1..] == [];
    var q := Audit.Next(Audit.Next(p, a), b);
    var r := Audit.Next(q, c);
    assert Audit.Follow(Audit.Next(r, d), []) == Audit.Next(r, d);
    assert Audit.Follow(r, [d]) == Audit.Next(r, d);
    assert Audit.Follow(q, [c, d]) == Audit.Next(r, d);
    assert Audit.Follow(p, [a, b, c, d]) == Audit.Follow(q, [c, d]);
  }

  /** The lenient parser enters a level for a key without a value that is nested in all the levels there are. */
  lemma {:induction false} AuditKey(stack: seq<Level>, indent: nat, key: Text)
    requires Pop(stack, indent) == stack
    ensures Audit.Next(Audit.Progress(stack, map[]), Mapping(indent, key, []))
            == Audit.Progress(stack + [Level(indent, key)], map[])
  {
  }
}
