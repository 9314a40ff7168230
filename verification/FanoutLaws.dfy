/** Incident notifications over whole runs: one request and one event for every account ever reached. */
module FanoutLaws {
  import opened Wrappers
  import opened AuthState
  import opened AuthRuns
  import opened AuthFrames
  import Accounts
  import DataExport
  import opened IncidentFanout

  predicate Notifies(e: OutboxEvent, incident: string, user: Id) {
    e.NotificationRequestedEvent? && e.incidentId == incident && e.userId == user
  }

  /** How many notification events an account got for an incident. */
  function Count(outbox: seq<OutboxEvent>, incident: string, user: Id): nat {
    if outbox == [] then 0
    else Count(outbox[..|outbox| - 1], incident, user) + if Notifies(outbox[|outbox| - 1], incident, user) then 1 else 0
  }

  /** The events and the requests tell the same story, each once. */
  ghost predicate OnceEach(s: State) {
    forall incident: string, user: Id ::
      Count(s.outbox, incident, user) == if (incident, user) in s.notifications then 1 else 0
  }

  lemma {:induction false} CountConcat(a: seq<OutboxEvent>, b: seq<OutboxEvent>, incident: string, user: Id)
    ensures Count(a + b, incident, user) == Count(a, incident, user) + Count(b, incident, user)
  {
    if b == [] {
      assert a + b == a;
    } else {
      CountConcat(a, b[..|b| - 1], incident, user);
      assert (a + b)[..|a + b| - 1] == a + b[..|b| - 1];
    }
  }

  lemma {:induction false} CountNone(b: seq<OutboxEvent>, incident: string, user: Id)
    requires forall i :: 0 <= i < |b| ==> !Notifies(b[i], incident, user)
    ensures Count(b, incident, user) == 0
  {
    if b != [] {
      CountNone(b[..|b| - 1], incident, user);
    }
  }

  lemma {:induction false} CountFanout(s: State, incident: Incident, added: seq<Id>, user: Id)
    requires forall i :: 0 <= i < |added| ==> added[i] in s.preferences
    requires Distinct(added)
    ensures Count(FanoutEvents(s, incident, added), incident.id, user) == if user in added then 1 else 0
  {
    if added != [] {
      var events, last := FanoutEvents(s, incident, added), |added| - 1;
      CountFanout(s, incident, added[..last], user);
      assert events[..last] == FanoutEvents(s, incident, added[..last]);
      assert added == added[..last] + [added[last]];
    }
  }

  lemma AddedDistinct(s: State, incident: Incident, rows: seq<Id>)
    requires Distinct(rows)
    ensures Distinct(Added(s, incident, rows))
  {
    if rows != [] {
      AddedDistinct(s, incident, rows[1..]);
    }
  }

  /** The pairs that a fanout reaches. */
  ghost function Reach(s: State, step: Step): set<(string, Id)> {
    match step
    case Fanout(incident, _) => set u | u in Eligible(s) :: (incident.id, u)
    case _ => {}
  }

  /** The number of requests that a step reports as created. */
  ghost function Created(s: State, step: Step): nat
    requires Possible(s, step)
  {
    match step
    case Fanout(incident, rows) => IncidentFanout.Fanout(s, incident, rows).1
    case _ => 0
  }

  function Pairs(incident: string, users: seq<Id>): set<(string, Id)> {
    set i | 0 <= i < |users| :: (incident, users[i])
  }

  lemma {:induction false} InPairs(incident: string, users: seq<Id>, id: string, user: Id)
    ensures (id, user) in Pairs(incident, users) <==> id == incident && user in users
  {
    if id == incident && user in users {
      var i :| 0 <= i < |users| && users[i] == user;
      assert (incident, users[i]) in Pairs(incident, users);
    }
  }

  lemma {:induction false} PairsSize(incident: string, users: seq<Id>)
    requires Distinct(users)
    ensures |Pairs(incident, users)| == |users|
  {
    if users != [] {
      var n := |users| - 1;
      PairsSize(incident, users[..n]);
      assert users == users[..n] + [users[n]];
      assert Pairs(incident, users) == Pairs(incident, users[..n]) + {(incident, users[n])};
    }
  }

  /** The requests after a fanout: the old ones as they were, and one for each account added. */
  lemma {:induction false} NotifiedKeys(s: State, incident: Incident, added: seq<Id>)
    requires forall i :: 0 <= i < |added| ==> added[i] in s.preferences
    ensures Notified(s, incident, added).Keys == s.notifications.Keys + Pairs(incident.id, added)
    ensures forall key :: key in s.notifications ==> Notified(s, incident, added)[key] == s.notifications[key]
  {
    hide RequestFor;
  }

  lemma {:induction false} NotifiedSize(s: State, incident: Incident, added: seq<Id>)
    requires Distinct(added)
    requires forall i :: 0 <= i < |added| ==> added[i] in s.preferences && (incident.id, added[i]) !in s.notifications
    ensures |Notified(s, incident, added)| == |s.notifications| + |added|
  {
    var after := Notified(s, incident, added);
    PairsSize(incident.id, added);
    NotifiedKeys(s, incident, added);
    hide Notified;
    assert s.notifications.Keys !! Pairs(incident.id, added);
    assert |after| == |after.Keys| && |s.notifications| == |s.notifications.Keys|;
  }

  /** What a fanout did, in terms of the accounts added. */
  lemma {:induction false} FanoutAdded(s: State, incident: Incident, rows: seq<Id>)
    requires Enumerates(rows, Eligible(s))
    ensures var t, added := IncidentFanout.Fanout(s, incident, rows).0, Added(s, incident, rows);
            && Distinct(added) && (forall u :: u in added <==> u in Eligible(s) && (incident.id, u) !in s.notifications)
            && (forall i :: 0 <= i < |added| ==>
                  added[i] in s.preferences && (incident.id, added[i]) !in s.notifications)
            && t.notifications == Notified(s, incident, added)
            && t.outbox == s.outbox + FanoutEvents(s, incident, added)
            && IncidentFanout.Fanout(s, incident, rows).1 == |added|
  {
    FanoutFrame(s, incident, rows);
    AddedDistinct(s, incident, rows);
    hide IncidentFanout.Fanout, Notified, FanoutEvents, Channels, RequestFor;
    var added := Added(s, incident, rows);
    forall i | 0 <= i < |added| ensures added[i] in s.preferences && (incident.id, added[i]) !in s.notifications {
      assert added[i] in added;
    }
  }

  lemma {:induction false} FanoutKeys(s: State, incident: Incident, rows: seq<Id>)
    requires Enumerates(rows, Eligible(s))
    ensures var t := IncidentFanout.Fanout(s, incident, rows).0;
            && t.notifications.Keys == s.notifications.Keys + (set u | u in Eligible(s) :: (incident.id, u))
            && (forall key :: key in s.notifications ==> t.notifications[key] == s.notifications[key])
  {
    FanoutAdded(s, incident, rows);
    var added := Added(s, incident, rows);
    NotifiedKeys(s, incident, added);
    hide IncidentFanout.Fanout, Notified, FanoutEvents, Eligible, Pairs, Enumerates, Added;
    forall id: string, u: Id
      ensures (id, u) in Pairs(incident.id, added) <==>
              id == incident.id && u in Eligible(s) && (id, u) !in s.notifications
    {
      InPairs(incident.id, added, id, u);
    }
  }

  lemma {:induction false} FanoutOnce(s: State, incident: Incident, rows: seq<Id>)
    requires OnceEach(s) && Enumerates(rows, Eligible(s))
    ensures OnceEach(IncidentFanout.Fanout(s, incident, rows).0)
  {
    assert forall i :: 0 <= i < |rows| ==> rows[i] in s.preferences;
    hide IncidentFanout.Fanout, Notified, FanoutEvents, Eligible, Enumerates, Added, Count, OnceEach;
    FanoutAdded(s, incident, rows);
    NotifiedOnce(s, IncidentFanout.Fanout(s, incident, rows).0, incident, Added(s, incident, rows));
  }

  lemma {:induction false} NotifiedOnce(s: State, t: State, incident: Incident, added: seq<Id>)
    requires OnceEach(s) && Distinct(added)
    requires forall i :: 0 <= i < |added| ==> added[i] in s.preferences && (incident.id, added[i]) !in s.notifications
    requires t.notifications == Notified(s, incident, added) && t.outbox == s.outbox + FanoutEvents(s, incident, added)
    ensures OnceEach(t)
  {
    hide Count, FanoutEvents, Notified;
    forall id: string, user: Id
      ensures Count(t.outbox, id, user) == if (id, user) in t.notifications then 1 else 0
    {
      CountAfter(s, incident, added, id, user);
      NotifiedHas(s, incident, added, id, user);
    }
  }

  lemma {:induction false} NotifiedHas(s: State, incident: Incident, added: seq<Id>, id: string, user: Id)
    requires forall i :: 0 <= i < |added| ==> added[i] in s.preferences
    ensures (id, user) in Notified(s, incident, added) <==>
            (id, user) in s.notifications || (id == incident.id && user in added)
  {
    NotifiedKeys(s, incident, added);
    InPairs(incident.id, added, id, user);
    hide Notified, Pairs;
  }

  lemma {:induction false} CountAfter(s: State, incident: Incident, added: seq<Id>, id: string, user: Id)
    requires OnceEach(s) && Distinct(added)
    requires forall i :: 0 <= i < |added| ==> added[i] in s.preferences
    ensures Count(s.outbox + FanoutEvents(s, incident, added), id, user)
            == (if (id, user) in s.notifications then 1 else 0) + if id == incident.id && user in added then 1 else 0
  {
    hide Count, FanoutEvents, RequestFor;
    CountConcat(s.outbox, FanoutEvents(s, incident, added), id, user);
    CountAdded(s, incident, added, id, user);
  }

  lemma {:induction false} CountAdded(s: State, incident: Incident, added: seq<Id>, id: string, user: Id)
    requires forall i :: 0 <= i < |added| ==> added[i] in s.preferences
    requires Distinct(added)
    ensures Count(FanoutEvents(s, incident, added), id, user) == if id == incident.id && user in added then 1 else 0
  {
    if id == incident.id {
      CountFanout(s, incident, added, user);
    } else {
      hide RequestFor;
      CountNone(FanoutEvents(s, incident, added), id, user);
    }
  }

  predicate NoNotification(events: seq<OutboxEvent>) {
    forall i :: 0 <= i < |events| ==> !events[i].NotificationRequestedEvent?
  }

  lemma OtherEventsOnce(s: State, t: State, events: seq<OutboxEvent>)
    requires OnceEach(s) && t.notifications == s.notifications && t.outbox == s.outbox + events
    requires NoNotification(events)
    ensures OnceEach(t)
  {
    forall id: string, user: Id
      ensures Count(t.outbox, id, user) == Count(s.outbox, id, user)
    {
      CountConcat(s.outbox, events, id, user);
      CountNone(events, id, user);
    }
  }

  lemma CompletionEventsKind(exports: map<Id, Export>, rows: seq<Id>, failing: set<Id>)
    requires forall i :: 0 <= i < |rows| ==> rows[i] in exports
    ensures NoNotification(DataExport.CompletionEvents(exports, rows, failing))
  {
  }

  lemma FinishOnce(s: State, limit: nat, rows: seq<Id>, failing: set<Id>, now: Time)
    requires OnceEach(s) && DataExport.IsOldest(s, limit, rows)
    ensures OnceEach(DataExport.Finish(s, rows, failing, now))
  {
    hide OnceEach;
    FinishFrame(s, limit, rows, failing, now);
    CompletionEventsKind(s.exports, rows, failing);
    OtherEventsOnce(s, DataExport.AfterFinish(s, rows, failing, now),
        DataExport.CompletionEvents(s.exports, rows, failing));
  }

  lemma RequestExportOnce(s: State, u: Id, format: string, existing: Option<Id>, id: Id, now: Time)
    requires OnceEach(s)
    ensures OnceEach(DataExport.Request(s, u, format, existing, id, now).0)
  {
    hide OnceEach;
    var t := DataExport.Request(s, u, format, existing, id, now).0;
    if t != s {
      OtherEventsOnce(s, t, [ExportRequestedEvent(id, u)]);
    }
  }

  lemma SetPreferenceOnce(s: State, u: Id, p: Preference)
    requires OnceEach(s)
    ensures OnceEach(Accounts.SetPreference(s, u, p).0)
  {
    hide OnceEach, Accounts.InactiveProblem;
    var t := Accounts.SetPreference(s, u, p).0;
    if t != s {
      OtherEventsOnce(s, t, [PreferencesUpdatedEvent(u)]);
    }
  }

  lemma {:induction false} StepOnce(s: State, step: Step)
    requires OnceEach(s) && Possible(s, step)
    ensures OnceEach(Apply(s, step))
    ensures Apply(s, step).notifications.Keys == s.notifications.Keys + Reach(s, step)
    ensures |Apply(s, step).notifications| == |s.notifications| + Created(s, step)
  {
    StepKeepsOnce(s, step);
    hide OnceEach, IncidentFanout.Fanout, DataExport.Finish, DataExport.Request, Accounts.SetPreference;
    if step.Fanout? {
      FanoutKeys(s, step.incident, step.rows);
      FanoutCreates(s, step.incident, step.rows);
    } else {
      StepFramed(s, step);
    }
  }

  lemma {:induction false} StepKeepsOnce(s: State, step: Step)
    requires OnceEach(s) && Possible(s, step)
    ensures OnceEach(Apply(s, step))
  {
    hide OnceEach, IncidentFanout.Fanout, DataExport.Finish, DataExport.Request, Accounts.SetPreference;
    match step
    case Fanout(incident, rows) => FanoutOnce(s, incident, rows);
    case FinishExports(limit, rows, failing, now) => FinishOnce(s, limit, rows, failing, now);
    case RequestExport(u, format, existing, id, now) => RequestExportOnce(s, u, format, existing, id, now);
    case SetPreference(u, p) => SetPreferenceOnce(s, u, p);
    case _ => QuietStepOnce(s, step);
  }

  lemma {:induction false} QuietStepOnce(s: State, step: Step)
    requires OnceEach(s) && Possible(s, step)
    requires !step.Fanout? && !step.FinishExports? && !step.RequestExport? && !step.SetPreference?
    ensures OnceEach(Apply(s, step))
  {
    StepFramed(s, step);
    hide Possible, Apply, Count;
  }

  /** The reported number is the number of requests that were added. */
  lemma {:induction false} FanoutCreates(s: State, incident: Incident, rows: seq<Id>)
    requires Enumerates(rows, Eligible(s))
    ensures var r := IncidentFanout.Fanout(s, incident, rows);
            |r.0.notifications| == |s.notifications| + r.1
  {
    FanoutAdded(s, incident, rows);
    hide IncidentFanout.Fanout, Enumerates, Eligible, Notified, FanoutEvents, Added;
    var added := Added(s, incident, rows);
    NotifiedSize(s, incident, added);
  }

  ghost function Reached(trace: seq<State>, steps: seq<Step>, i: nat): set<(string, Id)>
    requires |trace| == |steps| + 1 && i < |trace|
  {
    if i == 0 then {} else Reached(trace, steps, i - 1) + Reach(trace[i - 1], steps[i - 1])
  }

  ghost function TotalCreated(trace: seq<State>, steps: seq<Step>, i: nat): nat
    requires IsRun(trace, steps) && i < |trace|
  {
    if i == 0 then 0 else TotalCreated(trace, steps, i - 1) + Created(trace[i - 1], steps[i - 1])
  }

  /**
   In every state of every run there is one request and one event for every pair of incident and account that a
   fanout ever reached, none for any other pair, and the reported numbers of created requests add up to their number.
   */
  lemma {:induction false} NotifiedExactlyOnce(trace: seq<State>, steps: seq<Step>, i: nat)
    requires IsRun(trace, steps) && i < |trace|
    ensures OnceEach(trace[i])
    ensures trace[i].notifications.Keys == Reached(trace, steps, i)
    ensures |trace[i].notifications| == TotalCreated(trace, steps, i)
  {
    hide Possible, Apply, OnceEach;
    if i == 0 {
      StartOnce(trace[0]);
    } else {
      NotifiedExactlyOnce(trace, steps, i - 1);
      StepOnce(trace[i - 1], steps[i - 1]);
    }
  }

  lemma StartOnce(s: State)
    requires IsStart(s)
    ensures OnceEach(s)
  {
  }
}
