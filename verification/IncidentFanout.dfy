/** Fanning a published incident out to the subscribed accounts. */
module IncidentFanout {
  import opened Wrappers
  import opened AuthState

  /** `_incident_channels`: the enabled channels in their fixed order. */
  function Channels(p: Preference): (c: seq<string>)
    ensures c == [] <==> !p.email && !p.webhook && !p.inApp
  {
    (if p.email then ["email"] else []) + (if p.webhook then ["webhook"] else []) + if p.inApp then ["in_app"] else []
  }

  /** The accounts that the query selects. */
  function Eligible(s: State): set<Id> {
    set u | u in s.preferences && u in s.users && s.users[u].deletedAt.None? && s.users[u].mergedAt.None?
            && !s.users[u].isFrozen && (s.preferences[u].email || s.preferences[u].webhook || s.preferences[u].inApp)
  }

  function RequestFor(incident: Incident, p: Preference): NotificationRequest {
    NotificationRequest("/status#" + incident.id, incident.title, incident.severity, incident.status, Channels(p),
                        p.webhook && p.webhookUrl.Some? && p.webhookUrl.value != "")
  }

  /** The iteration for one selected account: an insert that does nothing on a conflict, and its event. */
  function NotifyOne(s: State, incident: Incident, user: Id): (r: (State, nat))
    requires user in s.preferences
    ensures r.0.preferences == s.preferences
  {
    if Channels(s.preferences[user]) == [] || (incident.id, user) in s.notifications then (s, 0)
    else
      var request := RequestFor(incident, s.preferences[user]);
      (s.(notifications := s.notifications[(incident.id, user) := request],
          outbox := s.outbox + [NotificationRequestedEvent(incident.id, user, request)]), 1)
  }

  /** `admin_fanout_status_incident` on the selected rows, with the number of requests it created. */
  function Fanout(s: State, incident: Incident, rows: seq<Id>): (r: (State, nat))
    requires forall i :: 0 <= i < |rows| ==> rows[i] in s.preferences
    ensures r.0.preferences == s.preferences
    decreases |rows|
  {
    if rows == [] then (s, 0)
    else
      var one := NotifyOne(s, incident, rows[0]);
      var rest := Fanout(one.0, incident, rows[1..]);
      (rest.0, one.1 + rest.1)
  }

  // ----- the effect of a fanout

  /** The selected accounts that have no request for the incident yet. */
  function Added(s: State, incident: Incident, rows: seq<Id>): (added: seq<Id>)
    ensures forall u :: u in added <==> u in rows && (incident.id, u) !in s.notifications
  {
    if rows == [] then []
    else (if (incident.id, rows[0]) in s.notifications then [] else [rows[0]]) + Added(s, incident, rows[1..])
  }

  function FanoutEvents(s: State, incident: Incident, added: seq<Id>): (events: seq<OutboxEvent>)
    requires forall i :: 0 <= i < |added| ==> added[i] in s.preferences
    ensures |events| == |added|
  {
    seq(|added|, i requires 0 <= i < |added| =>
      NotificationRequestedEvent(incident.id, added[i], RequestFor(incident, s.preferences[added[i]])))
  }

  function Notified(s: State, incident: Incident, added: seq<Id>): map<(string, Id), NotificationRequest>
    requires forall i :: 0 <= i < |added| ==> added[i] in s.preferences
  {
    map key | key in s.notifications.Keys + (set i | 0 <= i < |added| :: (incident.id, added[i])) ::
      if key in s.notifications then s.notifications[key] else RequestFor(incident, s.preferences[key.1])
  }

  lemma AddedAfterInsert(s: State, next: State, incident: Incident, first: Id, rows: seq<Id>)
    requires first !in rows
    requires next.notifications.Keys == s.notifications.Keys + {(incident.id, first)}
    ensures Added(next, incident, rows) == Added(s, incident, rows)
  {
  }

  /** The state after a fanout, table by table, and the number of requests created. */
  function AfterFanout(s: State, incident: Incident, rows: seq<Id>): (State, nat)
    requires forall i :: 0 <= i < |rows| ==> rows[i] in s.preferences
  {
    var added := Added(s, incident, rows);
    assert forall i :: 0 <= i < |added| ==> added[i] in added;
    (s.(notifications := Notified(s, incident, added), outbox := s.outbox + FanoutEvents(s, incident, added)), |added|)
  }

  lemma {:induction false} FanoutStep(s: State, incident: Incident, first: Id, rest: seq<Id>)
    requires first in s.preferences && Channels(s.preferences[first]) != [] && first !in rest
    requires (incident.id, first) !in s.notifications
    requires forall i :: 0 <= i < |rest| ==> rest[i] in s.preferences
    ensures var next := NotifyOne(s, incident, first).0;
            && AfterFanout(s, incident, [first] + rest).0 == AfterFanout(next, incident, rest).0
            && AfterFanout(s, incident, [first] + rest).1 == AfterFanout(next, incident, rest).1 + 1
  {
    hide Channels, RequestFor;
    var next := NotifyOne(s, incident, first).0;
    var later := Added(s, incident, rest);
    assert forall i :: 0 <= i < |later| ==> later[i] in later;
    AddedAfterInsert(s, next, incident, first, rest);
    assert ([first] + rest)[1..] == rest;
    assert Added(s, incident, [first] + rest) == [first] + later;
    NotifiedStep(s, incident, first, later);
    FanoutEventsStep(s, incident, first, later);
  }

  lemma {:induction false} NotifiedStep(s: State, incident: Incident, first: Id, later: seq<Id>)
    requires first in s.preferences && Channels(s.preferences[first]) != []
    requires (incident.id, first) !in s.notifications
    requires forall i :: 0 <= i < |later| ==> later[i] in s.preferences
    ensures Notified(NotifyOne(s, incident, first).0, incident, later) == Notified(s, incident, [first] + later)
  {
    hide Channels, RequestFor;
    var next, all := NotifyOne(s, incident, first).0, [first] + later;
    assert forall i :: 0 <= i < |later| ==> all[i + 1] == later[i];
    var a, b := Notified(next, incident, later), Notified(s, incident, all);
    assert all[0] == first;
    forall key
      ensures key in a <==> key in b
      ensures key in a && key in b ==> a[key] == b[key]
    {
      if key in b && key !in s.notifications {
        var i :| 0 <= i < |all| && key == (incident.id, all[i]);
        if i > 0 {
          assert later[i - 1] == all[i];
        }
      }
    }
  }

  lemma {:induction false} FanoutEventsStep(s: State, incident: Incident, first: Id, later: seq<Id>)
    requires first in s.preferences && Channels(s.preferences[first]) != []
    requires (incident.id, first) !in s.notifications
    requires forall i :: 0 <= i < |later| ==> later[i] in s.preferences
    ensures var next := NotifyOne(s, incident, first).0;
            next.outbox + FanoutEvents(next, incident, later) == s.outbox + FanoutEvents(s, incident, [first] + later)
  {
    hide Channels, RequestFor;
    var next := NotifyOne(s, incident, first).0;
    var event := NotificationRequestedEvent(incident.id, first, RequestFor(incident, s.preferences[first]));
    assert FanoutEvents(s, incident, [first] + later) == [event] + FanoutEvents(next, incident, later);
  }

  lemma FanoutNobody(s: State, incident: Incident)
    ensures AfterFanout(s, incident, []) == (s, 0)
  {
    assert Notified(s, incident, []) == s.notifications;
    assert s.outbox + [] == s.outbox;
  }

  lemma {:induction false} FanoutSkip(s: State, incident: Incident, first: Id, rest: seq<Id>)
    requires first in s.preferences && (incident.id, first) in s.notifications
    requires forall i :: 0 <= i < |rest| ==> rest[i] in s.preferences
    ensures AfterFanout(s, incident, [first] + rest) == AfterFanout(s, incident, rest)
  {
    hide Notified, FanoutEvents;
    assert ([first] + rest)[1..] == rest;
    assert [] + Added(s, incident, rest) == Added(s, incident, rest);
  }

  lemma NotifyOneCases(s: State, incident: Incident, user: Id)
    requires user in s.preferences && Channels(s.preferences[user]) != []
    ensures if (incident.id, user) in s.notifications then NotifyOne(s, incident, user) == (s, 0)
            else NotifyOne(s, incident, user).1 == 1
  {
  }

  /**
   A fanout adds one request and one event for every selected account that has none for the incident, and counts
   exactly those; requests that exist are left as they are.
   */
  lemma {:induction false} FanoutEffect(s: State, incident: Incident, rows: seq<Id>)
    requires Distinct(rows)
    requires forall i :: 0 <= i < |rows| ==> rows[i] in s.preferences && Channels(s.preferences[rows[i]]) != []
    ensures Fanout(s, incident, rows) == AfterFanout(s, incident, rows)
    decreases |rows|
  {
    hide AfterFanout, NotifyOne;
    if rows == [] {
      FanoutNobody(s, incident);
    } else {
      var first, rest := rows[0], rows[1..];
      assert rows == [first] + rest;
      NotifyOneCases(s, incident, first);
      hide Channels;
      if (incident.id, first) in s.notifications {
        FanoutEffect(s, incident, rest);
        FanoutSkip(s, incident, first, rest);
      } else {
        FanoutStep(s, incident, first, rest);
        FanoutEffect(NotifyOne(s, incident, first).0, incident, rest);
      }
    }
  }
}
