/** What an incident fanout answers and changes, said of the tables alone. */
module FanoutOutcomes {
  import opened Wrappers
  import opened AuthState
  import IncidentFanout
  import AuthFrames
  import FanoutLaws

  /** An account that wants to hear of incidents on some channel and can use the service. */
  predicate IsSubscribed(s: State, u: Id) {
    && u in s.preferences && u in s.users
    && s.users[u].deletedAt.None? && s.users[u].mergedAt.None? && !s.users[u].isFrozen
    && (s.preferences[u].email || s.preferences[u].webhook || s.preferences[u].inApp)
  }

  /** The channels of a preference row: those that are on, e-mail before webhook before the application. */
  predicate AreChannels(p: Preference, channels: seq<string>) {
    && ("email" in channels <==> p.email) && ("webhook" in channels <==> p.webhook)
    && ("in_app" in channels <==> p.inApp)
    && (forall i :: 0 <= i < |channels| ==>
          channels[i] == "email" || channels[i] == "webhook" || channels[i] == "in_app")
    && (forall i, j :: 0 <= i < j < |channels| ==>
          channels[i] != channels[j] && channels[i] != "in_app" && channels[j] != "email")
  }

  /** What an account is told about an incident. */
  predicate IsRequestFor(incident: Incident, p: Preference, request: NotificationRequest) {
    && request.statusUrl == "/status#" + incident.id && request.title == incident.title
    && request.severity == incident.severity && request.incidentStatus == incident.status
    && AreChannels(p, request.channels)
    && (request.webhookConfigured <==> p.webhook && p.webhookUrl.Some? && p.webhookUrl.value != "")
  }

  lemma {:induction false} RequestIs(incident: Incident, p: Preference)
    ensures IsRequestFor(incident, p, IncidentFanout.RequestFor(incident, p))
  {
    ChannelsAre(p);
    hide AreChannels, IncidentFanout.Channels;
  }

  lemma {:induction false} ChannelsAre(p: Preference)
    ensures AreChannels(p, IncidentFanout.Channels(p))
  {
    var channels := IncidentFanout.Channels(p);
    assert channels == match (p.email, p.webhook, p.inApp)
                       case (true, true, true) => ["email", "webhook", "in_app"]
                       case (true, true, false) => ["email", "webhook"]
                       case (true, false, true) => ["email", "in_app"]
                       case (true, false, false) => ["email"]
                       case (false, true, true) => ["webhook", "in_app"]
                       case (false, true, false) => ["webhook"]
                       case (false, false, true) => ["in_app"]
                       case (false, false, false) => [];
    assert |"email"| == 5 && |"webhook"| == 7 && |"in_app"| == 6;
    hide IncidentFanout.Channels;
  }

  /** An event that tells a subscribed account, for the first time, what its request says. */
  predicate IsNews(s: State, t: State, incident: Incident, e: OutboxEvent) {
    && e.NotificationRequestedEvent? && e.incidentId == incident.id && IsSubscribed(s, e.userId)
    && (incident.id, e.userId) !in s.notifications
    && (incident.id, e.userId) in t.notifications && e.request == t.notifications[(incident.id, e.userId)]
  }

  /** The requests afterwards: the old ones, and one for each subscribed account that had none. */
  ghost predicate RequestsAdded(s: State, t: State, incident: Incident) {
    && (forall id: string, u: Id :: (id, u) in t.notifications <==>
          (id, u) in s.notifications || (id == incident.id && IsSubscribed(s, u)))
    && (forall key :: key in s.notifications ==> key in t.notifications && t.notifications[key] == s.notifications[key])
    && (forall u: Id :: IsSubscribed(s, u) && (incident.id, u) !in s.notifications ==>
          && (incident.id, u) in t.notifications
          && IsRequestFor(incident, s.preferences[u], t.notifications[(incident.id, u)]))
  }

  /** The events afterwards: the old ones, and news for as many accounts as were created, each once. */
  predicate NewsSent(s: State, t: State, incident: Incident, created: nat) {
    && s.outbox <= t.outbox && |t.outbox| == |s.outbox| + created
    && (forall i :: |s.outbox| <= i < |t.outbox| ==> IsNews(s, t, incident, t.outbox[i]))
    && (forall i, j :: |s.outbox| <= i < j < |t.outbox| ==> t.outbox[i] != t.outbox[j])
  }

  /** The accounts that a fanout adds. */
  ghost predicate AreAdded(s: State, incident: Incident, added: seq<Id>) {
    && Distinct(added)
    && (forall u: Id :: u in added <==> IsSubscribed(s, u) && (incident.id, u) !in s.notifications)
    && (forall i :: 0 <= i < |added| ==> added[i] in s.preferences && (incident.id, added[i]) !in s.notifications)
  }

  /**
   A fanout tells exactly the subscribed accounts that have not been told of the incident: each gets one request that
   follows from its preferences and one event with that request, and the answer is their number.
   */
  lemma {:induction false} FanoutOutcome(s: State, incident: Incident, rows: seq<Id>)
    requires Enumerates(rows, IncidentFanout.Eligible(s))
    ensures var (t, created) := IncidentFanout.Fanout(s, incident, rows);
            && t == s.(notifications := t.notifications, outbox := t.outbox)
            && RequestsAdded(s, t, incident) && NewsSent(s, t, incident, created)
            && |t.notifications| == |s.notifications| + created
  {
    AuthFrames.FanoutFrame(s, incident, rows);
    FanoutLaws.FanoutAdded(s, incident, rows);
    FanoutLaws.FanoutCreates(s, incident, rows);
    var (t, created) := IncidentFanout.Fanout(s, incident, rows);
    var added := IncidentFanout.Added(s, incident, rows);
    assert AreAdded(s, incident, added) by { EligibleAre(s, incident, added); }
    hide IncidentFanout.Fanout, IncidentFanout.Eligible, Enumerates, AreAdded, RequestsAdded, NewsSent,
         IncidentFanout.Notified, IncidentFanout.FanoutEvents, IncidentFanout.AfterFanout, IncidentFanout.Added;
    NewRequests(s, t, incident, added);
    NewEvents(s, t, incident, added);
  }

  lemma {:induction false} EligibleAre(s: State, incident: Incident, added: seq<Id>)
    requires Distinct(added)
    requires forall u: Id :: u in added <==> u in IncidentFanout.Eligible(s) && (incident.id, u) !in s.notifications
    requires forall i :: 0 <= i < |added| ==>
               added[i] in s.preferences && (incident.id, added[i]) !in s.notifications
    ensures AreAdded(s, incident, added)
  {
  }

  lemma {:induction false} NewRequests(s: State, t: State, incident: Incident, added: seq<Id>)
    requires AreAdded(s, incident, added)
    requires t.notifications == IncidentFanout.Notified(s, incident, added)
    ensures RequestsAdded(s, t, incident)
  {
    FanoutLaws.NotifiedKeys(s, incident, added);
    hide IncidentFanout.RequestFor, IsRequestFor, FanoutLaws.Pairs, IsSubscribed;
    forall id: string, u: Id
      ensures (id, u) in t.notifications <==>
              (id, u) in s.notifications || (id == incident.id && IsSubscribed(s, u)) {
      FanoutLaws.NotifiedHas(s, incident, added, id, u);
    }
    forall u: Id | u in added
      ensures (incident.id, u) in t.notifications && u in s.preferences
      ensures IsRequestFor(incident, s.preferences[u], t.notifications[(incident.id, u)]) {
      FanoutLaws.NotifiedHas(s, incident, added, incident.id, u);
      RequestIs(incident, s.preferences[u]);
    }
  }

  lemma {:induction false} NewEvents(s: State, t: State, incident: Incident, added: seq<Id>)
    requires AreAdded(s, incident, added)
    requires t.notifications == IncidentFanout.Notified(s, incident, added)
    requires t.outbox == s.outbox + IncidentFanout.FanoutEvents(s, incident, added)
    ensures NewsSent(s, t, incident, |added|)
  {
    hide IncidentFanout.RequestFor, IsSubscribed;
    forall i | |s.outbox| <= i < |t.outbox| ensures IsNews(s, t, incident, t.outbox[i]) {
      var u := added[i - |s.outbox|];
      assert u in added;
      FanoutLaws.NotifiedHas(s, incident, added, incident.id, u);
    }
  }
}
