/** What an export request and the export worker answer and change, said of the tables alone. */
module ExportOutcomes {
  import opened Wrappers
  import opened AuthState
  import DataExport

  const SEVEN_DAYS: Time := 7 * 24 * 60 * 60

  // ----- a request

  /** An export that is under way, or finished and not expired. */
  predicate IsUsable(e: Export, user: Id, format: string, now: Time) {
    && e.user == user && e.format == format && !e.status.Failed?
    && (e.expiresAt.None? || now < e.expiresAt.value)
  }

  predicate IsOlder(a: Export, aId: Id, b: Export, bId: Id) {
    a.requestedAt < b.requestedAt || (a.requestedAt == b.requestedAt && aId < bId)
  }

  lemma {:induction false} UsableIs(s: State, id: Id, user: Id, format: string, now: Time)
    ensures DataExport.ActiveFor(s, id, user, format, now) <==>
            id in s.exports && IsUsable(s.exports[id], user, format, now)
  {
  }

  /** Whom an export refers to: nobody when the account is not there or deleted. */
  function Referred(users: map<Id, User>, user: Id): Option<Id> {
    if user in users && users[user].deletedAt == None then Some(user) else None
  }

  /**
   A request for a supported format finds the latest usable export of the user in that format, and changes nothing;
   when there is none, it queues a new one that is due in seven days, with one audit row and one event.
   */
  lemma {:induction false} RequestOutcome(
      s: State, user: Id, format: string, existing: Option<Id>, newId: Id, now: Time)
    requires newId !in s.exports && DataExport.IsActiveExport(s, user, format, now, existing)
    ensures var (t, r) := DataExport.Request(s, user, format, existing, newId, now);
            var some := exists id :: id in s.exports && IsUsable(s.exports[id], user, format, now);
            && (r.Ok? <==> format == "json" || format == "csv")
            && (r.Reject? ==> t == s && r == Reject(Raised("ValueError")))
            && (r.Ok? && some ==>
                  && t == s && r.value in s.exports && IsUsable(s.exports[r.value], user, format, now)
                  && forall id :: id in s.exports && id != r.value && IsUsable(s.exports[id], user, format, now) ==>
                       IsOlder(s.exports[id], id, s.exports[r.value], r.value))
            && (r.Ok? && !some ==>
                  && r.value == newId
                  && t == s.(exports := s.exports[newId := Export(user, Referred(s.users, user), format, Queued, now,
                                                                  now + SEVEN_DAYS, None, None, None)],
                             audit := s.audit + [Audit(Referred(s.users, user), "user",
                                                       ExportAudited(newId, "data_export.requested"))],
                             outbox := s.outbox + [ExportRequestedEvent(newId, user)]))
  {
    NewExport(s, user, format, newId, now);
    forall id
      ensures DataExport.ActiveFor(s, id, user, format, now) <==>
              id in s.exports && IsUsable(s.exports[id], user, format, now) {
      UsableIs(s, id, user, format, now);
    }
    hide IsUsable, DataExport.ActiveFor, DataExport.WithExport, Referred;
    if existing.Some? {
      assert existing.value in s.exports && IsUsable(s.exports[existing.value], user, format, now);
    }
  }

  lemma {:induction false} NewExport(s: State, user: Id, format: string, id: Id, now: Time)
    ensures DataExport.WithExport(s, user, format, id, now)
            == s.(exports := s.exports[id := Export(user, Referred(s.users, user), format, Queued, now,
                                                    now + SEVEN_DAYS, None, None, None)],
                  audit := s.audit + [Audit(Referred(s.users, user), "user",
                                            ExportAudited(id, "data_export.requested"))],
                  outbox := s.outbox + [ExportRequestedEvent(id, user)])
  {
  }

  // ----- a worker run

  /** The rows whose package could be built, in order. */
  function Built(rows: seq<Id>, failing: set<Id>): seq<Id> {
    if rows == [] then []
    else if rows[|rows| - 1] in failing then Built(rows[..|rows| - 1], failing)
    else Built(rows[..|rows| - 1], failing) + [rows[|rows| - 1]]
  }

  lemma {:induction false} BuiltFirst(rows: seq<Id>, failing: set<Id>)
    requires rows != []
    ensures Built(rows, failing) == (if rows[0] in failing then [] else [rows[0]]) + Built(rows[1..], failing)
  {
    if |rows| > 1 {
      var front := rows[..|rows| - 1];
      BuiltFirst(front, failing);
      assert front[0] == rows[0] && front[1..] == rows[1..][..|rows[1..]| - 1];
    } else {
      assert rows[..0] == [] && rows[1..] == [];
    }
  }

  lemma {:induction false} BuiltIs(rows: seq<Id>, failing: set<Id>)
    ensures Built(rows, failing) == DataExport.Succeeded(rows, failing)
    ensures forall id :: id in Built(rows, failing) ==> id in rows && id !in failing
  {
    if rows != [] {
      BuiltFirst(rows, failing);
      BuiltIs(rows[1..], failing);
    }
  }

  /** One row for each export that was taken, which says what became of it. */
  function WorkerLog(exports: map<Id, Export>, rows: seq<Id>, failing: set<Id>): (log: seq<Audit>)
    requires forall i :: 0 <= i < |rows| ==> rows[i] in exports
    ensures |log| == |rows|
    ensures forall i :: 0 <= i < |rows| ==>
              log[i] == Audit(exports[rows[i]].userRef, "system",
                              ExportAudited(rows[i], if rows[i] in failing then "data_export.failed"
                                                     else "data_export.completed"))
  {
    seq(|rows|, i requires 0 <= i < |rows| =>
      Audit(exports[rows[i]].userRef, "system",
            ExportAudited(rows[i], if rows[i] in failing then "data_export.failed" else "data_export.completed")))
  }

  /** One event for each export that was completed. */
  function CompletedEvents(exports: map<Id, Export>, built: seq<Id>): (events: seq<OutboxEvent>)
    requires forall i :: 0 <= i < |built| ==> built[i] in exports
    ensures |events| == |built|
    ensures forall i :: 0 <= i < |built| ==> events[i] == ExportCompletedEvent(built[i], exports[built[i]].user)
  {
    seq(|built|, i requires 0 <= i < |built| => ExportCompletedEvent(built[i], exports[built[i]].user))
  }

  lemma {:induction false} EventsAre(exports: map<Id, Export>, rows: seq<Id>, failing: set<Id>)
    requires forall i :: 0 <= i < |rows| ==> rows[i] in exports
    ensures forall i :: 0 <= i < |Built(rows, failing)| ==> Built(rows, failing)[i] in exports
    ensures DataExport.CompletionEvents(exports, rows, failing) == CompletedEvents(exports, Built(rows, failing))
  {
    BuiltIs(rows, failing);
    forall i | 0 <= i < |Built(rows, failing)| ensures Built(rows, failing)[i] in exports {
      assert Built(rows, failing)[i] in rows;
    }
    if rows != [] {
      BuiltFirst(rows, failing);
      EventsAre(exports, rows[1..], failing);
      hide Built, CompletedEvents;
      var later := Built(rows[1..], failing);
      if rows[0] in failing {
        assert [] + later == later;
        assert [] + DataExport.CompletionEvents(exports, rows[1..], failing)
            == DataExport.CompletionEvents(exports, rows[1..], failing);
      } else {
        EventsCons(exports, rows[0], later);
      }
    }
  }

  lemma {:induction false} EventsCons(exports: map<Id, Export>, first: Id, built: seq<Id>)
    requires first in exports && forall i :: 0 <= i < |built| ==> built[i] in exports
    ensures CompletedEvents(exports, [first] + built)
            == [ExportCompletedEvent(first, exports[first].user)] + CompletedEvents(exports, built)
  {
  }

  /**
   A worker run takes the oldest queued requests, as many as the limit allows. Those whose package can be built are
   completed and expire seven days later, the others have failed; each gets one audit row that says which, in order, and
   each success one event; nothing else changes.
   */
  lemma {:induction false} WorkerOutcome(s: State, limit: nat, rows: seq<Id>, failing: set<Id>, now: Time)
    requires DataExport.IsOldest(s, limit, rows)
    ensures var t, built := DataExport.Finish(s, rows, failing, now), Built(rows, failing);
            && t == s.(exports := t.exports, audit := t.audit, outbox := t.outbox)
            && t.exports.Keys == s.exports.Keys
            && (forall id :: id in s.exports && id !in rows ==> t.exports[id] == s.exports[id])
            && (forall id :: id in rows ==>
                  && id in s.exports && s.exports[id].status.Queued?
                  && t.exports[id] == if id in failing
                                      then s.exports[id].(status := Failed, startedAt := Some(now))
                                      else s.exports[id].(status := Completed, startedAt := Some(now),
                                                          completedAt := Some(now),
                                                          expiresAt := Some(now + SEVEN_DAYS)))
            && (forall i :: 0 <= i < |rows| ==> rows[i] in s.exports)
            && t.audit == s.audit + WorkerLog(s.exports, rows, failing)
            && (forall i :: 0 <= i < |built| ==> built[i] in s.exports)
            && t.outbox == s.outbox + CompletedEvents(s.exports, built)
            && DataExport.Succeeded(rows, failing) == built
  {
    OldestRows(s, limit, rows);
    DataExport.FinishEffect(s, rows, failing, now);
    EventsAre(s.exports, rows, failing);
    BuiltIs(rows, failing);
    assert WorkerLog(s.exports, rows, failing) == DataExport.FinishAudit(s.exports, rows, failing);
    hide WorkerLog, DataExport.FinishAudit;
    hide DataExport.Finish, DataExport.IsOldest, DataExport.CompletionEvents, Built, DataExport.Succeeded,
         CompletedEvents;
  }

  lemma {:induction false} OldestRows(s: State, limit: nat, rows: seq<Id>)
    requires DataExport.IsOldest(s, limit, rows)
    ensures Distinct(rows) && forall i :: 0 <= i < |rows| ==> rows[i] in s.exports && s.exports[rows[i]].status.Queued?
  {
  }
}
