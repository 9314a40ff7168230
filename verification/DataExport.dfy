/** Data export requests: at most one active per user and format, finished by a worker, oldest first. */
module DataExport {
  import opened Wrappers
  import opened AuthState

  const SLA: Time := 7 * DAY
  const EXPIRY: Time := 7 * DAY

  predicate SupportedFormat(format: string) {
    format == "json" || format == "csv"
  }

  predicate Active(e: Export, now: Time) {
    && (e.status.Queued? || e.status.Processing? || e.status.Completed?)
    && (e.expiresAt.None? || e.expiresAt.value > now)
  }

  predicate ActiveFor(s: State, id: Id, user: Id, format: string, now: Time) {
    id in s.exports && s.exports[id].user == user && s.exports[id].format == format && Active(s.exports[id], now)
  }

  /** The order of the queries: by request time, then by id. */
  predicate Before(s: State, a: Id, b: Id)
    requires a in s.exports && b in s.exports
  {
    || s.exports[a].requestedAt < s.exports[b].requestedAt
    || (s.exports[a].requestedAt == s.exports[b].requestedAt && a < b)
  }

  /** The row that `_get_active_export_request` returns: the latest active request, if any. */
  ghost predicate IsActiveExport(s: State, user: Id, format: string, now: Time, r: Option<Id>) {
    match r
    case None => forall id :: id in s.exports ==> !ActiveFor(s, id, user, format, now)
    case Some(id) =>
      && ActiveFor(s, id, user, format, now)
      && forall other :: other in s.exports && other != id && ActiveFor(s, other, user, format, now) ==>
           Before(s, other, id)
  }

  /** The reference to the user is kept only for an account that exists and is not deleted. */
  function UserRef(s: State, user: Id): Option<Id> {
    if user in s.users && s.users[user].deletedAt.None? then Some(user) else None
  }

  function WithExport(s: State, user: Id, format: string, id: Id, now: Time): State {
    var row := Export(user, UserRef(s, user), format, Queued, now, now + SLA, None, None, None);
    s.(exports := s.exports[id := row],
       audit := s.audit + [Audit(UserRef(s, user), "user", ExportAudited(id, "data_export.requested"))],
       outbox := s.outbox + [ExportRequestedEvent(id, user)])
  }

  /** `request_data_export`, given the active request that was found and the id of a new row. */
  function Request(s: State, user: Id, format: string, existing: Option<Id>, newId: Id,
      now: Time): (State, Outcome<Id>) {
    if !SupportedFormat(format) then (s, Reject(Raised("ValueError")))
    else if existing.Some? then (s, Ok(existing.value))
    else (WithExport(s, user, format, newId, now), Ok(newId))
  }

  function Queue(s: State): set<Id> {
    set id | id in s.exports && s.exports[id].status.Queued?
  }

  ghost predicate Sorted(s: State, rows: seq<Id>)
    requires forall i :: 0 <= i < |rows| ==> rows[i] in s.exports
  {
    forall i, j :: 0 <= i < j < |rows| ==> Before(s, rows[i], rows[j])
  }

  /** What the worker's query returns: the oldest queued requests, in order, as many as the limit allows. */
  ghost predicate IsOldest(s: State, limit: nat, rows: seq<Id>) {
    && (forall i :: 0 <= i < |rows| ==> rows[i] in Queue(s))
    && Sorted(s, rows)
    && |rows| <= limit
    && (forall id :: id in Queue(s) && id !in rows ==>
          |rows| == limit && forall i :: 0 <= i < |rows| ==> Before(s, rows[i], id))
  }

  function Finished(e: Export, ok: bool, now: Time): Export {
    if ok then
      e.(status := Completed, startedAt := Some(now), completedAt := Some(now), expiresAt := Some(now + EXPIRY))
    else e.(status := Failed, startedAt := Some(now))
  }

  function FinishedEntry(e: Export, id: Id, ok: bool): Audit {
    Audit(e.userRef, "system", ExportAudited(id, if ok then "data_export.completed" else "data_export.failed"))
  }

  function FinishedEvents(e: Export, id: Id, ok: bool): seq<OutboxEvent> {
    if ok then [ExportCompletedEvent(id, e.user)] else []
  }

  /** The iteration of the worker for one request; `ok` says whether its package could be built. */
  function FinishOne(s: State, id: Id, ok: bool, now: Time): (r: State)
    requires id in s.exports
    ensures r.exports.Keys == s.exports.Keys
  {
    var e := s.exports[id];
    s.(exports := s.exports[id := Finished(e, ok, now)],
       audit := s.audit + [FinishedEntry(e, id, ok)],
       outbox := s.outbox + FinishedEvents(e, id, ok))
  }

  /** `complete_pending_data_export_requests` on the selected rows; `failing` are the packages that cannot be built. */
  function Finish(s: State, rows: seq<Id>, failing: set<Id>, now: Time): (r: State)
    requires forall i :: 0 <= i < |rows| ==> rows[i] in s.exports
    ensures r.exports.Keys == s.exports.Keys
    decreases |rows|
  {
    if rows == [] then s
    else Finish(FinishOne(s, rows[0], rows[0] !in failing, now), rows[1..], failing, now)
  }

  function Succeeded(rows: seq<Id>, failing: set<Id>): seq<Id> {
    if rows == [] then []
    else (if rows[0] in failing then [] else [rows[0]]) + Succeeded(rows[1..], failing)
  }

  // ----- the effect of a worker run

  function FinishedExports(exports: map<Id, Export>, rows: seq<Id>, failing: set<Id>, now: Time): (r: map<Id, Export>)
    ensures r.Keys == exports.Keys
  {
    map id | id in exports :: if id in rows then Finished(exports[id], id !in failing, now) else exports[id]
  }

  function FinishAudit(exports: map<Id, Export>, rows: seq<Id>, failing: set<Id>): (a: seq<Audit>)
    requires forall i :: 0 <= i < |rows| ==> rows[i] in exports
    ensures |a| == |rows|
  {
    seq(|rows|, i requires 0 <= i < |rows| => FinishedEntry(exports[rows[i]], rows[i], rows[i] !in failing))
  }

  /** One event for each package that could be built. */
  function CompletionEvents(exports: map<Id, Export>, rows: seq<Id>, failing: set<Id>): seq<OutboxEvent>
    requires forall i :: 0 <= i < |rows| ==> rows[i] in exports
  {
    if rows == [] then []
    else
      FinishedEvents(exports[rows[0]], rows[0], rows[0] !in failing) + CompletionEvents(exports, rows[1..], failing)
  }

  /** The state after a worker run, table by table. */
  function AfterFinish(s: State, rows: seq<Id>, failing: set<Id>, now: Time): State
    requires forall i :: 0 <= i < |rows| ==> rows[i] in s.exports
  {
    s.(exports := FinishedExports(s.exports, rows, failing, now),
       outbox := s.outbox + CompletionEvents(s.exports, rows, failing),
       audit := s.audit + FinishAudit(s.exports, rows, failing))
  }

  lemma {:induction false} FinishStep(s: State, first: Id, rest: seq<Id>, failing: set<Id>, now: Time)
    requires first in s.exports && first !in rest
    requires forall i :: 0 <= i < |rest| ==> rest[i] in s.exports
    ensures AfterFinish(FinishOne(s, first, first !in failing, now), rest, failing, now)
            == AfterFinish(s, [first] + rest, failing, now)
  {
    var next, rows := FinishOne(s, first, first !in failing, now), [first] + rest;
    assert FinishedExports(next.exports, rest, failing, now) == FinishedExports(s.exports, rows, failing, now);
    FinishAuditStep(s, first, rest, failing, now);
    CompletionEventsStep(s, first, rest, failing, now);
  }

  lemma {:induction false} FinishAuditStep(s: State, first: Id, rest: seq<Id>, failing: set<Id>, now: Time)
    requires first in s.exports && first !in rest
    requires forall i :: 0 <= i < |rest| ==> rest[i] in s.exports
    ensures var next := FinishOne(s, first, first !in failing, now);
            next.audit + FinishAudit(next.exports, rest, failing)
                == s.audit + FinishAudit(s.exports, [first] + rest, failing)
  {
    var next := FinishOne(s, first, first !in failing, now);
    FinishAuditCons(s.exports, first, rest, failing);
    SameAudit(s.exports, next.exports, rest, failing);
    var entries := [FinishedEntry(s.exports[first], first, first !in failing)];
    assert next.audit == s.audit + entries;
    hide *;
    Associative(s.audit, entries, FinishAudit(s.exports, rest, failing));
  }

  lemma {:induction false} FinishAuditCons(exports: map<Id, Export>, first: Id, rest: seq<Id>, failing: set<Id>)
    requires first in exports && forall i :: 0 <= i < |rest| ==> rest[i] in exports
    ensures FinishAudit(exports, [first] + rest, failing)
            == [FinishedEntry(exports[first], first, first !in failing)] + FinishAudit(exports, rest, failing)
  {
    hide FinishedEntry;
  }

  lemma {:induction false} SameAudit(a: map<Id, Export>, b: map<Id, Export>, rows: seq<Id>, failing: set<Id>)
    requires forall i :: 0 <= i < |rows| ==> rows[i] in a && rows[i] in b && a[rows[i]].userRef == b[rows[i]].userRef
    ensures FinishAudit(a, rows, failing) == FinishAudit(b, rows, failing)
  {
  }

  lemma {:induction false} Associative<T>(a: seq<T>, b: seq<T>, c: seq<T>)
    ensures (a + b) + c == a + (b + c)
  {
  }

  lemma {:induction false} CompletionEventsCons(exports: map<Id, Export>, first: Id, rest: seq<Id>, failing: set<Id>)
    requires first in exports && forall i :: 0 <= i < |rest| ==> rest[i] in exports
    ensures CompletionEvents(exports, [first] + rest, failing)
            == FinishedEvents(exports[first], first, first !in failing) + CompletionEvents(exports, rest, failing)
  {
    assert ([first] + rest)[1..] == rest;
  }

  lemma {:induction false} CompletionEventsStep(s: State, first: Id, rest: seq<Id>, failing: set<Id>, now: Time)
    requires first in s.exports && first !in rest
    requires forall i :: 0 <= i < |rest| ==> rest[i] in s.exports
    ensures var next := FinishOne(s, first, first !in failing, now);
            next.outbox + CompletionEvents(next.exports, rest, failing)
            == s.outbox + CompletionEvents(s.exports, [first] + rest, failing)
  {
    var next := FinishOne(s, first, first !in failing, now);
    SameEvents(s.exports, next.exports, rest, failing);
    CompletionEventsCons(s.exports, first, rest, failing);
    var events, later :=
        FinishedEvents(s.exports[first], first, first !in failing), CompletionEvents(s.exports, rest, failing);
    assert next.outbox == s.outbox + events;
    hide *;
    Associative(s.outbox, events, later);
  }

  lemma SameEvents(a: map<Id, Export>, b: map<Id, Export>, rows: seq<Id>, failing: set<Id>)
    requires forall i :: 0 <= i < |rows| ==> rows[i] in a && rows[i] in b && a[rows[i]].user == b[rows[i]].user
    ensures CompletionEvents(a, rows, failing) == CompletionEvents(b, rows, failing)
  {
  }

  /**
   A worker run finishes exactly the selected requests, each as completed or failed, writes one audit row for each
   and one event for each success, in order; nothing else changes and nothing is left processing.
   */
  lemma {:induction false} FinishEffect(s: State, rows: seq<Id>, failing: set<Id>, now: Time)
    requires Distinct(rows)
    requires forall i :: 0 <= i < |rows| ==> rows[i] in s.exports
    ensures Finish(s, rows, failing, now) == AfterFinish(s, rows, failing, now)
    decreases |rows|
  {
    if rows == [] {
      assert FinishedExports(s.exports, [], failing, now) == s.exports;
      assert s.outbox + [] == s.outbox && s.audit + [] == s.audit;
    } else {
      hide AfterFinish, FinishOne;
      assert rows == [rows[0]] + rows[1..];
      FinishStep(s, rows[0], rows[1..], failing, now);
      FinishEffect(FinishOne(s, rows[0], rows[0] !in failing, now), rows[1..], failing, now);
    }
  }
}
