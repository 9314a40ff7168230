/** Data exports over whole runs: one active request at a time, terminal states, and progress of the queue. */
module ExportLaws {
  import opened Wrappers
  import opened AuthState
  import opened AuthRuns
  import opened AuthFrames
  import opened DataExport

  // ----- at most one active request per user and format

  predicate SameKind(a: Export, b: Export) {
    a.user == b.user && a.format == b.format
  }

  ghost predicate AtMostOneActive(exports: map<Id, Export>, now: Time) {
    forall a, b :: a in exports && b in exports && a != b && SameKind(exports[a], exports[b]) ==>
      !(Active(exports[a], now) && Active(exports[b], now))
  }

  /** No request is left half processed; only completed ones expire. */
  ghost predicate ExportsSound(exports: map<Id, Export>) {
    forall id :: id in exports ==>
      && !exports[id].status.Processing?
      && (exports[id].status.Queued? ==> exports[id].expiresAt.None?)
      && (exports[id].status.Completed? ==> exports[id].expiresAt.Some?)
  }

  lemma InsertKeepsOne(exports: map<Id, Export>, id: Id, e: Export, now: Time)
    requires id !in exports && AtMostOneActive(exports, now)
    requires forall other :: other in exports && SameKind(exports[other], e) ==> !Active(exports[other], now)
    ensures AtMostOneActive(exports[id := e], now)
  {
    hide Active;
  }

  lemma FewerActive(before: map<Id, Export>, after: map<Id, Export>, now: Time)
    requires AtMostOneActive(before, now)
    requires forall id :: id in after ==> id in before && SameKind(before[id], after[id])
    requires forall id :: id in after && Active(after[id], now) ==> Active(before[id], now)
    ensures AtMostOneActive(after, now)
  {
    hide Active;
  }

  lemma RequestKeepsOne(s: State, user: Id, format: string, existing: Option<Id>, newId: Id, now: Time)
    requires newId !in s.exports && IsActiveExport(s, user, format, now, existing)
    requires AtMostOneActive(s.exports, now) && ExportsSound(s.exports)
    ensures var t := Request(s, user, format, existing, newId, now).0;
            AtMostOneActive(t.exports, now) && ExportsSound(t.exports)
  {
    var t := Request(s, user, format, existing, newId, now).0;
    if t != s {
      hide AtMostOneActive, UserRef;
      var e := t.exports[newId];
      assert forall id :: id in s.exports && SameKind(s.exports[id], e) ==> !ActiveFor(s, id, user, format, now);
      InsertKeepsOne(s.exports, newId, e, now);
      assert t.exports == s.exports[newId := e];
    }
  }

  lemma FinishedFewer(exports: map<Id, Export>, rows: seq<Id>, failing: set<Id>, now: Time)
    requires ExportsSound(exports)
    requires forall id :: id in rows ==> id in exports && exports[id].status.Queued?
    ensures var after := FinishedExports(exports, rows, failing, now);
            && ExportsSound(after)
            && forall id :: id in after ==>
                 && SameKind(exports[id], after[id])
                 && (Active(after[id], now) ==> Active(exports[id], now))
  {
  }

  lemma FinishKeepsOne(s: State, limit: nat, rows: seq<Id>, failing: set<Id>, now: Time)
    requires IsOldest(s, limit, rows)
    requires AtMostOneActive(s.exports, now) && ExportsSound(s.exports)
    ensures var t := Finish(s, rows, failing, now);
            AtMostOneActive(t.exports, now) && ExportsSound(t.exports)
  {
    FinishFrame(s, limit, rows, failing, now);
    assert forall id :: id in rows ==> id in Queue(s);
    hide AtMostOneActive, IsOldest, Finish;
    var after := FinishedExports(s.exports, rows, failing, now);
    FinishedFewer(s.exports, rows, failing, now);
    FewerActive(s.exports, after, now);
    assert AfterFinish(s, rows, failing, now).exports == after;
  }

  lemma StepKeepsOne(s: State, step: Step, now: Time)
    requires Possible(s, step)
    requires TimeOf(step).Some? ==> TimeOf(step).value == now
    requires AtMostOneActive(s.exports, now) && ExportsSound(s.exports)
    ensures AtMostOneActive(Apply(s, step).exports, now) && ExportsSound(Apply(s, step).exports)
  {
    StepFramed(s, step);
    hide AtMostOneActive, ExportsSound, Request, Finish, IsActiveExport, IsOldest;
    match step
    case RequestExport(u, format, existing, id, time) => RequestKeepsOne(s, u, format, existing, id, time);
    case FinishExports(limit, rows, failing, time) => FinishKeepsOne(s, limit, rows, failing, time);
    case _ => ExportsUntouched(s, step);
  }

  lemma ExportsUntouched(s: State, step: Step)
    requires Possible(s, step) && !step.RequestExport? && !step.FinishExports?
    ensures Apply(s, step).exports == s.exports
  {
    StepFramed(s, step);
    hide Apply, Possible;
  }

  /** What is active later was active before, as long as it did not change. */
  lemma OneActiveLater(exports: map<Id, Export>, now: Time, later: Time)
    requires AtMostOneActive(exports, now) && now <= later
    ensures AtMostOneActive(exports, later)
  {
  }

  /**
   In every state of every run, at every time from the last step on, a user has at most one active request per
   format, provided the clock never went back.
   */
  lemma {:induction false} OneActiveAlways(trace: seq<State>, steps: seq<Step>, i: nat, now: Time)
    requires IsRun(trace, steps) && ClockOrdered(steps) && i < |trace|
    requires forall j :: 0 <= j < i && TimeOf(steps[j]).Some? ==> TimeOf(steps[j]).value <= now
    ensures AtMostOneActive(trace[i].exports, now) && ExportsSound(trace[i].exports)
  {
    hide Possible, Apply, ExportsSound;
    if i == 0 {
      NoExports(trace[0].exports, now);
    } else {
      var time := TimeOf(steps[i - 1]);
      var at := if time.Some? then time.value else now;
      OneActiveAlways(trace, steps, i - 1, at);
      StepKeepsOne(trace[i - 1], steps[i - 1], at);
      OneActiveLater(trace[i].exports, at, now);
    }
  }

  lemma NoExports(exports: map<Id, Export>, now: Time)
    requires exports == map[]
    ensures AtMostOneActive(exports, now) && ExportsSound(exports)
  {
  }

  /** The query for the active request has one possible answer. */
  lemma ActiveExportUnique(s: State, user: Id, format: string, now: Time, a: Option<Id>, b: Option<Id>)
    requires IsActiveExport(s, user, format, now, a) && IsActiveExport(s, user, format, now, b)
    ensures a == b
  {
  }

  /** A request repeated while the first one is still queued gives the same request and changes nothing. */
  lemma RequestAgainSame(s: State, user: Id, format: string, id: Id, now: Time, later: Time, found: Option<Id>,
      other: Id)
    requires id !in s.exports && SupportedFormat(format) && now <= later
    requires IsActiveExport(s, user, format, now, None)
    requires IsActiveExport(Request(s, user, format, None, id, now).0, user, format, later, found)
    ensures var t := Request(s, user, format, None, id, now).0;
            found == Some(id) && Request(t, user, format, found, other, later) == (t, Ok(id))
  {
    var t := Request(s, user, format, None, id, now).0;
    assert ActiveFor(t, id, user, format, later);
    if found.Some? && found.value != id {
      assert ActiveFor(s, found.value, user, format, now);
    }
  }

  // ----- terminal states

  predicate Terminal(e: Export) {
    e.status.Completed? || e.status.Failed?
  }

  lemma FinishKeepsTerminal(s: State, limit: nat, rows: seq<Id>, failing: set<Id>, now: Time, id: Id)
    requires IsOldest(s, limit, rows) && id in s.exports
    ensures var t := Finish(s, rows, failing, now);
            id in t.exports && (Terminal(s.exports[id]) ==> t.exports[id] == s.exports[id])
  {
    FinishFrame(s, limit, rows, failing, now);
    assert id in rows ==> id in Queue(s);
    assert Finish(s, rows, failing, now).exports == FinishedExports(s.exports, rows, failing, now);
  }

  lemma {:induction false} RequestKeepsOthers(s: State, user: Id, format: string, existing: Option<Id>, newId: Id,
      now: Time, id: Id)
    requires newId !in s.exports && id in s.exports
    ensures var t := Request(s, user, format, existing, newId, now).0; id in t.exports && t.exports[id] == s.exports[id]
  {
  }

  lemma {:induction false} StepKeepsTerminal(s: State, step: Step, id: Id)
    requires Possible(s, step) && id in s.exports
    ensures id in Apply(s, step).exports
    ensures Terminal(s.exports[id]) ==> Apply(s, step).exports[id] == s.exports[id]
  {
    hide Finish, Request, IsOldest, IsActiveExport;
    if step.FinishExports? {
      FinishKeepsTerminal(s, step.limit, step.rows, step.failing, step.now, id);
    } else if step.RequestExport? {
      RequestKeepsOthers(s, step.userId, step.format, step.existing, step.exportId, step.now, id);
    } else {
      ExportsUntouched(s, step);
    }
  }

  /** A finished request is never touched again. */
  lemma {:induction false} TerminalForever(trace: seq<State>, steps: seq<Step>, i: nat, j: nat, id: Id)
    requires IsRun(trace, steps) && i <= j < |trace|
    requires id in trace[i].exports && Terminal(trace[i].exports[id])
    ensures id in trace[j].exports && trace[j].exports[id] == trace[i].exports[id]
    decreases j
  {
    hide Possible, Apply;
    if i < j {
      TerminalForever(trace, steps, i, j - 1, id);
      StepKeepsTerminal(trace[j - 1], steps[j - 1], id);
    }
  }

  /** A request that has failed or expired never becomes active again. */
  lemma NeverReactivated(trace: seq<State>, steps: seq<Step>, i: nat, j: nat, id: Id, now: Time, later: Time)
    requires IsRun(trace, steps) && ClockOrdered(steps) && i <= j < |trace| && now <= later
    requires forall k :: 0 <= k < i && TimeOf(steps[k]).Some? ==> TimeOf(steps[k]).value <= now
    requires id in trace[i].exports && !Active(trace[i].exports[id], now)
    ensures id in trace[j].exports && !Active(trace[j].exports[id], later)
  {
    OneActiveAlways(trace, steps, i, now);
    TerminalForever(trace, steps, i, j, id);
  }

  // ----- the queue

  /** The requests that the worker takes before this one. */
  function Ahead(s: State, id: Id): set<Id>
    requires id in s.exports
  {
    set q | q in Queue(s) && Before(s, q, id)
  }

  function RowSet(rows: seq<Id>): set<Id> {
    set q | q in rows
  }

  lemma {:induction false} RowSetSize(rows: seq<Id>)
    requires Distinct(rows)
    ensures |RowSet(rows)| == |rows|
  {
    if rows != [] {
      RowSetSize(rows[1..]);
      assert RowSet(rows) == {rows[0]} + RowSet(rows[1..]);
    }
  }

  lemma Subset<T>(a: set<T>, b: set<T>)
    requires a <= b
    ensures |a| <= |b| && |b - a| == |b| - |a|
  {
    assert b == a + (b - a);
  }

  /** A run takes as many requests as the limit and the queue allow. */
  lemma RunSize(s: State, limit: nat, rows: seq<Id>)
    requires IsOldest(s, limit, rows)
    ensures |rows| == if |Queue(s)| < limit then |Queue(s)| else limit
  {
    RowSetSize(rows);
    assert RowSet(rows) <= Queue(s);
    Subset(RowSet(rows), Queue(s));
    if |rows| < limit {
      assert RowSet(rows) == Queue(s);
    }
  }

  lemma TakenAhead(s: State, limit: nat, rows: seq<Id>, id: Id)
    requires IsOldest(s, limit, rows) && id in rows
    ensures Ahead(s, id) < RowSet(rows)
  {
    forall q | q in Ahead(s, id)
      ensures q in RowSet(rows) && q != id
    {
      var k :| 0 <= k < |rows| && rows[k] == id;
    }
    assert id in RowSet(rows);
  }

  /** A run takes a queued request exactly when fewer requests are ahead of it than the limit. */
  lemma TakenIff(s: State, limit: nat, rows: seq<Id>, id: Id)
    requires IsOldest(s, limit, rows) && id in Queue(s)
    ensures id in rows <==> |Ahead(s, id)| < limit
    ensures id !in rows ==> RowSet(rows) <= Ahead(s, id) && |RowSet(rows)| == limit
  {
    RowSetSize(rows);
    if id in rows {
      TakenAhead(s, limit, rows, id);
      Subset(Ahead(s, id) + {id}, RowSet(rows));
    } else {
      assert RowSet(rows) <= Ahead(s, id);
      Subset(RowSet(rows), Ahead(s, id));
    }
  }

  /** A run finishes a request or moves it forward by the whole limit. */
  lemma {:induction false} RunAdvances(s: State, limit: nat, rows: seq<Id>, failing: set<Id>, now: Time, id: Id)
    requires IsOldest(s, limit, rows) && id in Queue(s)
    ensures var t := Finish(s, rows, failing, now);
            && id in t.exports
            && (if |Ahead(s, id)| < limit then Terminal(t.exports[id])
                else id in Queue(t) && t.exports[id] == s.exports[id] && |Ahead(t, id)| == |Ahead(s, id)| - limit)
  {
    FinishFrame(s, limit, rows, failing, now);
    TakenIff(s, limit, rows, id);
    var t := Finish(s, rows, failing, now);
    assert t.exports == FinishedExports(s.exports, rows, failing, now);
    if id !in rows {
      assert Ahead(t, id) == Ahead(s, id) - RowSet(rows);
      Subset(RowSet(rows), Ahead(s, id));
    }
  }

  /**
   The step inserts a request that the worker takes before this one: its time is earlier, or equal with a smaller id.
   */
  predicate Overtakes(step: Step, e: Export, id: Id) {
    && step.RequestExport? && SupportedFormat(step.format) && step.existing.None?
    && (step.now < e.requestedAt || (step.now == e.requestedAt && step.exportId < id))
  }

  function Overtakers(steps: seq<Step>, e: Export, id: Id): nat {
    if steps == [] then 0
    else Overtakers(steps[..|steps| - 1], e, id) + if Overtakes(steps[|steps| - 1], e, id) then 1 else 0
  }

  function LimitOf(step: Step): nat {
    if step.FinishExports? then step.limit else 0
  }

  function TotalLimit(steps: seq<Step>): nat {
    if steps == [] then 0 else TotalLimit(steps[..|steps| - 1]) + LimitOf(steps[|steps| - 1])
  }

  /** At some point the limits of the worker runs add up to more than all the requests that were to be taken before. */
  ghost predicate Served(ahead: nat, steps: seq<Step>, e: Export, id: Id) {
    exists k: nat :: k <= |steps| && ServedAt(ahead, steps, e, id, k)
  }

  predicate ServedAt(ahead: nat, steps: seq<Step>, e: Export, id: Id, k: nat)
    requires k <= |steps|
  {
    ahead + Overtakers(steps[..k], e, id) < TotalLimit(steps[..k])
  }

  /** Whether a request has been served after one more step. */
  lemma {:induction false} ServedStep(ahead: nat, steps: seq<Step>, e: Export, id: Id)
    requires steps != []
    ensures Served(ahead, steps, e, id) <==>
            || Served(ahead, steps[..|steps| - 1], e, id)
            || ahead + Overtakers(steps, e, id) < TotalLimit(steps)
  {
    var before := steps[..|steps| - 1];
    assert steps[..|steps|] == steps;
    assert forall k :: 0 <= k < |steps| ==> before[..k] == steps[..k];
    hide Overtakers, TotalLimit;
    if k: nat :| k <= |before| && ServedAt(ahead, before, e, id, k) {
      assert ServedAt(ahead, steps, e, id, k);
    }
    if k: nat :| k <= |steps| && ServedAt(ahead, steps, e, id, k) {
      if k < |steps| {
        assert ServedAt(ahead, before, e, id, k);
      }
    }
    if ahead + Overtakers(steps, e, id) < TotalLimit(steps) {
      assert ServedAt(ahead, steps, e, id, |steps|);
    }
  }

  lemma {:induction false} AheadAfter(s: State, t: State, newId: Id, id: Id)
    requires id in Queue(s) && newId !in s.exports && newId in t.exports && t.exports[newId].status.Queued?
    requires t.exports == s.exports[newId := t.exports[newId]]
    ensures id in Queue(t) && t.exports[id] == s.exports[id]
    ensures Ahead(t, id) == Ahead(s, id) + if Before(t, newId, id) then {newId} else {}
  {
  }

  lemma {:induction false} RequestAdvances(s: State, user: Id, format: string, existing: Option<Id>, newId: Id,
      now: Time, id: Id)
    requires newId !in s.exports && id in Queue(s)
    ensures var t := Request(s, user, format, existing, newId, now).0;
            var step := AuthRuns.RequestExport(user, format, existing, newId, now);
            && id in Queue(t) && t.exports[id] == s.exports[id]
            && |Ahead(t, id)| == |Ahead(s, id)| + if Overtakes(step, s.exports[id], id) then 1 else 0
  {
    hide UserRef, Ahead, Queue;
    var t := Request(s, user, format, existing, newId, now).0;
    if SupportedFormat(format) && existing.None? {
      assert t.exports == s.exports[newId := t.exports[newId]];
      NotAhead(s, newId, id);
      AheadAfter(s, t, newId, id);
    } else {
      assert t == s;
    }
  }

  lemma {:induction false} NotAhead(s: State, newId: Id, id: Id)
    requires newId !in s.exports && id in Queue(s)
    ensures id in s.exports && newId !in Ahead(s, id)
  {
  }

  /** Each step adds the requests that overtake and takes off the limit of the run, until the request is finished. */
  lemma {:induction false} StepAdvances(s: State, step: Step, id: Id)
    requires Possible(s, step) && id in Queue(s)
    ensures var t := Apply(s, step);
            && id in t.exports
            && (if |Ahead(s, id)| < LimitOf(step) then Terminal(t.exports[id])
                else
                  && id in Queue(t) && t.exports[id] == s.exports[id]
                  && |Ahead(t, id)|
                     == |Ahead(s, id)| + (if Overtakes(step, s.exports[id], id) then 1 else 0) - LimitOf(step))
  {
    hide Finish, Request, IsOldest, IsActiveExport;
    if step.FinishExports? {
      RunAdvances(s, step.limit, step.rows, step.failing, step.now, id);
    } else if step.RequestExport? {
      RequestAdvances(s, step.userId, step.format, step.existing, step.exportId, step.now, id);
    } else {
      ExportsUntouched(s, step);
      hide Apply, Possible;
      assert Ahead(Apply(s, step), id) == Ahead(s, id);
    }
  }

  /**
   The queue over any stretch of any run: a queued request is finished exactly when at some point the limits of the
   worker runs added up to more than the requests ahead of it at first and those that overtook it since; until then
   the number of requests ahead is that sum less those limits.
   */
  lemma {:induction false} QueueProgress(trace: seq<State>, steps: seq<Step>, i: nat, j: nat, id: Id)
    requires IsRun(trace, steps) && i <= j < |trace|
    requires id in Queue(trace[i])
    ensures id in trace[j].exports
    ensures var ahead, e, between := |Ahead(trace[i], id)|, trace[i].exports[id], steps[i..j];
            if Served(ahead, between, e, id) then Terminal(trace[j].exports[id])
            else
              && id in Queue(trace[j]) && trace[j].exports[id] == e
              && |Ahead(trace[j], id)| == ahead + Overtakers(between, e, id) - TotalLimit(between)
    decreases j
  {
    hide Possible, Apply, Overtakes, LimitOf, Served, Ahead;
    var ahead, e, between := |Ahead(trace[i], id)|, trace[i].exports[id], steps[i..j];
    if i == j {
      assert between == [];
      NothingServed(ahead, e, id);
    } else {
      QueueProgress(trace, steps, i, j - 1, id);
      assert between[..j - 1 - i] == steps[i..j - 1] && between[j - 1 - i] == steps[j - 1];
      ServedStep(ahead, between, e, id);
      if Terminal(trace[j - 1].exports[id]) {
        StepKeepsTerminal(trace[j - 1], steps[j - 1], id);
      } else {
        StepAdvances(trace[j - 1], steps[j - 1], id);
        OnlyRunsTake(steps[j - 1], e, id);
      }
    }
  }

  lemma {:induction false} OnlyRunsTake(step: Step, e: Export, id: Id)
    ensures LimitOf(step) > 0 ==> !Overtakes(step, e, id)
  {
  }

  lemma {:induction false} NothingServed(ahead: nat, e: Export, id: Id)
    ensures !Served(ahead, [], e, id) && Overtakers([], e, id) == 0 && TotalLimit([]) == 0
  {
    var none: seq<Step> := [];
    assert none[..0] == [];
  }

  /** The number of worker runs among the steps. */
  function Runs(steps: seq<Step>): nat {
    if steps == [] then 0 else Runs(steps[..|steps| - 1]) + if steps[|steps| - 1].FinishExports? then 1 else 0
  }

  lemma {:induction false} TotalOfEqualLimits(steps: seq<Step>, limit: nat)
    requires forall k :: 0 <= k < |steps| && steps[k].FinishExports? ==> steps[k].limit == limit
    ensures TotalLimit(steps) == Runs(steps) * limit
  {
    if steps != [] {
      TotalOfEqualLimits(steps[..|steps| - 1], limit);
      assert (Runs(steps[..|steps| - 1]) + 1) * limit == Runs(steps[..|steps| - 1]) * limit + limit;
    }
  }

  /** With `k` requests to be taken before, overtakers included, `k / limit + 1` runs with that limit are enough. */
  lemma {:induction false} FinishedWithinRuns(trace: seq<State>, steps: seq<Step>, i: nat, j: nat, id: Id, limit: nat)
    requires IsRun(trace, steps) && i <= j < |trace| && limit > 0
    requires id in Queue(trace[i])
    requires forall k :: i <= k < j && steps[k].FinishExports? ==> steps[k].limit == limit
    requires Runs(steps[i..j])
             >= (|Ahead(trace[i], id)| + Overtakers(steps[i..j], trace[i].exports[id], id)) / limit + 1
    ensures id in trace[j].exports && Terminal(trace[j].exports[id])
  {
    hide Possible, Apply, Ahead, Overtakers, TotalLimit, Runs, Before;
    var ahead, e, between := |Ahead(trace[i], id)|, trace[i].exports[id], steps[i..j];
    QueueProgress(trace, steps, i, j, id);
    ServedByRuns(ahead, between, e, id, limit);
  }

  lemma {:induction false} ServedByRuns(ahead: nat, steps: seq<Step>, e: Export, id: Id, limit: nat)
    requires limit > 0 && forall k :: 0 <= k < |steps| && steps[k].FinishExports? ==> steps[k].limit == limit
    requires Runs(steps) >= (ahead + Overtakers(steps, e, id)) / limit + 1
    ensures Served(ahead, steps, e, id)
  {
    hide Overtakers, TotalLimit, Runs;
    TotalOfEqualLimits(steps, limit);
    EnoughRuns(Runs(steps), ahead + Overtakers(steps, e, id), limit);
    assert steps[..|steps|] == steps;
    assert ServedAt(ahead, steps, e, id, |steps|);
  }

  /** Where nothing overtakes, only the requests ahead at first count. */
  lemma {:induction false} NobodyOvertakes(steps: seq<Step>, e: Export, id: Id)
    ensures Overtakers(steps, e, id) == 0 <==> forall k :: 0 <= k < |steps| ==> !Overtakes(steps[k], e, id)
  {
    hide Overtakes;
    if steps != [] {
      var before := steps[..|steps| - 1];
      NobodyOvertakes(before, e, id);
      assert forall k :: 0 <= k < |before| ==> before[k] == steps[k];
    }
  }

  lemma {:induction false} EnoughRuns(runs: nat, ahead: nat, limit: nat)
    requires limit > 0 && runs >= ahead / limit + 1
    ensures ahead < runs * limit
  {
    assert ahead < (ahead / limit + 1) * limit;
    assert runs * limit >= (ahead / limit + 1) * limit;
  }

  // ----- who can overtake

  lemma {:induction false} StepKeepsRequestTime(s: State, step: Step, id: Id)
    requires Possible(s, step)
    ensures id in s.exports ==>
            id in Apply(s, step).exports && Apply(s, step).exports[id].requestedAt == s.exports[id].requestedAt
    ensures id in Apply(s, step).exports && id !in s.exports ==>
              step.RequestExport? && step.exportId == id && Apply(s, step).exports[id].requestedAt == step.now
  {
    hide Finish, Request, IsOldest, IsActiveExport;
    if step.FinishExports? {
      FinishKeepsTime(s, step.limit, step.rows, step.failing, step.now, id);
    } else if step.RequestExport? {
      RequestTime(s, step.userId, step.format, step.existing, step.exportId, step.now, id);
    } else {
      ExportsUntouched(s, step);
      hide Apply, Possible;
    }
  }

  lemma {:induction false} FinishKeepsTime(s: State, limit: nat, rows: seq<Id>, failing: set<Id>, now: Time, id: Id)
    requires IsOldest(s, limit, rows)
    ensures var t := Finish(s, rows, failing, now);
            && (id in t.exports <==> id in s.exports)
            && (id in s.exports ==> t.exports[id].requestedAt == s.exports[id].requestedAt)
  {
    FinishFrame(s, limit, rows, failing, now);
    hide IsOldest;
    assert Finish(s, rows, failing, now).exports == FinishedExports(s.exports, rows, failing, now);
  }

  lemma {:induction false} RequestTime(s: State, user: Id, format: string, existing: Option<Id>, newId: Id, now: Time,
      id: Id)
    requires newId !in s.exports
    ensures var t := Request(s, user, format, existing, newId, now).0;
            && (id in s.exports ==> id in t.exports && t.exports[id] == s.exports[id])
            && (id in t.exports && id !in s.exports ==> id == newId && t.exports[id].requestedAt == now)
  {
    hide UserRef;
  }

  /** Every request was made by a step of the run, at the time it carries. */
  lemma {:induction false} RequestedByStep(trace: seq<State>, steps: seq<Step>, i: nat, id: Id) returns (m: nat)
    requires IsRun(trace, steps) && i < |trace| && id in trace[i].exports
    ensures m < i && steps[m].RequestExport? && steps[m].now == trace[i].exports[id].requestedAt
  {
    hide Possible, Apply;
    if i == 0 {
      assert false;
    } else {
      StepKeepsRequestTime(trace[i - 1], steps[i - 1], id);
      if id in trace[i - 1].exports {
        m := RequestedByStep(trace, steps, i - 1, id);
      } else {
        m := i - 1;
      }
    }
  }

  /** With an ordered clock only a request made at the very same time, with a smaller id, can overtake. */
  lemma {:induction false} OvertakersCoincide(trace: seq<State>, steps: seq<Step>, i: nat, k: nat, id: Id)
    requires IsRun(trace, steps) && ClockOrdered(steps) && i <= k < |steps|
    requires id in trace[i].exports && Overtakes(steps[k], trace[i].exports[id], id)
    ensures steps[k].now == trace[i].exports[id].requestedAt && steps[k].exportId < id
  {
    var m := RequestedByStep(trace, steps, i, id);
    hide IsRun, Possible, Apply;
    assert TimeOf(steps[m]) == Some(steps[m].now) && TimeOf(steps[k]) == Some(steps[k].now);
  }
}
