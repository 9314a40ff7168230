/** Account deletion: the request, and the worker that completes it after the grace period. */
module AccountDeletion {
  import opened Wrappers
  import opened AuthState

  const GRACE: Time := 7 * DAY

  function MarkDeleted(u: User, now: Time): User {
    u.(deletedAt := Some(now))
  }

  function WithRequest(s: State, userId: Id, now: Time): State
    requires userId in s.users
  {
    s.(users := s.users[userId := MarkDeleted(s.users[userId], now)],
       deletions := s.deletions[userId := Deletion(Some(userId), Scheduled, now, now + GRACE, None)],
       keys := RevokeKeys(s.keys, {userId}, now),
       audit := s.audit + [Audit(Some(userId), "user", DeletionRequested(userId, now, now + GRACE))])
  }

  /** `request_account_deletion`; the request is identified by the user it is for. */
  function Request(s: State, userId: Id, now: Time): (State, Outcome<Id>) {
    if userId !in s.users || s.users[userId].deletedAt.Some? then
      if userId in s.deletions then (s, Ok(userId)) else (s, Reject(Raised("LookupError")))
    else if userId in s.deletions then (s, Ok(userId))
    else (WithRequest(s, userId, now), Ok(userId))
  }

  /** The requests that a worker run at `now` selects. */
  function Due(s: State, now: Time): set<Id> {
    set u | u in s.deletions && s.deletions[u].status.Scheduled? && s.deletions[u].hardDeleteAt <= now
  }

  function HexDigits(n: nat, width: nat): string {
    if width == 0 then "" else HexDigits(n / 16, width - 1) + ["0123456789abcdef"[n % 16]]
  }

  /** `deleted-` and the first twelve of the 32 hexadecimal digits of the id. */
  function Alias(userId: Id): string {
    "deleted-" + HexDigits(userId / 0x1_0000_0000_0000_0000_0000, 12)
  }

  function Erased(u: User, userId: Id, now: Time): User {
    u.(phone := Alias(userId), email := Alias(userId) + "@invalid.local", eduTier := false, ageVerified := false,
       riskScore := 0, isFrozen := false, deletedAt := Some(now))
  }

  function KeysWithout(keys: map<Id, ApiKey>, userId: Id): map<Id, ApiKey> {
    map k | k in keys && keys[k].userId != userId :: keys[k]
  }

  function OtpsWithout(otps: map<Id, Otp>, userId: Id): map<Id, Otp> {
    map o | o in otps && otps[o].userId != userId :: otps[o]
  }

  function Completed(d: Deletion, now: Time): Deletion {
    d.(userRef := None, status := Done, completedAt := Some(now))
  }

  /** The iteration of the worker for one selected request. */
  function CompleteOne(s: State, userId: Id, now: Time): (r: State)
    requires userId in s.deletions
    ensures r.deletions.Keys == s.deletions.Keys
  {
    var d := s.deletions[userId];
    s.(deletions := s.deletions[userId := Completed(d, now)],
       keys := KeysWithout(s.keys, userId),
       otps := OtpsWithout(s.otps, userId),
       users := if userId in s.users then s.users[userId := Erased(s.users[userId], userId, now)] else s.users,
       audit := s.audit + [Audit(None, "system", DeletionCompleted(userId, d.hardDeleteAt, now))])
  }

  /** `complete_due_deletion_requests`, on the rows its query returned; it returns them in that order. */
  function Complete(s: State, rows: seq<Id>, now: Time): (r: State)
    requires forall i :: 0 <= i < |rows| ==> rows[i] in s.deletions
    ensures r.deletions.Keys == s.deletions.Keys
    decreases |rows|
  {
    if rows == [] then s else Complete(CompleteOne(s, rows[0], now), rows[1..], now)
  }

  // ----- the effect of a worker run

  function ErasedUsers(users: map<Id, User>, rows: seq<Id>, now: Time): map<Id, User> {
    map u | u in users :: if u in rows then Erased(users[u], u, now) else users[u]
  }

  function CompletedDeletions(deletions: map<Id, Deletion>, rows: seq<Id>, now: Time): map<Id, Deletion> {
    map u | u in deletions :: if u in rows then Completed(deletions[u], now) else deletions[u]
  }

  function CompletionAudit(deletions: map<Id, Deletion>, rows: seq<Id>, now: Time): (a: seq<Audit>)
    requires forall i :: 0 <= i < |rows| ==> rows[i] in deletions
    ensures |a| == |rows|
  {
    seq(|rows|, i requires 0 <= i < |rows| =>
      Audit(None, "system", DeletionCompleted(rows[i], deletions[rows[i]].hardDeleteAt, now)))
  }

  function KeysOutside(keys: map<Id, ApiKey>, rows: seq<Id>): map<Id, ApiKey> {
    map k | k in keys && keys[k].userId !in rows :: keys[k]
  }

  function OtpsOutside(otps: map<Id, Otp>, rows: seq<Id>): map<Id, Otp> {
    map o | o in otps && otps[o].userId !in rows :: otps[o]
  }

  /** The state after a worker run, table by table. */
  function AfterCompletion(s: State, rows: seq<Id>, now: Time): State
    requires forall i :: 0 <= i < |rows| ==> rows[i] in s.deletions
  {
    s.(users := ErasedUsers(s.users, rows, now),
       deletions := CompletedDeletions(s.deletions, rows, now),
       keys := KeysOutside(s.keys, rows),
       otps := OtpsOutside(s.otps, rows),
       audit := s.audit + CompletionAudit(s.deletions, rows, now))
  }

  /** The first selected request and the others can be treated one after the other. */
  lemma CompletionStep(s: State, first: Id, rest: seq<Id>, now: Time)
    requires first in s.deletions && first !in rest
    requires forall i :: 0 <= i < |rest| ==> rest[i] in s.deletions
    ensures AfterCompletion(CompleteOne(s, first, now), rest, now) == AfterCompletion(s, [first] + rest, now)
  {
    var next, rows := CompleteOne(s, first, now), [first] + rest;
    assert ErasedUsers(next.users, rest, now) == ErasedUsers(s.users, rows, now);
    assert CompletedDeletions(next.deletions, rest, now) == CompletedDeletions(s.deletions, rows, now);
    assert KeysOutside(next.keys, rest) == KeysOutside(s.keys, rows);
    assert OtpsOutside(next.otps, rest) == OtpsOutside(s.otps, rows);
    CompletionAuditStep(s, first, rest, now);
  }

  lemma CompletionAuditStep(s: State, first: Id, rest: seq<Id>, now: Time)
    requires first in s.deletions && first !in rest
    requires forall i :: 0 <= i < |rest| ==> rest[i] in s.deletions
    ensures var next := CompleteOne(s, first, now);
            next.audit + CompletionAudit(next.deletions, rest, now)
                == s.audit + CompletionAudit(s.deletions, [first] + rest, now)
  {
    var next := CompleteOne(s, first, now);
    var entry := Audit(None, "system", DeletionCompleted(first, s.deletions[first].hardDeleteAt, now));
    assert CompletionAudit(s.deletions, [first] + rest, now) == [entry] + CompletionAudit(next.deletions, rest, now);
  }

  /**
   A worker run erases exactly the selected accounts, drops all their keys and codes, completes their requests and
   writes one audit row for each; nothing else changes, and only the order of the audit rows depends on the order
   in which the rows came.
   */
  lemma {:induction false} CompleteEffect(s: State, rows: seq<Id>, now: Time)
    requires Distinct(rows)
    requires forall i :: 0 <= i < |rows| ==> rows[i] in s.deletions
    ensures Complete(s, rows, now) == AfterCompletion(s, rows, now)
    decreases |rows|
  {
    if rows == [] {
      assert s.audit + [] == s.audit;
      assert ErasedUsers(s.users, [], now) == s.users;
      assert CompletedDeletions(s.deletions, [], now) == s.deletions;
      assert KeysOutside(s.keys, []) == s.keys;
      assert OtpsOutside(s.otps, []) == s.otps;
    } else {
      hide AfterCompletion, CompleteOne;
      assert rows == [rows[0]] + rows[1..];
      CompletionStep(s, rows[0], rows[1..], now);
      CompleteEffect(CompleteOne(s, rows[0], now), rows[1..], now);
    }
  }

  /** The accounts agree on what an erasure keeps: the merge link and its time. */
  predicate SameLinks(a: User, b: User) {
    a.mergedInto == b.mergedInto && a.mergedAt == b.mergedAt
  }

  /**
   Nothing personal survives: a worker run leads to the same state whatever e-mail, phone, tier, score or freeze the
   erased accounts had.
   */
  lemma {:induction false} ErasureForgets(s: State, users: map<Id, User>, rows: seq<Id>, now: Time)
    requires Distinct(rows) && forall i :: 0 <= i < |rows| ==> rows[i] in s.deletions
    requires users.Keys == s.users.Keys
    requires forall u :: u in users ==> if u in rows then SameLinks(users[u], s.users[u]) else users[u] == s.users[u]
    ensures Complete(s.(users := users), rows, now) == Complete(s, rows, now)
  {
    hide Complete, Alias;
    CompleteEffect(s, rows, now);
    CompleteEffect(s.(users := users), rows, now);
    assert ErasedUsers(users, rows, now) == ErasedUsers(s.users, rows, now);
  }
}
