/** What a deletion request and the deletion worker answer and change, said of the tables alone. */
module DeletionOutcomes {
  import opened Wrappers
  import opened AuthState
  import AccountDeletion

  const SEVEN_DAYS: Time := 7 * 24 * 60 * 60

  /**
   A deletion is scheduled for a live account without a request: the account is marked, its live keys are revoked, and
   its request is due seven days later. An account with a request keeps it, and no other account is known.
   */
  lemma {:induction false} RequestOutcome(s: State, u: Id, now: Time)
    ensures var (t, r) := AccountDeletion.Request(s, u, now);
            var isNew := u in s.users && s.users[u].deletedAt.None? && u !in s.deletions;
            && (r.Ok? <==> isNew || u in s.deletions) && (r.Ok? ==> r.value == u)
            && (r.Reject? ==> r == Reject(Raised("LookupError")))
            && (!isNew ==> t == s)
            && (isNew ==>
                  && t == s.(users := s.users[u := s.users[u].(deletedAt := Some(now))],
                             deletions := s.deletions[u := Deletion(Some(u), Scheduled, now, now + SEVEN_DAYS, None)],
                             keys := t.keys,
                             audit := s.audit + [Audit(Some(u), "user", DeletionRequested(u, now, now + SEVEN_DAYS))])
                  && t.keys.Keys == s.keys.Keys
                  && forall k :: k in s.keys ==>
                       t.keys[k] == if s.keys[k].userId == u && s.keys[k].revokedAt.None?
                                    then s.keys[k].(revokedAt := Some(now)) else s.keys[k])
  {
    RevokedKeys(s.keys, u, now);
    hide RevokeKeys;
  }

  lemma {:induction false} RevokedKeys(keys: map<Id, ApiKey>, u: Id, now: Time)
    ensures forall k :: k in keys ==>
              RevokeKeys(keys, {u}, now)[k] == if keys[k].userId == u && keys[k].revokedAt.None?
                                               then keys[k].(revokedAt := Some(now)) else keys[k]
  {
  }

  // ----- the name of an erased account

  /** The number that lower-case hexadecimal digits write. */
  ghost predicate WritesHex(digits: string, n: nat)
    decreases |digits|
  {
    if digits == "" then n == 0
    else
      var last := digits[|digits| - 1];
      && WritesHex(digits[..|digits| - 1], n / 16)
      && ((n % 16 < 10 && last == '0' + (n % 16) as char) || (n % 16 >= 10 && last == 'a' + (n % 16 - 10) as char))
  }

  function Power16(width: nat): (p: nat)
    ensures p > 0
  {
    if width == 0 then 1 else 16 * Power16(width - 1)
  }

  lemma {:induction false} HexDigitsWrite(n: nat, width: nat)
    requires n < Power16(width)
    ensures |AccountDeletion.HexDigits(n, width)| == width && WritesHex(AccountDeletion.HexDigits(n, width), n)
  {
    if width > 0 {
      HexDigitsWrite(n / 16, width - 1);
      var front, all := AccountDeletion.HexDigits(n / 16, width - 1), AccountDeletion.HexDigits(n, width);
      assert all[..|all| - 1] == front;
      HexDigitIs(n % 16);
    }
  }

  lemma {:induction false} HexDigitIs(d: nat)
    requires d < 16
    ensures "0123456789abcdef"[d] == if d < 10 then '0' + d as char else 'a' + (d - 10) as char
  {
  }

  const TWENTY_DIGITS: nat := 0x1_0000_0000_0000_0000_0000
  const ALL_DIGITS: nat := 0x1_0000_0000_0000_0000_0000_0000_0000_0000

  /** The name of an erased account: the first twelve of the thirty-two digits of its id. */
  ghost predicate IsAlias(u: Id, alias: string) {
    && |alias| == 20 && alias[..8] == "deleted-"
    && WritesHex(alias[8..], u / TWENTY_DIGITS)
  }

  lemma {:induction false} AliasIs(u: Id)
    requires u < ALL_DIGITS
    ensures IsAlias(u, AccountDeletion.Alias(u))
  {
    var top := u / TWENTY_DIGITS;
    TwelveDigits();
    assert top < 0x1_0000_0000_0000;
    hide Power16, AccountDeletion.HexDigits;
    HexDigitsWrite(top, 12);
    var alias := AccountDeletion.Alias(u);
    assert alias == "deleted-" + AccountDeletion.HexDigits(top, 12);
    assert alias[..8] == "deleted-" && alias[8..] == AccountDeletion.HexDigits(top, 12);
  }

  lemma {:induction false} PowerSum(a: nat, b: nat)
    ensures Power16(a + b) == Power16(a) * Power16(b)
  {
    if a > 0 {
      PowerSum(a - 1, b);
    }
  }

  lemma {:induction false} TwelveDigits()
    ensures Power16(12) == 0x1_0000_0000_0000
  {
    assert Power16(4) == 0x1_0000;
    PowerSum(4, 4);
    PowerSum(8, 4);
  }

  // ----- a worker run

  /** A request whose time has come. */
  predicate IsDue(s: State, now: Time, u: Id) {
    u in s.deletions && s.deletions[u].status.Scheduled? && s.deletions[u].hardDeleteAt <= now
  }

  /** An erased account: nothing but its merge is left of it. */
  ghost predicate IsErased(before: User, after: User, u: Id, now: Time) {
    && after.email == after.phone + "@invalid.local" && (u < ALL_DIGITS ==> IsAlias(u, after.phone))
    && !after.eduTier && !after.ageVerified && after.riskScore == 0 && !after.isFrozen && after.deletedAt == Some(now)
    && after.mergedInto == before.mergedInto && after.mergedAt == before.mergedAt
  }

  /** One row for each request that was completed. */
  function WorkerLog(deletions: map<Id, Deletion>, rows: seq<Id>, now: Time): (log: seq<Audit>)
    requires forall i :: 0 <= i < |rows| ==> rows[i] in deletions
    ensures |log| == |rows|
    ensures forall i :: 0 <= i < |rows| ==>
              log[i] == Audit(None, "system", DeletionCompleted(rows[i], deletions[rows[i]].hardDeleteAt, now))
  {
    seq(|rows|, i requires 0 <= i < |rows| =>
      Audit(None, "system", DeletionCompleted(rows[i], deletions[rows[i]].hardDeleteAt, now)))
  }

  /**
   A worker run erases exactly the accounts whose requests are due, deletes their keys and codes, completes their
   requests and logs each once; nothing else changes.
   */
  lemma {:induction false} WorkerOutcome(s: State, rows: seq<Id>, now: Time)
    requires Enumerates(rows, AccountDeletion.Due(s, now))
    ensures var t := AccountDeletion.Complete(s, rows, now);
            && (forall u :: u in rows <==> IsDue(s, now, u))
            && t == s.(users := t.users, deletions := t.deletions, keys := t.keys, otps := t.otps, audit := t.audit)
            && t.users.Keys == s.users.Keys && t.deletions.Keys == s.deletions.Keys
            && (forall u :: u in s.users ==>
                  if IsDue(s, now, u) then IsErased(s.users[u], t.users[u], u, now) else t.users[u] == s.users[u])
            && (forall u :: u in s.deletions ==>
                  t.deletions[u] == if IsDue(s, now, u)
                                    then s.deletions[u].(userRef := None, status := Done, completedAt := Some(now))
                                    else s.deletions[u])
            && (forall k :: k in t.keys <==> k in s.keys && !IsDue(s, now, s.keys[k].userId))
            && (forall k :: k in t.keys ==> t.keys[k] == s.keys[k])
            && (forall o :: o in t.otps <==> o in s.otps && !IsDue(s, now, s.otps[o].userId))
            && (forall o :: o in t.otps ==> t.otps[o] == s.otps[o])
            && t.audit == s.audit + WorkerLog(s.deletions, rows, now)
  {
    DueRows(s, rows, now);
    AccountDeletion.CompleteEffect(s, rows, now);
    hide AccountDeletion.Complete, Enumerates, IsErased, IsDue, AccountDeletion.Erased;
    ErasedAre(s.users, rows, now);
    CompletedAre(s, rows, now);
    assert WorkerLog(s.deletions, rows, now) == AccountDeletion.CompletionAudit(s.deletions, rows, now);
    hide WorkerLog, AccountDeletion.CompletionAudit;
    hide AccountDeletion.ErasedUsers, AccountDeletion.CompletedDeletions, AccountDeletion.KeysOutside,
         AccountDeletion.OtpsOutside;
  }

  lemma {:induction false} DueRows(s: State, rows: seq<Id>, now: Time)
    requires Enumerates(rows, AccountDeletion.Due(s, now))
    ensures Distinct(rows) && forall u :: u in rows <==> IsDue(s, now, u)
  {
  }

  lemma {:induction false} ErasedAre(users: map<Id, User>, rows: seq<Id>, now: Time)
    ensures var after := AccountDeletion.ErasedUsers(users, rows, now);
            && after.Keys == users.Keys
            && forall u :: u in users ==>
                 if u in rows then IsErased(users[u], after[u], u, now) else after[u] == users[u]
  {
    hide IsErased, AccountDeletion.Erased;
    forall u | u in users ensures IsErased(users[u], AccountDeletion.Erased(users[u], u, now), u, now) {
      ErasedIs(users[u], u, now);
    }
  }

  lemma {:induction false} ErasedIs(user: User, u: Id, now: Time)
    ensures IsErased(user, AccountDeletion.Erased(user, u, now), u, now)
  {
    hide IsAlias, AccountDeletion.Alias;
    if u < ALL_DIGITS {
      AliasIs(u);
    }
  }

  lemma {:induction false} CompletedAre(s: State, rows: seq<Id>, now: Time)
    ensures var d := AccountDeletion.CompletedDeletions(s.deletions, rows, now);
            && d.Keys == s.deletions.Keys
            && forall u :: u in s.deletions ==>
                 d[u] == if u in rows then s.deletions[u].(userRef := None, status := Done, completedAt := Some(now))
                         else s.deletions[u]
    ensures var keys := AccountDeletion.KeysOutside(s.keys, rows);
            && (forall k :: k in keys <==> k in s.keys && s.keys[k].userId !in rows)
            && forall k :: k in keys ==> keys[k] == s.keys[k]
    ensures var otps := AccountDeletion.OtpsOutside(s.otps, rows);
            && (forall o :: o in otps <==> o in s.otps && s.otps[o].userId !in rows)
            && forall o :: o in otps ==> otps[o] == s.otps[o]
  {
  }
}
