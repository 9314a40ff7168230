/** Deletion and retirement, over whole runs: who can still hold keys, and what the deletion worker does. */
module DeletionLaws {
  import opened Wrappers
  import opened AuthState
  import opened AuthRuns
  import opened AuthFrames
  import AccountMerge
  import AccountDeletion
  import Accounts
  import Risk

  /** An account is deleted exactly when it has a deletion request, and the request's dates add up. */
  ghost predicate RequestsSound(users: map<Id, User>, deletions: map<Id, Deletion>) {
    && (forall u :: u in users ==> (users[u].deletedAt.Some? <==> u in deletions))
    && (forall u :: u in deletions ==>
          && u in users
          && deletions[u].hardDeleteAt == deletions[u].requestedAt + AccountDeletion.GRACE
          && (deletions[u].status.Scheduled? ==> deletions[u].completedAt.None? && deletions[u].userRef == Some(u))
          && (deletions[u].status.Done? ==>
                && deletions[u].userRef.None?
                && deletions[u].completedAt.Some? && deletions[u].completedAt.value >= deletions[u].hardDeleteAt
                && AccountMerge.EndsWith(users[u].email, "@invalid.local")))
  }

  /** Nobody who was deleted or merged holds a key that is not revoked. */
  ghost predicate LiveKeysHeldByLive(users: map<Id, User>, keys: map<Id, ApiKey>) {
    forall k :: k in keys && keys[k].revokedAt.None? ==>
      && keys[k].userId in users
      && users[keys[k].userId].deletedAt.None? && users[keys[k].userId].mergedAt.None?
  }

  /** Nothing is left of the keys and codes of an erased account. */
  ghost predicate ErasedLeaveNothing(deletions: map<Id, Deletion>, keys: map<Id, ApiKey>, otps: map<Id, Otp>) {
    && (forall k :: k in keys && keys[k].userId in deletions ==> deletions[keys[k].userId].status.Scheduled?)
    && (forall o :: o in otps && otps[o].userId in deletions ==> deletions[otps[o].userId].status.Scheduled?)
  }

  /** Keys and codes belong to accounts. */
  ghost predicate OwnersExist(users: map<Id, User>, keys: map<Id, ApiKey>, otps: map<Id, Otp>) {
    && (forall k :: k in keys ==> keys[k].userId in users)
    && (forall o :: o in otps ==> otps[o].userId in users)
  }

  ghost predicate Retirement(s: State) {
    && RequestsSound(s.users, s.deletions)
    && LiveKeysHeldByLive(s.users, s.keys)
    && ErasedLeaveNothing(s.deletions, s.keys, s.otps)
    && OwnersExist(s.users, s.keys, s.otps)
  }

  // ----- every step keeps it

  lemma SteadyRetirement(s: State, users: map<Id, User>)
    requires Retirement(s) && Steady(s.users, users)
    ensures Retirement(s.(users := users))
  {
    hide AccountMerge.EndsWith;
  }

  /** Only the tables that retirement is about matter. */
  lemma SameRetirement(s: State, t: State)
    requires Retirement(s)
    requires t.users == s.users && t.keys == s.keys && t.otps == s.otps && t.deletions == s.deletions
    ensures Retirement(t)
  {
    hide RequestsSound, LiveKeysHeldByLive, ErasedLeaveNothing, OwnersExist;
  }

  lemma NewAccountRetirement(s: State, u: Id, user: User)
    requires Retirement(s) && u !in s.users && user.deletedAt.None?
    ensures Retirement(s.(users := s.users[u := user]))
  {
    hide AccountMerge.EndsWith;
  }

  lemma SteadyStepRetirement(s: State, t: State)
    requires Retirement(s) && Steady(s.users, t.users)
    requires t.keys == s.keys && t.otps == s.otps && t.deletions == s.deletions
    ensures Retirement(t)
  {
    hide Retirement, Steady;
    SteadyRetirement(s, t.users);
    SameRetirement(s.(users := t.users), t);
  }

  lemma SignupRetirement(s: State, u: Id, email: string, phone: string, eduTier: bool, triggered: seq<string>)
    requires Retirement(s) && u !in s.users
    ensures Retirement(Accounts.Signup(s, u, email, phone, eduTier, triggered).0)
  {
    var t := Accounts.Signup(s, u, email, phone, eduTier, triggered).0;
    SignupFrame(s, u, email, phone, eduTier, triggered);
    hide Retirement, Steady, Accounts.Signup;
    if t.users == s.users {
      SameRetirement(s, t);
    } else {
      var user := Accounts.NewUser(email, phone, eduTier);
      NewAccountRetirement(s, u, user);
      SteadyStepRetirement(s.(users := s.users[u := user]), t);
    }
  }

  lemma AccountStepRetirement(s: State, step: Step)
    requires Retirement(s) && Possible(s, step) && IsAccountStep(step)
    ensures Retirement(Apply(s, step))
  {
    hide Retirement, Accounts.Signup, Accounts.CreateKey, Accounts.RequestOtp, Accounts.SetPreference, Accounts.SetRule,
         Risk.ApplyFlags, Risk.AddRiskFlag, Risk.UnfreezeUser, Steady;
    AccountStepFramed(s, step);
    match step
    case Signup(u, email, phone, eduTier, triggered) => SignupRetirement(s, u, email, phone, eduTier, triggered);
    case CreateKey(u, k) => CreateKeyRetirement(s, u, k);
    case RequestOtp(u, a, b) => RequestOtpRetirement(s, u, a, b);
    case SetPreference(_, _) => SameRetirement(s, Apply(s, step));
    case SetRule(_, _) => SameRetirement(s, Apply(s, step));
    case ApplyFlags(u, newFlags) =>
      ApplyFlagsFrame(s, u, newFlags);
      SteadyStepRetirement(s, Apply(s, step));
    case AddRiskFlag(u, code, mentions) =>
      AddRiskFlagFrame(s, u, code, mentions);
      SteadyStepRetirement(s, Apply(s, step));
    case UnfreezeUser(u) =>
      UnfreezeFrame(s, u);
      SteadyStepRetirement(s, Apply(s, step));
  }

  lemma {:induction false} NotDeletedNoRequest(s: State, u: Id)
    requires RequestsSound(s.users, s.deletions) && u in s.users && s.users[u].deletedAt.None?
    ensures u !in s.deletions
  {
    hide AccountMerge.EndsWith;
  }

  lemma {:induction false} CreateKeyRetirement(s: State, u: Id, k: Id)
    requires Retirement(s) && k !in s.keys
    ensures Retirement(Accounts.CreateKey(s, u, k).0)
  {
    var t := Accounts.CreateKey(s, u, k).0;
    if t != s {
      assert t == Accounts.WithKey(s, u, k);
      hide Accounts.CreateKey, RequestsSound;
      assert ErasedLeaveNothing(t.deletions, t.keys, t.otps) by {
        hide LiveKeysHeldByLive;
        assert u !in s.deletions by { NotDeletedNoRequest(s, u); }
      }
    } else {
      hide *;
    }
  }

  lemma RequestOtpRetirement(s: State, u: Id, a: Id, b: Id)
    requires Retirement(s) && a !in s.otps && b !in s.otps && a != b
    ensures Retirement(Accounts.RequestOtp(s, u, a, b).0)
  {
    var t := Accounts.RequestOtp(s, u, a, b).0;
    if t != s {
      assert t == Accounts.WithOtps(s, u, a, b);
      hide Accounts.RequestOtp, AccountMerge.EndsWith;
    } else {
      hide *;
    }
  }

  lemma MergedUsersRequests(users: map<Id, User>, deletions: map<Id, Deletion>, primary: Id, duplicates: seq<Id>,
      now: Time)
    requires RequestsSound(users, deletions)
    ensures RequestsSound(AccountMerge.MergedUsers(users, primary, duplicates, now), deletions)
  {
    hide AccountMerge.EndsWith;
  }

  lemma MergedUsersKeys(users: map<Id, User>, keys: map<Id, ApiKey>, primary: Id, duplicates: seq<Id>, owners: set<Id>,
      now: Time)
    requires LiveKeysHeldByLive(users, keys)
    requires forall d :: d in duplicates ==> d in owners
    ensures LiveKeysHeldByLive(AccountMerge.MergedUsers(users, primary, duplicates, now), RevokeKeys(keys, owners, now))
  {
  }

  lemma RevokedKeysOwners(s: State, owners: set<Id>, now: Time)
    requires ErasedLeaveNothing(s.deletions, s.keys, s.otps) && OwnersExist(s.users, s.keys, s.otps)
    ensures ErasedLeaveNothing(s.deletions, RevokeKeys(s.keys, owners, now), s.otps)
    ensures OwnersExist(s.users, RevokeKeys(s.keys, owners, now), s.otps)
  {
  }

  lemma AcceptRetirement(s: State, u: Id, id: Id, now: Time)
    requires Retirement(s)
    ensures Retirement(AccountMerge.Accept(s, u, id, now).0)
  {
    hide AccountMerge.AcceptProblem, RequestsSound, LiveKeysHeldByLive, ErasedLeaveNothing, AccountMerge.MergedUsers,
         RevokeKeys;
    var t := AccountMerge.Accept(s, u, id, now).0;
    if t != s {
      var p := s.proposals[id];
      var owners := set i | 0 <= i < |p.duplicates| :: p.duplicates[i];
      assert t.users == AccountMerge.MergedUsers(s.users, p.primary, p.duplicates, now);
      assert t.keys == RevokeKeys(s.keys, owners, now);
      assert forall d :: d in p.duplicates ==> d in owners;
      MergedUsersRequests(s.users, s.deletions, p.primary, p.duplicates, now);
      MergedUsersKeys(s.users, s.keys, p.primary, p.duplicates, owners, now);
      RevokedKeysOwners(s, owners, now);
    }
  }

  lemma RequestDeletionRequests(s: State, u: Id, now: Time)
    requires RequestsSound(s.users, s.deletions)
    ensures var t := AccountDeletion.Request(s, u, now).0; RequestsSound(t.users, t.deletions)
  {
    hide AccountMerge.EndsWith, RevokeKeys;
    var t := AccountDeletion.Request(s, u, now).0;
    if t != s {
      assert t == AccountDeletion.WithRequest(s, u, now);
      hide AccountDeletion.Request;
    } else {
      hide *;
    }
  }

  lemma RequestDeletionKeys(s: State, u: Id, now: Time)
    requires RequestsSound(s.users, s.deletions) && LiveKeysHeldByLive(s.users, s.keys)
    ensures var t := AccountDeletion.Request(s, u, now).0; LiveKeysHeldByLive(t.users, t.keys)
  {
    hide AccountMerge.EndsWith;
  }

  lemma RequestDeletionRetirement(s: State, u: Id, now: Time)
    requires Retirement(s)
    ensures Retirement(AccountDeletion.Request(s, u, now).0)
  {
    RequestDeletionRequests(s, u, now);
    RequestDeletionKeys(s, u, now);
    RevokedKeysOwners(s, {u}, now);
    hide RequestsSound, LiveKeysHeldByLive, RevokeKeys;
  }

  lemma AliasEnds(u: Id, user: User, now: Time)
    ensures AccountMerge.EndsWith(AccountDeletion.Erased(user, u, now).email, "@invalid.local")
  {
    var alias, suffix := AccountDeletion.Alias(u), "@invalid.local";
    assert (alias + suffix)[|alias|..] == suffix;
  }

  lemma CompletedRequests(users: map<Id, User>, deletions: map<Id, Deletion>, rows: seq<Id>, now: Time)
    requires RequestsSound(users, deletions)
    requires forall u :: u in rows ==> u in deletions && deletions[u].hardDeleteAt <= now
    ensures RequestsSound(AccountDeletion.ErasedUsers(users, rows, now),
                          AccountDeletion.CompletedDeletions(deletions, rows, now))
  {
    hide AccountMerge.EndsWith, AccountDeletion.Alias;
    forall u | u in users
      ensures AccountMerge.EndsWith(AccountDeletion.Erased(users[u], u, now).email, "@invalid.local")
    {
      AliasEnds(u, users[u], now);
    }
  }

  lemma CompletedKeys(s: State, rows: seq<Id>, now: Time)
    requires LiveKeysHeldByLive(s.users, s.keys) && ErasedLeaveNothing(s.deletions, s.keys, s.otps)
    requires OwnersExist(s.users, s.keys, s.otps)
    ensures var keys, otps := AccountDeletion.KeysOutside(s.keys, rows), AccountDeletion.OtpsOutside(s.otps, rows);
            && LiveKeysHeldByLive(AccountDeletion.ErasedUsers(s.users, rows, now), keys)
            && ErasedLeaveNothing(AccountDeletion.CompletedDeletions(s.deletions, rows, now), keys, otps)
            && OwnersExist(AccountDeletion.ErasedUsers(s.users, rows, now), keys, otps)
  {
    hide AccountDeletion.Alias;
  }

  lemma CompleteRetirement(s: State, rows: seq<Id>, now: Time)
    requires Retirement(s) && Enumerates(rows, AccountDeletion.Due(s, now))
    ensures Retirement(AccountDeletion.Complete(s, rows, now))
  {
    CompleteFrame(s, rows, now);
    assert forall u :: u in rows ==> u in s.deletions && s.deletions[u].hardDeleteAt <= now;
    hide RequestsSound, LiveKeysHeldByLive, ErasedLeaveNothing, OwnersExist, AccountDeletion.Complete;
    CompletedRequests(s.users, s.deletions, rows, now);
    CompletedKeys(s, rows, now);
  }

  lemma ServiceStepRetirement(s: State, step: Step)
    requires Retirement(s) && Possible(s, step) && !IsAccountStep(step)
    ensures Retirement(Apply(s, step))
  {
    ServiceStepFramed(s, step);
    hide Retirement, AccountMerge.Create, AccountMerge.Review, AccountMerge.Accept, AccountDeletion.Request,
         AccountDeletion.Complete, Enumerates;
    var t := Apply(s, step);
    match step
    case AcceptProposal(u, id, now) => AcceptRetirement(s, u, id, now);
    case RequestDeletion(u, now) => RequestDeletionRetirement(s, u, now);
    case CompleteDeletions(rows, now) => CompleteRetirement(s, rows, now);
    case _ => SameRetirement(s, t);
  }

  /**
   In every state of every run: an account is deleted exactly when it has a request; no request was completed before
   its seven days were over; deleted and merged accounts hold no live key; erased ones hold no key and no code at all.
   */
  lemma {:induction false} RetirementAlways(trace: seq<State>, steps: seq<Step>, i: nat)
    requires IsRun(trace, steps) && i < |trace|
    ensures Retirement(trace[i])
  {
    hide Possible, Apply;
    if i > 0 {
      RetirementAlways(trace, steps, i - 1);
      hide Retirement;
      if IsAccountStep(steps[i - 1]) {
        AccountStepRetirement(trace[i - 1], steps[i - 1]);
      } else {
        ServiceStepRetirement(trace[i - 1], steps[i - 1]);
      }
    }
  }

  // ----- requesting a deletion

  /** The branch for an active account that already has a request is never taken. */
  lemma ActiveHasNoRequest(trace: seq<State>, steps: seq<Step>, i: nat, u: Id)
    requires IsRun(trace, steps) && i < |trace|
    requires u in trace[i].users && trace[i].users[u].deletedAt.None?
    ensures u !in trace[i].deletions
  {
    RetirementAlways(trace, steps, i);
  }

  /** A request for an account that has one changes nothing and gives the same request. */
  lemma RequestAgain(s: State, u: Id, now: Time, later: Time)
    requires AccountDeletion.Request(s, u, now).1.Ok?
    ensures var once := AccountDeletion.Request(s, u, now).0;
            u in once.deletions && AccountDeletion.Request(once, u, later) == (once, Ok(u))
  {
  }

  // ----- the worker

  ghost predicate Erased(s: State, u: Id) {
    u in s.deletions && s.deletions[u].status.Done?
  }

  /** A run completes exactly the requests that were due, and keeps the others as they were. */
  lemma WorkerCompletesDue(s: State, rows: seq<Id>, now: Time)
    requires Enumerates(rows, AccountDeletion.Due(s, now))
    ensures var t := AccountDeletion.Complete(s, rows, now);
            && t.deletions.Keys == s.deletions.Keys
            && (forall u :: Erased(t, u) <==> Erased(s, u) || u in AccountDeletion.Due(s, now))
            && (forall u :: u in s.deletions && u !in AccountDeletion.Due(s, now) ==> t.deletions[u] == s.deletions[u])
  {
    CompleteFrame(s, rows, now);
  }

  /** A second run at the same time finds nothing to do. */
  lemma WorkerTwice(s: State, rows: seq<Id>, again: seq<Id>, now: Time)
    requires Enumerates(rows, AccountDeletion.Due(s, now))
    requires Enumerates(again, AccountDeletion.Due(AccountDeletion.Complete(s, rows, now), now))
    ensures again == []
    ensures AccountDeletion.Complete(AccountDeletion.Complete(s, rows, now), again, now)
            == AccountDeletion.Complete(s, rows, now)
  {
    WorkerCompletesDue(s, rows, now);
    var t := AccountDeletion.Complete(s, rows, now);
    forall u
      ensures u !in AccountDeletion.Due(t, now)
    {
      if u in s.deletions {
        assert u in AccountDeletion.Due(s, now) ==> Erased(t, u);
        assert u !in AccountDeletion.Due(s, now) ==> t.deletions[u] == s.deletions[u];
      }
    }
    NothingToEnumerate(again, AccountDeletion.Due(t, now));
  }

  /** Two runs, one after the other, erase the same accounts as the later one alone, and none of them twice. */
  lemma WorkerSplit(s: State, first: seq<Id>, second: seq<Id>, alone: seq<Id>, t1: Time, t2: Time)
    requires t1 <= t2
    requires Enumerates(first, AccountDeletion.Due(s, t1))
    requires Enumerates(second, AccountDeletion.Due(AccountDeletion.Complete(s, first, t1), t2))
    requires Enumerates(alone, AccountDeletion.Due(s, t2))
    ensures forall u :: u in first ==> u !in second
    ensures forall u :: u in alone <==> u in first || u in second
    ensures var split := AccountDeletion.Complete(AccountDeletion.Complete(s, first, t1), second, t2);
            forall u :: Erased(split, u) <==> Erased(AccountDeletion.Complete(s, alone, t2), u)
  {
    WorkerCompletesDue(s, first, t1);
    DueAfter(s, first, t1, t2);
    WorkerCompletesDue(AccountDeletion.Complete(s, first, t1), second, t2);
    WorkerCompletesDue(s, alone, t2);
    hide AccountDeletion.Due, AccountDeletion.Complete;
  }

  lemma DueAfter(s: State, first: seq<Id>, t1: Time, t2: Time)
    requires t1 <= t2 && Enumerates(first, AccountDeletion.Due(s, t1))
    ensures AccountDeletion.Due(s, t1) <= AccountDeletion.Due(s, t2)
    ensures AccountDeletion.Due(AccountDeletion.Complete(s, first, t1), t2)
            == AccountDeletion.Due(s, t2) - AccountDeletion.Due(s, t1)
  {
    WorkerCompletesDue(s, first, t1);
  }

  /** The order in which the rows come decides nothing but the order of the audit rows. */
  lemma WorkerOrderFree(s: State, a: seq<Id>, b: seq<Id>, now: Time)
    requires Enumerates(a, AccountDeletion.Due(s, now)) && Enumerates(b, AccountDeletion.Due(s, now))
    ensures AccountDeletion.Complete(s, a, now).(audit := []) == AccountDeletion.Complete(s, b, now).(audit := [])
  {
    CompleteFrame(s, a, now);
    CompleteFrame(s, b, now);
    assert forall u :: u in a <==> u in b;
    hide AccountDeletion.Due, AccountDeletion.Complete, Enumerates;
    SameTables(s, a, b, now);
  }

  lemma SameTables(s: State, a: seq<Id>, b: seq<Id>, now: Time)
    requires forall u :: u in a <==> u in b
    ensures AccountDeletion.ErasedUsers(s.users, a, now) == AccountDeletion.ErasedUsers(s.users, b, now)
    ensures AccountDeletion.CompletedDeletions(s.deletions, a, now)
            == AccountDeletion.CompletedDeletions(s.deletions, b, now)
    ensures AccountDeletion.KeysOutside(s.keys, a) == AccountDeletion.KeysOutside(s.keys, b)
    ensures AccountDeletion.OtpsOutside(s.otps, a) == AccountDeletion.OtpsOutside(s.otps, b)
  {
    hide AccountDeletion.Erased, AccountDeletion.Completed;
  }
}
