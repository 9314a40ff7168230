/**
 The auth database as an object that the operations change in place. Every method is the imperative form of one
 operation; its postcondition ties the whole new state, and the result, to the function that specifies it. The rows
 that a query returned and the ids that the database generated are parameters.
 */
module AuthStore {
  import opened Wrappers
  import opened AuthState
  import Accounts
  import Risk
  import AccountMerge
  import AccountDeletion
  import DataExport
  import IncidentFanout

  class Store {
    var users: map<Id, User>
    var keys: map<Id, ApiKey>
    var otps: map<Id, Otp>
    var rules: map<string, bool>
    var flags: seq<RiskFlag>
    var proposals: map<Id, Proposal>
    var deletions: map<Id, Deletion>
    var exports: map<Id, Export>
    var preferences: map<Id, Preference>
    var notifications: map<(string, Id), NotificationRequest>
    var outbox: seq<OutboxEvent>
    var audit: seq<Audit>

    function Abs(): State
      reads this
    {
      State(users, keys, otps, rules, flags, proposals, deletions, exports, preferences, notifications, outbox, audit)
    }

    constructor (registry: map<string, bool>)
      ensures Abs() == State(map[], map[], map[], registry, [], map[], map[], map[], map[], map[], [], [])
    {
      users, keys, otps, rules := map[], map[], map[], registry;
      flags, proposals, deletions, exports := [], map[], map[], map[];
      preferences, notifications, outbox, audit := map[], map[], [], [];
    }

    // ----- risk flags

    /** Adds the flag rows one by one; the foreign keys are checked when they are flushed. */
    method ApplyFlagsAndMaybeFreeze(userId: Id, newFlags: seq<Risk.NewFlag>) returns (r: Outcome<bool>)
      modifies this`flags, this`users, this`audit
      ensures (Abs(), r) == Risk.ApplyFlags(old(Abs()), userId, newFlags)
    {
      var before := flags;
      for i := 0 to |newFlags|
        invariant flags == old(flags) + Risk.FlagRows(userId, newFlags[..i])
        invariant users == old(users) && audit == old(audit)
      {
        flags := flags + [RiskFlag(userId, newFlags[i].ruleCode, newFlags[i].source, newFlags[i].mentions)];
        assert Risk.FlagRows(userId, newFlags[..i + 1])
               == Risk.FlagRows(userId, newFlags[..i]) + [Risk.FlagRow(userId, newFlags[i])];
      }
      assert newFlags[..|newFlags|] == newFlags;
      if !Risk.FlagsAllowed(Abs(), userId, newFlags) {
        flags := before;
        return Reject(Raised("IntegrityError"));
      }
      assert Abs() == Risk.WithFlags(old(Abs()), userId, newFlags);
      var triggers := Risk.DistinctEnabledTriggers(Abs(), userId);
      if |triggers| < Risk.FREEZE_THRESHOLD {
        return Ok(false);
      }
      if userId in users && users[userId].isFrozen {
        return Ok(false);
      }
      users := SetFrozen(users, userId, true);
      audit := audit + [Audit(Some(userId), "system", Frozen(userId, triggers))];
      return Ok(true);
    }

    method AddRiskFlag(userId: Id, ruleCode: string, mentions: set<Id>) returns (r: Outcome<Risk.FlagResponse>)
      modifies this`flags, this`users, this`audit
      ensures (Abs(), r) == Risk.AddRiskFlag(old(Abs()), userId, ruleCode, mentions)
    {
      if ruleCode !in rules {
        return Reject(Http(404, "unknown rule_code"));
      }
      if userId !in users {
        return Reject(Http(404, "user not found"));
      }
      flags := flags + [RiskFlag(userId, ruleCode, "admin", mentions)];
      audit := audit + [Audit(Some(userId), "admin", FlagAdded(userId, ruleCode))];
      assert Abs() == Risk.WithAdminFlag(old(Abs()), userId, ruleCode, mentions);
      var triggers := Risk.DistinctEnabledTriggers(Abs(), userId);
      var frozenNow := false;
      if |triggers| >= Risk.FREEZE_THRESHOLD {
        NoNewFlags(Abs(), userId);
        var froze := ApplyFlagsAndMaybeFreeze(userId, []);
        frozenNow := froze.value;
        if !frozenNow {
          frozenNow := users[userId].isFrozen;
        }
      }
      return Ok(Risk.FlagResponse(frozenNow, |triggers|));
    }

    method UnfreezeUser(userId: Id) returns (r: Outcome<()>)
      modifies this`users, this`audit
      ensures (Abs(), r) == Risk.UnfreezeUser(old(Abs()), userId)
    {
      if userId !in users {
        return Reject(Http(404, "user not found"));
      }
      users := SetFrozen(users, userId, false);
      audit := audit + [Audit(Some(userId), "admin", Unfrozen(userId))];
      return Ok(());
    }

    // ----- accounts

    method InsertUser(userId: Id, email: string, phone: string, eduTier: bool)
      requires userId !in users
      modifies this`users, this`audit
      ensures Abs() == Accounts.WithUser(old(Abs()), userId, email, phone, eduTier)
    {
      users := users[userId := Accounts.NewUser(email, phone, eduTier)];
      audit := audit + [Audit(Some(userId), "user", SignedUp(userId))];
    }

    /** A flag that breaks a foreign key undoes the whole signup. */
    method Signup(userId: Id, email: string, phone: string, eduTier: bool, triggered: seq<string>)
        returns (r: Outcome<Id>)
      requires userId !in users
      modifies this`flags, this`users, this`audit
      ensures (Abs(), r) == Accounts.Signup(old(Abs()), userId, email, phone, eduTier, triggered)
    {
      hide Risk.ApplyFlags, Accounts.Registered, Accounts.AutoFlags, Accounts.WithUser, Accounts.Signup;
      SignupCases(Abs(), userId, email, phone, eduTier, triggered);
      if Accounts.Registered(Abs(), email, phone) {
        return Reject(Http(409, "phone or email already registered"));
      }
      var usersBefore, auditBefore := users, audit;
      InsertUser(userId, email, phone, eduTier);
      if triggered != [] {
        RejectedFlags(Abs(), userId, Accounts.AutoFlags(triggered));
        var applied := ApplyFlagsAndMaybeFreeze(userId, Accounts.AutoFlags(triggered));
        if applied.Reject? {
          users, audit := usersBefore, auditBefore;
          return Reject(applied.why);
        }
      }
      return Ok(userId);
    }

    // ----- merge proposals

    method CheckProposed(requester: Id, duplicates: seq<Id>) returns (problem: Option<Rejection>)
      requires requester in users
      ensures problem == AccountMerge.FirstProblem(Abs(), requester, duplicates)
    {
      hide AccountMerge.DuplicateProblem;
      for i := 0 to |duplicates|
        invariant AccountMerge.FirstProblem(Abs(), requester, duplicates)
                  == AccountMerge.FirstProblem(Abs(), requester, duplicates[i..])
      {
        var duplicate := AccountMerge.DuplicateProblem(Abs(), requester, duplicates[i]);
        if duplicate.Some? {
          return duplicate;
        }
        assert duplicates[i..][1..] == duplicates[i + 1..];
      }
      return None;
    }

    /** The new row, its audit row, and a second one when the proposal is approved at once. */
    method InsertProposal(proposalId: Id, row: Proposal)
      requires row.status.AutoApproved? ==> row.autoScore.Some?
      modifies this`proposals, this`audit
      ensures proposals == old(proposals)[proposalId := row]
      ensures audit == old(audit) + AccountMerge.CreationAudit(proposalId, row)
    {
      proposals := proposals[proposalId := row];
      audit := audit + [Audit(Some(row.requester), "user",
                              MergeProposed(proposalId, row.primary, row.duplicates, row.mode))];
      if row.status.AutoApproved? {
        audit := audit + [Audit(Some(row.requester), "system", MergeAutoApproved(proposalId, row.autoScore.value))];
      }
    }

    method CreateMergeProposal(requester: Id, proposalId: Id, body: AccountMerge.MergeBody, now: Time)
        returns (r: Outcome<Id>)
      requires proposalId !in proposals
      modifies this`proposals, this`audit
      ensures (Abs(), r) == AccountMerge.Create(old(Abs()), requester, proposalId, body, now)
    {
      hide AccountMerge.FirstProblem, AccountMerge.DuplicateProblem, AccountMerge.NewProposal,
           AccountMerge.RequesterProblem, AccountMerge.Retired;
      var problem := AccountMerge.RequesterProblem(Abs(), requester, body);
      if problem.Some? {
        return Reject(problem.value);
      }
      RequesterKnown(Abs(), requester, body);
      problem := CheckProposed(requester, body.duplicates);
      if problem.Some? {
        return Reject(problem.value);
      }
      var row := AccountMerge.NewProposal(Abs(), requester, body, now);
      NewProposalRow(Abs(), requester, body, now);
      InsertProposal(proposalId, row);
      return Ok(proposalId);
    }

    method ReviewMergeProposal(proposalId: Id, decision: string, reason: string, reviewedBy: string, now: Time)
      returns (r: Outcome<Id>)
      modifies this`proposals, this`audit
      ensures (Abs(), r) == AccountMerge.Review(old(Abs()), proposalId, decision, reason, reviewedBy, now)
    {
      if proposalId !in proposals {
        return Reject(Http(404, "proposal not found"));
      }
      var p := proposals[proposalId];
      if !p.status.PendingReview? {
        return Reject(Http(409, "proposal is already terminal or approved"));
      }
      p := p.(status := if decision == "approve" then Approved else Rejected);
      p := p.(reviewedAt := Some(now), reviewedBy := Some(reviewedBy), decisionReason := Some(reason),
              updatedAt := now);
      proposals := proposals[proposalId := p];
      audit := audit + [Audit(Some(p.requester), "admin", MergeReviewed(proposalId, decision))];
      return Ok(proposalId);
    }

    method CheckDuplicates(duplicates: seq<Id>) returns (problem: Option<Rejection>)
      ensures problem == AccountMerge.FirstUnavailable(Abs(), duplicates)
    {
      hide AccountMerge.Retired;
      for i := 0 to |duplicates|
        invariant AccountMerge.FirstUnavailable(Abs(), duplicates)
                  == AccountMerge.FirstUnavailable(Abs(), duplicates[i..])
      {
        if duplicates[i] !in users {
          return Some(Http(404, "user not found"));
        }
        if AccountMerge.Retired(Abs(), duplicates[i]) {
          return Some(Http(409, "duplicate account already retired"));
        }
        assert duplicates[i..][1..] == duplicates[i + 1..];
      }
      return None;
    }

    /** The two bulk updates of the accounts: the primary is released first, then the duplicates are closed. */
    method MergeUsers(primary: Id, duplicates: seq<Id>, now: Time)
      modifies this`users
      ensures users == AccountMerge.MergedUsers(old(users), primary, duplicates, now)
    {
      users := SetFrozen(users, primary, false);
      users := map u | u in users ::
        if u in duplicates then users[u].(isFrozen := true, mergedInto := Some(primary), mergedAt := Some(now))
        else users[u];
    }

    method AcceptMergeProposal(requester: Id, proposalId: Id, now: Time) returns (r: Outcome<Id>)
      modifies this`users, this`keys, this`proposals, this`audit
      ensures (Abs(), r) == AccountMerge.Accept(old(Abs()), requester, proposalId, now)
    {
      hide AccountMerge.FirstUnavailable, AccountMerge.Retired, AccountMerge.MergedUsers, RevokeKeys;
      if proposalId !in proposals || proposals[proposalId].requester != requester {
        return Reject(Http(404, "proposal not found"));
      }
      var p := proposals[proposalId];
      if p.status.Accepted? {
        return Ok(proposalId);
      }
      if !p.status.Approved? && !p.status.AutoApproved? {
        return Reject(Http(409, "proposal not approved"));
      }
      if p.primary !in users {
        return Reject(Http(404, "user not found"));
      }
      if AccountMerge.Retired(Abs(), p.primary) {
        return Reject(Http(409, "primary account deleted"));
      }
      var problem := CheckDuplicates(p.duplicates);
      if problem.Some? {
        return Reject(problem.value);
      }
      MergeUsers(p.primary, p.duplicates, now);
      keys := RevokeKeys(keys, set i | 0 <= i < |p.duplicates| :: p.duplicates[i], now);
      proposals := proposals[proposalId := p.(status := Accepted, acceptedAt := Some(now), updatedAt := now)];
      audit := audit + [Audit(Some(requester), "user", MergeAccepted(proposalId, p.primary, p.duplicates))];
      return Ok(proposalId);
    }

    // ----- deletion

    method RequestAccountDeletion(userId: Id, now: Time) returns (r: Outcome<Id>)
      modifies this`users, this`keys, this`deletions, this`audit
      ensures (Abs(), r) == AccountDeletion.Request(old(Abs()), userId, now)
    {
      if userId !in users || users[userId].deletedAt.Some? {
        if userId !in deletions {
          return Reject(Raised("LookupError"));
        }
        return Ok(userId);
      }
      if userId in deletions {
        return Ok(userId);
      }
      users := users[userId := AccountDeletion.MarkDeleted(users[userId], now)];
      var due := now + AccountDeletion.GRACE;
      deletions := deletions[userId := Deletion(Some(userId), Scheduled, now, due, None)];
      keys := RevokeKeys(keys, {userId}, now);
      audit := audit + [Audit(Some(userId), "user", DeletionRequested(userId, now, due))];
      return Ok(userId);
    }

    /** The iteration of the worker for one request. */
    method CompleteDeletion(userId: Id, now: Time)
      requires userId in deletions
      modifies this`users, this`keys, this`otps, this`deletions, this`audit
      ensures Abs() == AccountDeletion.CompleteOne(old(Abs()), userId, now)
    {
      hide AccountDeletion.KeysWithout, AccountDeletion.OtpsWithout, AccountDeletion.Erased, AccountDeletion.Completed;
      var dueAt := deletions[userId].hardDeleteAt;
      deletions := deletions[userId := AccountDeletion.Completed(deletions[userId], now)];
      keys := AccountDeletion.KeysWithout(keys, userId);
      otps := AccountDeletion.OtpsWithout(otps, userId);
      if userId in users {
        users := users[userId := AccountDeletion.Erased(users[userId], userId, now)];
      }
      audit := audit + [Audit(None, "system", DeletionCompleted(userId, dueAt, now))];
    }

    method CompleteDueDeletionRequests(rows: seq<Id>, now: Time) returns (completed: seq<Id>)
      requires Enumerates(rows, AccountDeletion.Due(Abs(), now))
      modifies this`users, this`keys, this`otps, this`deletions, this`audit
      ensures Abs() == AccountDeletion.Complete(old(Abs()), rows, now)
      ensures completed == rows
    {
      hide AccountDeletion.CompleteOne, AccountDeletion.Complete;
      completed := [];
      for i := 0 to |rows|
        invariant Abs().deletions.Keys == old(Abs()).deletions.Keys && completed == rows[..i]
        invariant AccountDeletion.Complete(Abs(), rows[i..], now) == AccountDeletion.Complete(old(Abs()), rows, now)
      {
        CompleteUnfold(Abs(), rows, i, now);
        CompleteDeletion(rows[i], now);
        completed := completed + [rows[i]];
      }
      NothingLeft(Abs(), {}, now);
    }

    // ----- exports

    method RequestDataExport(user: Id, format: string, existing: Option<Id>, newId: Id, now: Time)
        returns (r: Outcome<Id>)
      requires newId !in exports
      requires DataExport.IsActiveExport(Abs(), user, format, now, existing)
      modifies this`exports, this`outbox, this`audit
      ensures (Abs(), r) == DataExport.Request(old(Abs()), user, format, existing, newId, now)
    {
      if !DataExport.SupportedFormat(format) {
        return Reject(Raised("ValueError"));
      }
      if existing.Some? {
        return Ok(existing.value);
      }
      var userRef := DataExport.UserRef(Abs(), user);
      exports := exports[newId := Export(user, userRef, format, Queued, now, now + DataExport.SLA, None, None, None)];
      audit := audit + [Audit(userRef, "user", ExportAudited(newId, "data_export.requested"))];
      outbox := outbox + [ExportRequestedEvent(newId, user)];
      return Ok(newId);
    }

    /** The iteration of the worker for one request. */
    method CompleteExport(id: Id, buildable: bool, now: Time)
      requires id in exports
      modifies this`exports, this`outbox, this`audit
      ensures Abs() == DataExport.FinishOne(old(Abs()), id, buildable, now)
    {
      var e := exports[id].(status := Processing, startedAt := Some(now));
      if buildable {
        e := e.(status := ExportStatus.Completed, completedAt := Some(now), expiresAt := Some(now + DataExport.EXPIRY));
        audit := audit + [Audit(e.userRef, "system", ExportAudited(id, "data_export.completed"))];
        outbox := outbox + [ExportCompletedEvent(id, e.user)];
      } else {
        e := e.(status := Failed);
        audit := audit + [Audit(e.userRef, "system", ExportAudited(id, "data_export.failed"))];
      }
      exports := exports[id := e];
    }

    method CompletePendingDataExportRequests(limit: nat, rows: seq<Id>, failing: set<Id>, now: Time)
        returns (completed: seq<Id>)
      requires DataExport.IsOldest(Abs(), limit, rows)
      modifies this`exports, this`outbox, this`audit
      ensures Abs() == DataExport.Finish(old(Abs()), rows, failing, now)
      ensures completed == DataExport.Succeeded(rows, failing)
    {
      hide DataExport.FinishOne, DataExport.Finish, DataExport.Sorted, DataExport.Succeeded;
      completed := [];
      for i := 0 to |rows|
        invariant Abs().exports.Keys == old(Abs()).exports.Keys
        invariant completed + DataExport.Succeeded(rows[i..], failing) == DataExport.Succeeded(rows, failing)
        invariant DataExport.Finish(Abs(), rows[i..], failing, now) == DataExport.Finish(old(Abs()), rows, failing, now)
      {
        FinishUnfold(Abs(), rows, i, failing, now);
        CompleteExport(rows[i], rows[i] !in failing, now);
        if rows[i] !in failing {
          completed := completed + [rows[i]];
        }
      }
      NothingLeft(Abs(), failing, now);
    }

    // ----- incidents

    /** The iteration for one account: an insert that does nothing on a conflict, then its event. */
    method NotifyAccount(incident: Incident, user: Id) returns (created: nat)
      requires user in preferences
      modifies this`notifications, this`outbox
      ensures (Abs(), created) == IncidentFanout.NotifyOne(old(Abs()), incident, user)
    {
      var channels := IncidentFanout.Channels(preferences[user]);
      if channels == [] || (incident.id, user) in notifications {
        return 0;
      }
      var request := IncidentFanout.RequestFor(incident, preferences[user]);
      notifications := notifications[(incident.id, user) := request];
      outbox := outbox + [NotificationRequestedEvent(incident.id, user, request)];
      return 1;
    }

    method FanoutStatusIncident(incident: Incident, rows: seq<Id>) returns (created: nat)
      requires Enumerates(rows, IncidentFanout.Eligible(Abs()))
      modifies this`notifications, this`outbox
      ensures (Abs(), created) == IncidentFanout.Fanout(old(Abs()), incident, rows)
    {
      hide IncidentFanout.NotifyOne;
      assert Abs().preferences == preferences;
      created := 0;
      for i := 0 to |rows|
        invariant IncidentFanout.Fanout(old(Abs()), incident, rows).0
                  == IncidentFanout.Fanout(Abs(), incident, rows[i..]).0
        invariant IncidentFanout.Fanout(old(Abs()), incident, rows).1
                  == created + IncidentFanout.Fanout(Abs(), incident, rows[i..]).1
      {
        var one := NotifyAccount(incident, rows[i]);
        created := created + one;
        assert rows[i..][1..] == rows[i + 1..];
      }
    }
  }

  lemma SignupCases(s: State, userId: Id, email: string, phone: string, eduTier: bool, triggered: seq<string>)
    ensures var created := Accounts.WithUser(s, userId, email, phone, eduTier);
            Accounts.Signup(s, userId, email, phone, eduTier, triggered)
            == if Accounts.Registered(s, email, phone) then (s, Reject(Http(409, "phone or email already registered")))
               else if triggered == [] then (created, Ok(userId))
               else
                 var (after, r) := Risk.ApplyFlags(created, userId, Accounts.AutoFlags(triggered));
                 if r.Ok? then (after, Ok(userId)) else (s, Reject(r.why))
  {
    hide Risk.ApplyFlags, Accounts.Registered, Accounts.AutoFlags, Accounts.WithUser;
  }

  lemma {:induction false} CompleteUnfold(s: State, rows: seq<Id>, i: nat, now: Time)
    requires i < |rows| && forall j :: 0 <= j < |rows| ==> rows[j] in s.deletions
    ensures AccountDeletion.Complete(s, rows[i..], now)
            == AccountDeletion.Complete(AccountDeletion.CompleteOne(s, rows[i], now), rows[i + 1..], now)
  {
    hide AccountDeletion.CompleteOne;
    assert rows[i..][1..] == rows[i + 1..];
  }

  lemma {:induction false} FinishUnfold(s: State, rows: seq<Id>, i: nat, failing: set<Id>, now: Time)
    requires i < |rows| && forall j :: 0 <= j < |rows| ==> rows[j] in s.exports
    ensures DataExport.Finish(s, rows[i..], failing, now)
            == DataExport.Finish(DataExport.FinishOne(s, rows[i], rows[i] !in failing, now),
                                 rows[i + 1..], failing, now)
    ensures DataExport.Succeeded(rows[i..], failing)
            == (if rows[i] in failing then [] else [rows[i]]) + DataExport.Succeeded(rows[i + 1..], failing)
  {
    hide DataExport.FinishOne;
    assert rows[i..][1..] == rows[i + 1..];
  }

  lemma NothingLeft(s: State, failing: set<Id>, now: Time)
    ensures AccountDeletion.Complete(s, [], now) == s && DataExport.Finish(s, [], failing, now) == s
    ensures DataExport.Succeeded([], failing) == []
  {
  }

  lemma RequesterKnown(s: State, requester: Id, body: AccountMerge.MergeBody)
    requires AccountMerge.RequesterProblem(s, requester, body).None?
    ensures requester in s.users
  {
  }

  lemma NewProposalRow(s: State, requester: Id, body: AccountMerge.MergeBody, now: Time)
    requires AccountMerge.CreateProblem(s, requester, body).None?
    ensures var row := AccountMerge.NewProposal(s, requester, body, now);
            row.requester == requester && (row.status.AutoApproved? ==> row.autoScore.Some?)
  {
  }

  lemma RejectedFlags(s: State, userId: Id, newFlags: seq<Risk.NewFlag>)
    ensures Risk.ApplyFlags(s, userId, newFlags).1.Reject? ==> Risk.ApplyFlags(s, userId, newFlags).0 == s
  {
  }

  lemma NoNewFlags(s: State, userId: Id)
    ensures Risk.FlagsAllowed(s, userId, [])
    ensures Risk.WithFlags(s, userId, []) == s
  {
    assert Risk.FlagRows(userId, []) == [];
    assert s.flags + [] == s.flags;
  }
}
