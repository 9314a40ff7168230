/** Which tables each step can change, and how little the steps on single accounts do to the others. */
module AuthFrames {
  import opened Wrappers
  import opened AuthState
  import opened AuthRuns
  import AccountMerge
  import AccountDeletion
  import DataExport
  import IncidentFanout
  import Accounts
  import Risk

  /** Table by table, the steps that may write to it; any other step leaves it as it was. */
  ghost predicate Framed(s: State, step: Step, t: State) {
    && (step.Signup? || step.ApplyFlags? || step.AddRiskFlag? || step.UnfreezeUser? || step.AcceptProposal?
        || step.RequestDeletion? || step.CompleteDeletions? || t.users == s.users)
    && (step.CreateKey? || step.AcceptProposal? || step.RequestDeletion? || step.CompleteDeletions? || t.keys == s.keys)
    && (step.RequestOtp? || step.CompleteDeletions? || t.otps == s.otps)
    && (step.SetRule? || t.rules == s.rules)
    && (step.Signup? || step.ApplyFlags? || step.AddRiskFlag? || t.flags == s.flags)
    && (step.CreateProposal? || step.ReviewProposal? || step.AcceptProposal? || t.proposals == s.proposals)
    && (step.RequestDeletion? || step.CompleteDeletions? || t.deletions == s.deletions)
    && (step.RequestExport? || step.FinishExports? || t.exports == s.exports)
    && (step.SetPreference? || t.preferences == s.preferences)
    && (step.Fanout? || t.notifications == s.notifications)
    && (step.SetPreference? || step.RequestExport? || step.FinishExports? || step.Fanout? || t.outbox == s.outbox)
  }

  /** Accounts keep their contact data, their merge and their deletion. */
  ghost predicate Steady(before: map<Id, User>, after: map<Id, User>) {
    && after.Keys == before.Keys
    && forall u :: u in before ==>
         && after[u].email == before[u].email && after[u].deletedAt == before[u].deletedAt
         && after[u].mergedAt == before[u].mergedAt && after[u].mergedInto == before[u].mergedInto
  }

  lemma SetFrozenSteady(users: map<Id, User>, u: Id, frozen: bool)
    ensures Steady(users, users)
    ensures Steady(users, SetFrozen(users, u, frozen))
  {
  }

  lemma FreezeFrame(s: State, u: Id)
    ensures var t := Risk.MaybeFreeze(s, u);
            t == s.(users := t.users, audit := t.audit)
    ensures Steady(s.users, Risk.MaybeFreeze(s, u).users)
  {
    SetFrozenSteady(s.users, u, true);
    hide Risk.Freezes, Risk.FreezeEntry, Steady, SetFrozen;
    if !Risk.Freezes(s, u) {
      assert Risk.MaybeFreeze(s, u) == s;
    }
  }

  lemma ApplyFlagsFrame(s: State, u: Id, newFlags: seq<Risk.NewFlag>)
    ensures var t := Risk.ApplyFlags(s, u, newFlags).0;
            t == s.(users := t.users, flags := t.flags, audit := t.audit) && Steady(s.users, t.users)
  {
    hide Risk.FlagsAllowed, Risk.MaybeFreeze, Risk.Freezes;
    FreezeFrame(Risk.WithFlags(s, u, newFlags), u);
  }

  lemma AddRiskFlagFrame(s: State, u: Id, code: string, mentions: set<Id>)
    ensures var t := Risk.AddRiskFlag(s, u, code, mentions).0;
            t == s.(users := t.users, flags := t.flags, audit := t.audit) && Steady(s.users, t.users)
  {
    hide Risk.MaybeFreeze, Risk.Freezes, Risk.DistinctEnabledTriggers;
    FreezeFrame(Risk.WithAdminFlag(s, u, code, mentions), u);
  }

  lemma UnfreezeFrame(s: State, u: Id)
    ensures var t := Risk.UnfreezeUser(s, u).0;
            t == s.(users := t.users, audit := t.audit) && Steady(s.users, t.users)
  {
  }

  /** A signup adds at most its own account. */
  lemma SignupFrame(s: State, u: Id, email: string, phone: string, eduTier: bool, triggered: seq<string>)
    requires u !in s.users
    ensures var t := Accounts.Signup(s, u, email, phone, eduTier, triggered).0;
            && t == s.(users := t.users, flags := t.flags, audit := t.audit)
            && (t.users == s.users || Steady(s.users[u := Accounts.NewUser(email, phone, eduTier)], t.users))
  {
    hide Accounts.Registered, Risk.ApplyFlags, Accounts.NewUser;
    ApplyFlagsFrame(Accounts.WithUser(s, u, email, phone, eduTier), u, Accounts.AutoFlags(triggered));
  }

  lemma CreateKeyFrame(s: State, u: Id, k: Id)
    ensures var t := Accounts.CreateKey(s, u, k).0; t == s.(keys := t.keys, audit := t.audit)
  {
    hide Accounts.InactiveProblem;
  }

  lemma {:induction false} RequestOtpFrame(s: State, u: Id, a: Id, b: Id)
    ensures var t := Accounts.RequestOtp(s, u, a, b).0; t == s.(otps := t.otps)
  {
    var t := Accounts.RequestOtp(s, u, a, b).0;
    if t != s {
      assert t == Accounts.WithOtps(s, u, a, b);
      hide Accounts.RequestOtp;
    } else {
      hide *;
    }
  }

  lemma SetPreferenceFrame(s: State, u: Id, p: Preference)
    ensures var t := Accounts.SetPreference(s, u, p).0;
            t == s.(preferences := t.preferences, audit := t.audit, outbox := t.outbox)
  {
    hide Accounts.InactiveProblem;
  }

  lemma AccountStepFramed(s: State, step: Step)
    requires Possible(s, step) && IsAccountStep(step)
    ensures Framed(s, step, Apply(s, step))
  {
    hide Accounts.Signup, Risk.ApplyFlags, Risk.AddRiskFlag, Risk.UnfreezeUser, Accounts.CreateKey, Accounts.RequestOtp,
         Accounts.SetPreference, Steady;
    match step
    case Signup(u, email, phone, eduTier, triggered) => SignupFrame(s, u, email, phone, eduTier, triggered);
    case ApplyFlags(u, newFlags) => ApplyFlagsFrame(s, u, newFlags);
    case AddRiskFlag(u, code, mentions) => AddRiskFlagFrame(s, u, code, mentions);
    case UnfreezeUser(u) => UnfreezeFrame(s, u);
    case CreateKey(u, k) => CreateKeyFrame(s, u, k);
    case RequestOtp(u, a, b) => RequestOtpFrame(s, u, a, b);
    case SetPreference(u, p) => SetPreferenceFrame(s, u, p);
    case SetRule(_, _) =>
  }

  lemma CreateFrame(s: State, u: Id, id: Id, body: AccountMerge.MergeBody, now: Time)
    ensures var t := AccountMerge.Create(s, u, id, body, now).0; t == s.(proposals := t.proposals, audit := t.audit)
  {
    hide AccountMerge.CreateProblem, AccountMerge.NewProposal, AccountMerge.CreationAudit;
  }

  lemma ReviewFrame(s: State, id: Id, decision: string, reason: string, reviewedBy: string, now: Time)
    ensures var t := AccountMerge.Review(s, id, decision, reason, reviewedBy, now).0;
            t == s.(proposals := t.proposals, audit := t.audit)
  {
  }

  lemma AcceptFrame(s: State, u: Id, id: Id, now: Time)
    ensures var t := AccountMerge.Accept(s, u, id, now).0;
            t == s.(users := t.users, keys := t.keys, proposals := t.proposals, audit := t.audit)
  {
    hide AccountMerge.AcceptProblem, AccountMerge.MergedUsers, RevokeKeys;
    if AccountMerge.Accept(s, u, id, now).0 != s {
      assert id in s.proposals;
    }
  }

  lemma RequestDeletionFrame(s: State, u: Id, now: Time)
    ensures var t := AccountDeletion.Request(s, u, now).0;
            t == s.(users := t.users, deletions := t.deletions, keys := t.keys, audit := t.audit)
  {
    hide RevokeKeys;
  }

  lemma CompleteFrame(s: State, rows: seq<Id>, now: Time)
    requires Enumerates(rows, AccountDeletion.Due(s, now))
    ensures AccountDeletion.Complete(s, rows, now) == AccountDeletion.AfterCompletion(s, rows, now)
    ensures var t := AccountDeletion.Complete(s, rows, now);
            t == s.(users := t.users, deletions := t.deletions, keys := t.keys, otps := t.otps, audit := t.audit)
  {
    AccountDeletion.CompleteEffect(s, rows, now);
  }

  lemma RequestExportFrame(s: State, u: Id, format: string, existing: Option<Id>, id: Id, now: Time)
    ensures var t := DataExport.Request(s, u, format, existing, id, now).0;
            t == s.(exports := t.exports, audit := t.audit, outbox := t.outbox)
  {
  }

  lemma FinishFrame(s: State, limit: nat, rows: seq<Id>, failing: set<Id>, now: Time)
    requires DataExport.IsOldest(s, limit, rows)
    ensures DataExport.Finish(s, rows, failing, now) == DataExport.AfterFinish(s, rows, failing, now)
    ensures var t := DataExport.Finish(s, rows, failing, now);
            t == s.(exports := t.exports, audit := t.audit, outbox := t.outbox)
  {
    DataExport.FinishEffect(s, rows, failing, now);
  }

  lemma FanoutFrame(s: State, incident: Incident, rows: seq<Id>)
    requires Enumerates(rows, IncidentFanout.Eligible(s))
    ensures IncidentFanout.Fanout(s, incident, rows) == IncidentFanout.AfterFanout(s, incident, rows)
    ensures var t := IncidentFanout.Fanout(s, incident, rows).0;
            t == s.(notifications := t.notifications, outbox := t.outbox)
  {
    IncidentFanout.FanoutEffect(s, incident, rows);
  }

  lemma ServiceStepFramed(s: State, step: Step)
    requires Possible(s, step) && !IsAccountStep(step)
    ensures Framed(s, step, Apply(s, step))
  {
    hide AccountMerge.Create, AccountMerge.Review, AccountMerge.Accept, AccountDeletion.Request,
         AccountDeletion.Complete, DataExport.Request, DataExport.Finish, IncidentFanout.Fanout, Enumerates,
         DataExport.IsOldest, DataExport.IsActiveExport, AccountDeletion.AfterCompletion, DataExport.AfterFinish,
         IncidentFanout.AfterFanout;
    match step
    case CreateProposal(u, id, body, now) => CreateFrame(s, u, id, body, now);
    case ReviewProposal(id, decision, reason, reviewedBy, now) => ReviewFrame(s, id, decision, reason, reviewedBy, now);
    case AcceptProposal(u, id, now) => AcceptFrame(s, u, id, now);
    case RequestDeletion(u, now) => RequestDeletionFrame(s, u, now);
    case CompleteDeletions(rows, now) => CompleteFrame(s, rows, now);
    case RequestExport(u, format, existing, id, now) => RequestExportFrame(s, u, format, existing, id, now);
    case FinishExports(limit, rows, failing, now) => FinishFrame(s, limit, rows, failing, now);
    case Fanout(incident, rows) => FanoutFrame(s, incident, rows);
  }

  lemma StepFramed(s: State, step: Step)
    requires Possible(s, step)
    ensures Framed(s, step, Apply(s, step))
  {
    hide Framed, Apply, Possible;
    if IsAccountStep(step) {
      AccountStepFramed(s, step);
    } else {
      ServiceStepFramed(s, step);
    }
  }
}
