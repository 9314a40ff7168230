/** The audit log is complete: folding it alone gives back freezes, merges, proposal and deletion statuses. */
module AuditReplay {
  import opened Wrappers
  import opened AuthState
  import opened AuthRuns
  import AccountMerge
  import AccountDeletion
  import DataExport
  import IncidentFanout
  import Accounts
  import Risk

  /** How often a proposal was approved, rejected and accepted. */
  datatype Tally = Tally(approvals: nat, rejections: nat, acceptances: nat)

  /** The part of the state that the log accounts for. */
  datatype View = View(
    frozen: map<Id, bool>,
    mergedInto: map<Id, Option<Id>>,
    proposals: map<Id, ProposalStatus>,
    decisions: map<Id, Tally>,
    deletions: map<Id, DeletionStatus>)

  const EMPTY: View := View(map[], map[], map[], map[], map[])

  /** The decisions that lead to a status. */
  function TallyOf(status: ProposalStatus): Tally {
    match status
    case PendingReview => Tally(0, 0, 0)
    case AutoApproved => Tally(1, 0, 0)
    case Approved => Tally(1, 0, 0)
    case Rejected => Tally(0, 1, 0)
    case Accepted => Tally(1, 0, 1)
  }

  function DecisionsOf(proposals: map<Id, Proposal>): map<Id, Tally> {
    map p | p in proposals :: TallyOf(proposals[p].status)
  }

  function FrozenOf(users: map<Id, User>): map<Id, bool> {
    map u | u in users :: users[u].isFrozen
  }

  function MergedOf(users: map<Id, User>): map<Id, Option<Id>> {
    map u | u in users :: users[u].mergedInto
  }

  function ProposalsOf(proposals: map<Id, Proposal>): map<Id, ProposalStatus> {
    map p | p in proposals :: proposals[p].status
  }

  function DeletionsOf(deletions: map<Id, Deletion>): map<Id, DeletionStatus> {
    map u | u in deletions :: deletions[u].status
  }

  function ViewOf(s: State): View {
    View(FrozenOf(s.users), MergedOf(s.users), ProposalsOf(s.proposals), DecisionsOf(s.proposals),
         DeletionsOf(s.deletions))
  }

  /** What one audit row tells about the view. */
  function Fold(v: View, e: Event): View {
    match e
    case SignedUp(u) => v.(frozen := v.frozen[u := false], mergedInto := v.mergedInto[u := None])
    case Frozen(u, _) => v.(frozen := Set(v.frozen, u, true))
    case Unfrozen(u) => v.(frozen := Set(v.frozen, u, false))
    case MergeProposed(id, _, _, _) =>
      v.(proposals := v.proposals[id := PendingReview], decisions := Counted(v.decisions, id, 0, 0, 0))
    case MergeAutoApproved(id, _) =>
      v.(proposals := v.proposals[id := AutoApproved], decisions := Counted(v.decisions, id, 1, 0, 0))
    case MergeReviewed(id, decision) =>
      if decision == "approve"
      then v.(proposals := v.proposals[id := Approved], decisions := Counted(v.decisions, id, 1, 0, 0))
      else v.(proposals := v.proposals[id := Rejected], decisions := Counted(v.decisions, id, 0, 1, 0))
    case MergeAccepted(id, primary, duplicates) =>
      v.(proposals := v.proposals[id := Accepted],
         decisions := Counted(v.decisions, id, 0, 0, 1),
         frozen := map u | u in v.frozen ::
           if u in duplicates then true else if u == primary then false else v.frozen[u],
         mergedInto := map u | u in v.mergedInto :: if u in duplicates then Some(primary) else v.mergedInto[u])
    case DeletionRequested(u, _, _) => v.(deletions := v.deletions[u := Scheduled])
    case DeletionCompleted(u, _, _) => v.(deletions := v.deletions[u := Done], frozen := Set(v.frozen, u, false))
    case _ => v
  }

  /** Adds to the tally of a proposal, from nothing when it has none yet. */
  function Counted(m: map<Id, Tally>, id: Id, approvals: nat, rejections: nat, acceptances: nat): map<Id, Tally> {
    var t := if id in m then m[id] else Tally(0, 0, 0);
    m[id := Tally(t.approvals + approvals, t.rejections + rejections, t.acceptances + acceptances)]
  }

  /** Sets an entry that exists. */
  function Set(m: map<Id, bool>, u: Id, b: bool): map<Id, bool> {
    if u in m then m[u := b] else m
  }

  function Replay(audit: seq<Audit>): View {
    if audit == [] then EMPTY else Fold(Replay(audit[..|audit| - 1]), audit[|audit| - 1].event)
  }

  ghost predicate Replays(s: State) {
    Replay(s.audit) == ViewOf(s)
  }

  /** A step that logs one row is replayed when the row says what the step did to the view. */
  lemma OneRow(s: State, t: State, entry: Audit)
    requires Replays(s)
    requires t.audit == s.audit + [entry]
    requires ViewOf(t) == Fold(ViewOf(s), entry.event)
    ensures Replays(t)
  {
    assert t.audit[..|t.audit| - 1] == s.audit;
  }

  lemma NoRow(s: State, t: State)
    requires Replays(s)
    requires t.audit == s.audit && ViewOf(t) == ViewOf(s)
    ensures Replays(t)
  {
  }

  // ----- risk

  lemma SetFrozenView(users: map<Id, User>, u: Id, frozen: bool)
    ensures FrozenOf(SetFrozen(users, u, frozen)) == Set(FrozenOf(users), u, frozen)
    ensures MergedOf(SetFrozen(users, u, frozen)) == MergedOf(users)
  {
  }

  lemma MaybeFreezeReplays(s: State, u: Id)
    requires Replays(s)
    ensures Replays(Risk.MaybeFreeze(s, u))
  {
    hide Replays, Risk.DistinctEnabledTriggers;
    if Risk.Freezes(s, u) {
      SetFrozenView(s.users, u, true);
      OneRow(s, Risk.MaybeFreeze(s, u), Risk.FreezeEntry(s, u));
    }
  }

  lemma ApplyFlagsReplays(s: State, u: Id, newFlags: seq<Risk.NewFlag>)
    requires Replays(s)
    ensures Replays(Risk.ApplyFlags(s, u, newFlags).0)
  {
    hide Replays, Risk.MaybeFreeze, Risk.FlagsAllowed;
    var flagged := Risk.WithFlags(s, u, newFlags);
    NoRow(s, flagged);
    MaybeFreezeReplays(flagged, u);
  }

  lemma AddRiskFlagReplays(s: State, u: Id, code: string, mentions: set<Id>)
    requires Replays(s)
    ensures Replays(Risk.AddRiskFlag(s, u, code, mentions).0)
  {
    hide Replays, Risk.MaybeFreeze, Risk.DistinctEnabledTriggers;
    var flagged := Risk.WithAdminFlag(s, u, code, mentions);
    OneRow(s, flagged, Audit(Some(u), "admin", FlagAdded(u, code)));
    MaybeFreezeReplays(flagged, u);
  }

  lemma UnfreezeReplays(s: State, u: Id)
    requires Replays(s)
    ensures Replays(Risk.UnfreezeUser(s, u).0)
  {
    hide Replays;
    if u in s.users {
      SetFrozenView(s.users, u, false);
      OneRow(s, Risk.UnfreezeUser(s, u).0, Audit(Some(u), "admin", Unfrozen(u)));
    }
  }

  // ----- accounts

  lemma SignupReplays(s: State, u: Id, email: string, phone: string, eduTier: bool, triggered: seq<string>)
    requires Replays(s)
    ensures Replays(Accounts.Signup(s, u, email, phone, eduTier, triggered).0)
  {
    hide Replays, Accounts.Registered, Risk.ApplyFlags;
    var created := Accounts.WithUser(s, u, email, phone, eduTier);
    assert FrozenOf(created.users) == FrozenOf(s.users)[u := false];
    assert MergedOf(created.users) == MergedOf(s.users)[u := None];
    OneRow(s, created, Audit(Some(u), "user", SignedUp(u)));
    ApplyFlagsReplays(created, u, Accounts.AutoFlags(triggered));
  }

  lemma CreateKeyReplays(s: State, u: Id, k: Id)
    requires Replays(s)
    ensures Replays(Accounts.CreateKey(s, u, k).0)
  {
    hide Replays, Accounts.InactiveProblem;
    if Accounts.InactiveProblem(s, u).None? {
      OneRow(s, Accounts.CreateKey(s, u, k).0, Audit(Some(u), "user", KeyCreated(k)));
    }
  }

  lemma SetPreferenceReplays(s: State, u: Id, p: Preference)
    requires Replays(s)
    ensures Replays(Accounts.SetPreference(s, u, p).0)
  {
    hide Replays, Accounts.InactiveProblem;
    if Accounts.InactiveProblem(s, u).None? {
      OneRow(s, Accounts.SetPreference(s, u, p).0, Audit(Some(u), "user", PreferencesUpdated(u)));
    }
  }

  lemma RequestOtpReplays(s: State, u: Id, phoneOtp: Id, emailOtp: Id)
    requires Replays(s)
    ensures Replays(Accounts.RequestOtp(s, u, phoneOtp, emailOtp).0)
  {
  }

  lemma SetRuleReplays(s: State, code: string, enabled: bool)
    requires Replays(s)
    ensures Replays(Accounts.SetRule(s, code, enabled))
  {
  }

  // ----- merges

  lemma ProposalView(proposals: map<Id, Proposal>, id: Id, row: Proposal)
    ensures ProposalsOf(proposals[id := row]) == ProposalsOf(proposals)[id := row.status]
    ensures DecisionsOf(proposals[id := row]) == DecisionsOf(proposals)[id := TallyOf(row.status)]
  {
  }

  lemma CreateReplays(s: State, u: Id, id: Id, body: AccountMerge.MergeBody, now: Time)
    requires Replays(s) && id !in s.proposals
    ensures Replays(AccountMerge.Create(s, u, id, body, now).0)
  {
    hide Replays, AccountMerge.CreateProblem, AccountMerge.NewProposal;
    var t := AccountMerge.Create(s, u, id, body, now).0;
    if t != s {
      var row := AccountMerge.NewProposal(s, u, body, now);
      NewStatus(s, u, body, now);
      CreatedRowReplays(s, t, id, row);
    }
  }

  lemma NewStatus(s: State, u: Id, body: AccountMerge.MergeBody, now: Time)
    requires AccountMerge.CreateProblem(s, u, body).None?
    ensures var row := AccountMerge.NewProposal(s, u, body, now);
            row.status.PendingReview? || (row.status.AutoApproved? && row.autoScore.Some?)
  {
    hide AccountMerge.CreateProblem;
  }

  lemma {:induction false} ProposedReplays(s: State, t: State, id: Id, row: Proposal)
    requires Replays(s) && id !in s.proposals && row.status.PendingReview?
    requires t == s.(proposals := s.proposals[id := row],
                     audit := s.audit + [Audit(Some(row.requester), "user",
                                               MergeProposed(id, row.primary, row.duplicates, row.mode))])
    ensures Replays(t)
  {
    ProposalView(s.proposals, id, row);
    assert DecisionsOf(s.proposals).Keys == s.proposals.Keys;
    hide Replays, ProposalsOf, DecisionsOf;
    OneRow(s, t, Audit(Some(row.requester), "user", MergeProposed(id, row.primary, row.duplicates, row.mode)));
  }

  lemma {:induction false} AutoApprovedReplays(s: State, t: State, id: Id, row: Proposal, score: nat)
    requires Replays(s) && id in s.proposals && s.proposals[id].status.PendingReview? && row.status.AutoApproved?
    requires t == s.(proposals := s.proposals[id := row],
                     audit := s.audit + [Audit(Some(row.requester), "system", MergeAutoApproved(id, score))])
    ensures Replays(t)
  {
    ProposalView(s.proposals, id, row);
    assert id in DecisionsOf(s.proposals) && DecisionsOf(s.proposals)[id] == Tally(0, 0, 0);
    hide Replays, ProposalsOf, DecisionsOf;
    OneRow(s, t, Audit(Some(row.requester), "system", MergeAutoApproved(id, score)));
  }

  lemma {:induction false} CreatedRowReplays(s: State, t: State, id: Id, row: Proposal)
    requires Replays(s) && id !in s.proposals
    requires row.status.PendingReview? || (row.status.AutoApproved? && row.autoScore.Some?)
    requires t == s.(proposals := s.proposals[id := row], audit := s.audit + AccountMerge.CreationAudit(id, row))
    ensures Replays(t)
  {
    hide Replays;
    var proposed := Audit(Some(row.requester), "user", MergeProposed(id, row.primary, row.duplicates, row.mode));
    var pending := row.(status := PendingReview);
    var between := s.(proposals := s.proposals[id := pending], audit := s.audit + [proposed]);
    ProposedReplays(s, between, id, pending);
    if row.status.AutoApproved? {
      var approved := Audit(Some(row.requester), "system", MergeAutoApproved(id, row.autoScore.value));
      assert t.audit == between.audit + [approved];
      assert t.proposals == between.proposals[id := row];
      AutoApprovedReplays(between, t, id, row, row.autoScore.value);
    } else {
      assert row == pending && t.audit == between.audit;
    }
  }

  lemma ReviewReplays(s: State, id: Id, decision: string, reason: string, reviewedBy: string, now: Time)
    requires Replays(s)
    ensures Replays(AccountMerge.Review(s, id, decision, reason, reviewedBy, now).0)
  {
    hide Replays;
    var t := AccountMerge.Review(s, id, decision, reason, reviewedBy, now).0;
    if t != s {
      ProposalView(s.proposals, id, t.proposals[id]);
      assert t.proposals == s.proposals[id := t.proposals[id]];
      OneRow(s, t, Audit(Some(s.proposals[id].requester), "admin", MergeReviewed(id, decision)));
    }
  }

  lemma {:induction false} AcceptReplays(s: State, u: Id, id: Id, now: Time)
    requires Replays(s)
    ensures Replays(AccountMerge.Accept(s, u, id, now).0)
  {
    hide Replays, AccountMerge.WithMerge;
    if AccountMerge.Accept(s, u, id, now).0 != s {
      MergeReplays(s, u, id, now);
    }
  }

  lemma {:induction false} MergeReplays(s: State, u: Id, id: Id, now: Time)
    requires Replays(s) && id in s.proposals
    requires s.proposals[id].status.Approved? || s.proposals[id].status.AutoApproved?
    ensures Replays(AccountMerge.WithMerge(s, u, id, now))
  {
    var p, t := s.proposals[id], AccountMerge.WithMerge(s, u, id, now);
    ProposalView(s.proposals, id, t.proposals[id]);
    MergedView(s.users, p.primary, p.duplicates, now);
    assert DecisionsOf(s.proposals)[id] == Tally(1, 0, 0);
    hide Replays, RevokeKeys, AccountMerge.MergedUsers, ProposalsOf, DecisionsOf, FrozenOf, MergedOf, DeletionsOf;
    OneRow(s, t, Audit(Some(u), "user", MergeAccepted(id, p.primary, p.duplicates)));
  }

  lemma MergedView(users: map<Id, User>, primary: Id, duplicates: seq<Id>, now: Time)
    ensures var after, frozen, merged := AccountMerge.MergedUsers(users, primary, duplicates, now), FrozenOf(users),
            MergedOf(users);
            && FrozenOf(after) ==
               (map u | u in frozen :: if u in duplicates then true else if u == primary then false else frozen[u])
            && MergedOf(after) == map u | u in merged :: if u in duplicates then Some(primary) else merged[u]
  {
  }

  // ----- deletions

  /** A change to an account that keeps its freeze and its merge does not show. */
  lemma {:induction false} UnchangedUserView(users: map<Id, User>, u: Id, row: User)
    requires u in users && row.isFrozen == users[u].isFrozen && row.mergedInto == users[u].mergedInto
    ensures FrozenOf(users[u := row]) == FrozenOf(users) && MergedOf(users[u := row]) == MergedOf(users)
  {
  }

  lemma {:induction false} DeletionView(deletions: map<Id, Deletion>, u: Id, row: Deletion)
    ensures DeletionsOf(deletions[u := row]) == DeletionsOf(deletions)[u := row.status]
  {
  }

  lemma {:induction false} RequestDeletionReplays(s: State, u: Id, now: Time)
    requires Replays(s)
    ensures Replays(AccountDeletion.Request(s, u, now).0)
  {
    hide Replays, AccountDeletion.WithRequest;
    if AccountDeletion.Request(s, u, now).0 != s {
      ScheduledReplays(s, u, now);
    }
  }

  lemma {:induction false} ScheduledReplays(s: State, u: Id, now: Time)
    requires Replays(s) && u in s.users
    ensures Replays(AccountDeletion.WithRequest(s, u, now))
  {
    var t := AccountDeletion.WithRequest(s, u, now);
    UnchangedUserView(s.users, u, t.users[u]);
    DeletionView(s.deletions, u, t.deletions[u]);
    hide Replays, RevokeKeys, ProposalsOf, DecisionsOf, FrozenOf, MergedOf, DeletionsOf;
    OneRow(s, t, Audit(Some(u), "user", DeletionRequested(u, now, now + AccountDeletion.GRACE)));
  }

  lemma {:induction false} CompleteOneReplays(s: State, u: Id, now: Time)
    requires Replays(s) && u in s.deletions
    ensures Replays(AccountDeletion.CompleteOne(s, u, now))
  {
    var t := AccountDeletion.CompleteOne(s, u, now);
    DeletionView(s.deletions, u, t.deletions[u]);
    assert FrozenOf(t.users) == Set(FrozenOf(s.users), u, false);
    assert MergedOf(t.users) == MergedOf(s.users);
    hide Replays, AccountDeletion.KeysWithout, AccountDeletion.OtpsWithout, ProposalsOf, DecisionsOf, FrozenOf,
         MergedOf, DeletionsOf;
    OneRow(s, t, Audit(None, "system", DeletionCompleted(u, s.deletions[u].hardDeleteAt, now)));
  }

  lemma {:induction false} CompleteReplays(s: State, rows: seq<Id>, now: Time)
    requires Replays(s)
    requires forall i :: 0 <= i < |rows| ==> rows[i] in s.deletions
    ensures Replays(AccountDeletion.Complete(s, rows, now))
    decreases |rows|
  {
    hide Replays, AccountDeletion.CompleteOne;
    if rows != [] {
      CompleteOneReplays(s, rows[0], now);
      CompleteReplays(AccountDeletion.CompleteOne(s, rows[0], now), rows[1..], now);
    }
  }

  lemma CompleteRunReplays(s: State, rows: seq<Id>, now: Time)
    requires Replays(s) && Enumerates(rows, AccountDeletion.Due(s, now))
    ensures Replays(AccountDeletion.Complete(s, rows, now))
  {
    hide Replays;
    CompleteReplays(s, rows, now);
  }

  // ----- exports and fanouts log rows that say nothing about the view

  lemma RequestExportReplays(s: State, u: Id, format: string, existing: Option<Id>, id: Id, now: Time)
    requires Replays(s)
    ensures Replays(DataExport.Request(s, u, format, existing, id, now).0)
  {
    hide Replays;
    var t := DataExport.Request(s, u, format, existing, id, now).0;
    if t != s {
      OneRow(s, t, Audit(DataExport.UserRef(s, u), "user", ExportAudited(id, "data_export.requested")));
    }
  }

  lemma {:induction false} FinishReplays(s: State, rows: seq<Id>, failing: set<Id>, now: Time)
    requires Replays(s)
    requires forall i :: 0 <= i < |rows| ==> rows[i] in s.exports
    ensures Replays(DataExport.Finish(s, rows, failing, now))
    decreases |rows|
  {
    hide Replays;
    if rows != [] {
      var ok := rows[0] !in failing;
      var t := DataExport.FinishOne(s, rows[0], ok, now);
      OneRow(s, t, Audit(s.exports[rows[0]].userRef, "system",
                         ExportAudited(rows[0], if ok then "data_export.completed" else "data_export.failed")));
      hide DataExport.FinishOne;
      FinishReplays(t, rows[1..], failing, now);
    }
  }

  lemma FinishRunReplays(s: State, limit: nat, rows: seq<Id>, failing: set<Id>, now: Time)
    requires Replays(s) && DataExport.IsOldest(s, limit, rows)
    ensures Replays(DataExport.Finish(s, rows, failing, now))
  {
    hide Replays;
    FinishReplays(s, rows, failing, now);
  }

  lemma FanoutReplays(s: State, incident: Incident, rows: seq<Id>)
    requires Replays(s) && Enumerates(rows, IncidentFanout.Eligible(s))
    ensures Replays(IncidentFanout.Fanout(s, incident, rows).0)
  {
    hide Replays;
    IncidentFanout.FanoutEffect(s, incident, rows);
    NoRow(s, IncidentFanout.AfterFanout(s, incident, rows).0);
  }

  // ----- every step, every run

  lemma AccountStepReplays(s: State, step: Step)
    requires Replays(s) && Possible(s, step) && IsAccountStep(step)
    ensures Replays(Apply(s, step))
  {
    hide Replays, Accounts.Signup, Accounts.CreateKey, Accounts.SetPreference, Risk.ApplyFlags, Risk.AddRiskFlag,
         Risk.UnfreezeUser, Accounts.RequestOtp, Accounts.SetRule;
    match step
    case Signup(u, email, phone, eduTier, triggered) => SignupReplays(s, u, email, phone, eduTier, triggered);
    case CreateKey(u, k) => CreateKeyReplays(s, u, k);
    case SetPreference(u, p) => SetPreferenceReplays(s, u, p);
    case ApplyFlags(u, newFlags) => ApplyFlagsReplays(s, u, newFlags);
    case AddRiskFlag(u, code, mentions) => AddRiskFlagReplays(s, u, code, mentions);
    case UnfreezeUser(u) => UnfreezeReplays(s, u);
    case RequestOtp(u, a, b) => RequestOtpReplays(s, u, a, b);
    case SetRule(code, enabled) => SetRuleReplays(s, code, enabled);
  }

  lemma ServiceStepReplays(s: State, step: Step)
    requires Replays(s) && Possible(s, step) && !IsAccountStep(step)
    ensures Replays(Apply(s, step))
  {
    hide Replays, AccountMerge.Create, AccountMerge.Review, AccountMerge.Accept, AccountDeletion.Request,
         AccountDeletion.Complete, DataExport.Request, DataExport.Finish, IncidentFanout.Fanout, Enumerates,
         DataExport.IsOldest, DataExport.IsActiveExport;
    match step
    case CreateProposal(u, id, body, now) => CreateReplays(s, u, id, body, now);
    case ReviewProposal(id, decision, reason, reviewedBy, now) =>
      ReviewReplays(s, id, decision, reason, reviewedBy, now);
    case AcceptProposal(u, id, now) => AcceptReplays(s, u, id, now);
    case RequestDeletion(u, now) => RequestDeletionReplays(s, u, now);
    case CompleteDeletions(rows, now) => CompleteRunReplays(s, rows, now);
    case RequestExport(u, format, existing, id, now) => RequestExportReplays(s, u, format, existing, id, now);
    case FinishExports(limit, rows, failing, now) => FinishRunReplays(s, limit, rows, failing, now);
    case Fanout(incident, rows) => FanoutReplays(s, incident, rows);
  }

  /**
   In every state of every run the log alone gives every account's freeze and merge, every proposal's status and
   every deletion request's status; and it holds exactly the decisions that lead to each proposal's status.
   */
  lemma {:induction false} ReplayAlways(trace: seq<State>, steps: seq<Step>, i: nat)
    requires IsRun(trace, steps) && i < |trace|
    ensures Replay(trace[i].audit) == ViewOf(trace[i])
  {
    hide Possible, Apply;
    if i > 0 {
      ReplayAlways(trace, steps, i - 1);
      if IsAccountStep(steps[i - 1]) {
        AccountStepReplays(trace[i - 1], steps[i - 1]);
      } else {
        ServiceStepReplays(trace[i - 1], steps[i - 1]);
      }
    }
  }

  /** An accepted proposal was approved exactly once and accepted exactly once, and never rejected. */
  lemma AcceptedWasApprovedOnce(trace: seq<State>, steps: seq<Step>, i: nat, id: Id)
    requires IsRun(trace, steps) && i < |trace|
    requires id in trace[i].proposals && trace[i].proposals[id].status.Accepted?
    ensures var decisions := Replay(trace[i].audit).decisions;
            id in decisions && decisions[id] == Tally(1, 0, 1)
  {
    ReplayAlways(trace, steps, i);
  }
}
