/** The merge links between accounts form a forest, in every state of every run. */
module MergeForest {
  import opened Wrappers
  import opened AuthState
  import opened AuthRuns
  import AccountMerge
  import AccountDeletion
  import DataExport
  import IncidentFanout
  import Accounts
  import Risk

  /** The audit row at position `i` records an acceptance that merged `u`. */
  predicate MergedAt(audit: seq<Audit>, i: nat, u: Id) {
    i < |audit| && audit[i].event.MergeAccepted? && u in audit[i].event.duplicates
  }

  /** A proposal never merges an account into itself, and belongs to its primary. */
  predicate ProposalsSound(proposals: map<Id, Proposal>) {
    forall id :: id in proposals ==>
      && proposals[id].primary == proposals[id].requester
      && proposals[id].primary !in proposals[id].duplicates
  }

  ghost predicate HasAcceptance(audit: seq<Audit>, u: Id) {
    exists i: nat :: MergedAt(audit, i, u)
  }

  /**
   Every link has exactly one acceptance in the audit log behind it, to which it points, and the acceptances along
   a chain of links come in the order of the chain.
   */
  ghost predicate Linked(users: map<Id, User>, audit: seq<Audit>) {
    && (forall u :: u in users ==> (users[u].mergedInto.Some? <==> users[u].mergedAt.Some?))
    && (forall u :: u in users && users[u].mergedInto.Some? ==> HasAcceptance(audit, u))
    && (forall i: nat, u :: MergedAt(audit, i, u) ==>
          && u in users && users[u].mergedInto == Some(audit[i].event.primary) && audit[i].event.primary in users)
    && (forall i: nat, j: nat, u :: MergedAt(audit, i, u) && MergedAt(audit, j, u) ==> i == j)
    && (forall i: nat, j: nat, u :: MergedAt(audit, i, u) && MergedAt(audit, j, audit[i].event.primary) ==> i < j)
  }

  ghost predicate Forest(s: State) {
    ProposalsSound(s.proposals) && Linked(s.users, s.audit)
  }

  /** No account disappears and no link is changed or removed. */
  ghost predicate WrittenOnce(before: map<Id, User>, after: map<Id, User>) {
    forall u :: u in before ==>
      && u in after
      && (before[u].mergedInto.Some? ==>
            after[u].mergedInto == before[u].mergedInto && after[u].mergedAt == before[u].mergedAt)
  }

  ghost predicate Grows(s: State, t: State) {
    Forest(t) && WrittenOnce(s.users, t.users)
  }

  // ----- steps that touch no link

  predicate NoAcceptance(entries: seq<Audit>) {
    forall i :: 0 <= i < |entries| ==> !entries[i].event.MergeAccepted?
  }

  /** Accounts stay, their links stay, and new accounts are unmerged. */
  predicate LinksKept(before: map<Id, User>, after: map<Id, User>) {
    && (forall u :: u in before ==>
          u in after && after[u].mergedInto == before[u].mergedInto && after[u].mergedAt == before[u].mergedAt)
    && (forall u :: u in after && u !in before ==> after[u].mergedInto.None? && after[u].mergedAt.None?)
  }

  lemma AcceptanceKept(audit: seq<Audit>, entries: seq<Audit>, u: Id)
    requires HasAcceptance(audit, u)
    ensures HasAcceptance(audit + entries, u)
  {
    var i: nat :| MergedAt(audit, i, u);
    assert MergedAt(audit + entries, i, u);
  }

  lemma QuietKeepsLinked(before: map<Id, User>, after: map<Id, User>, audit: seq<Audit>, entries: seq<Audit>)
    requires Linked(before, audit) && LinksKept(before, after) && NoAcceptance(entries)
    ensures Linked(after, audit + entries)
  {
    hide HasAcceptance;
    var log := audit + entries;
    forall i: nat, u
      ensures MergedAt(log, i, u) <==> MergedAt(audit, i, u)
    {
      if |audit| <= i < |log| {
        assert log[i] == entries[i - |audit|];
      }
    }
    forall u | u in after && after[u].mergedInto.Some?
      ensures HasAcceptance(log, u)
    {
      AcceptanceKept(audit, entries, u);
    }
  }

  lemma QuietStep(s: State, t: State, entries: seq<Audit>)
    requires Forest(s) && ProposalsSound(t.proposals)
    requires LinksKept(s.users, t.users) && t.audit == s.audit + entries && NoAcceptance(entries)
    ensures Grows(s, t)
  {
    hide Linked;
    QuietKeepsLinked(s.users, t.users, s.audit, entries);
  }

  lemma SignupForest(s: State, u: Id, email: string, phone: string, eduTier: bool, triggered: seq<string>)
    requires Forest(s) && u !in s.users
    ensures Grows(s, Accounts.Signup(s, u, email, phone, eduTier, triggered).0)
  {
    hide Linked, Accounts.Registered;
    var t := Accounts.Signup(s, u, email, phone, eduTier, triggered).0;
    var created := Accounts.WithUser(s, u, email, phone, eduTier);
    if t != s {
      QuietStep(s, created, [Audit(Some(u), "user", SignedUp(u))]);
      ApplyFlagsForest(created, u, Accounts.AutoFlags(triggered));
    }
  }

  lemma FreezeForest(s: State, u: Id)
    requires Forest(s)
    ensures Grows(s, Risk.MaybeFreeze(s, u))
  {
    hide Linked, Risk.DistinctEnabledTriggers;
    if Risk.Freezes(s, u) {
      QuietStep(s, Risk.MaybeFreeze(s, u), [Risk.FreezeEntry(s, u)]);
    }
  }

  lemma ApplyFlagsForest(s: State, u: Id, newFlags: seq<Risk.NewFlag>)
    requires Forest(s)
    ensures Grows(s, Risk.ApplyFlags(s, u, newFlags).0)
  {
    hide Linked, Risk.FlagsAllowed, Risk.MaybeFreeze;
    FreezeForest(Risk.WithFlags(s, u, newFlags), u);
  }

  lemma AddRiskFlagForest(s: State, u: Id, code: string, mentions: set<Id>)
    requires Forest(s)
    ensures Grows(s, Risk.AddRiskFlag(s, u, code, mentions).0)
  {
    hide Linked, Risk.DistinctEnabledTriggers, Risk.MaybeFreeze;
    var flagged := Risk.WithAdminFlag(s, u, code, mentions);
    QuietStep(s, flagged, [Audit(Some(u), "admin", FlagAdded(u, code))]);
    FreezeForest(flagged, u);
  }

  lemma UnfreezeForest(s: State, u: Id)
    requires Forest(s)
    ensures Grows(s, Risk.UnfreezeUser(s, u).0)
  {
    hide Linked;
    if u in s.users {
      QuietStep(s, Risk.UnfreezeUser(s, u).0, [Audit(Some(u), "admin", Unfrozen(u))]);
    }
  }

  lemma CreateForest(s: State, u: Id, id: Id, body: AccountMerge.MergeBody, now: Time)
    requires Forest(s)
    ensures Grows(s, AccountMerge.Create(s, u, id, body, now).0)
  {
    hide Linked, AccountMerge.CreateProblem;
    var t := AccountMerge.Create(s, u, id, body, now).0;
    if t != s {
      QuietStep(s, t, AccountMerge.CreationAudit(id, AccountMerge.NewProposal(s, u, body, now)));
    }
  }

  lemma ReviewForest(s: State, id: Id, decision: string, reason: string, reviewedBy: string, now: Time)
    requires Forest(s)
    ensures Grows(s, AccountMerge.Review(s, id, decision, reason, reviewedBy, now).0)
  {
    hide Linked;
    var t := AccountMerge.Review(s, id, decision, reason, reviewedBy, now).0;
    if t != s {
      QuietStep(s, t, [Audit(Some(s.proposals[id].requester), "admin", MergeReviewed(id, decision))]);
    }
  }

  lemma {:induction false} SameForest(s: State, t: State)
    requires Forest(s) && t.users == s.users && t.proposals == s.proposals && t.audit == s.audit
    ensures Grows(s, t)
  {
  }

  lemma {:induction false} RequestDeletionForest(s: State, u: Id, now: Time)
    requires Forest(s)
    ensures Grows(s, AccountDeletion.Request(s, u, now).0)
  {
    var t := AccountDeletion.Request(s, u, now).0;
    hide Linked, Grows, ProposalsSound, RevokeKeys;
    if t != s {
      hide AccountDeletion.Request;
      QuietStep(s, t, [Audit(Some(u), "user", DeletionRequested(u, now, now + AccountDeletion.GRACE))]);
    } else {
      SameForest(s, t);
    }
  }

  lemma {:induction false} ErasedKeepsLinks(users: map<Id, User>, rows: seq<Id>, now: Time)
    ensures LinksKept(users, AccountDeletion.ErasedUsers(users, rows, now))
  {
  }

  lemma {:induction false} CompletionQuiet(deletions: map<Id, Deletion>, rows: seq<Id>, now: Time)
    requires forall i :: 0 <= i < |rows| ==> rows[i] in deletions
    ensures NoAcceptance(AccountDeletion.CompletionAudit(deletions, rows, now))
  {
  }

  lemma {:induction false} CompleteForest(s: State, rows: seq<Id>, now: Time)
    requires Forest(s) && Enumerates(rows, AccountDeletion.Due(s, now))
    ensures Grows(s, AccountDeletion.Complete(s, rows, now))
  {
    AccountDeletion.CompleteEffect(s, rows, now);
    ErasedKeepsLinks(s.users, rows, now);
    CompletionQuiet(s.deletions, rows, now);
    hide Linked, ProposalsSound, LinksKept, NoAcceptance, Grows, Enumerates, AccountDeletion.Complete,
         AccountDeletion.ErasedUsers, AccountDeletion.CompletionAudit;
    QuietStep(s, AccountDeletion.AfterCompletion(s, rows, now),
        AccountDeletion.CompletionAudit(s.deletions, rows, now));
  }

  lemma RequestExportForest(s: State, u: Id, format: string, existing: Option<Id>, id: Id, now: Time)
    requires Forest(s)
    ensures Grows(s, DataExport.Request(s, u, format, existing, id, now).0)
  {
    hide Linked;
    var t := DataExport.Request(s, u, format, existing, id, now).0;
    if t != s {
      QuietStep(s, t, [Audit(DataExport.UserRef(s, u), "user", ExportAudited(id, "data_export.requested"))]);
    }
  }

  lemma FinishForest(s: State, limit: nat, rows: seq<Id>, failing: set<Id>, now: Time)
    requires Forest(s) && DataExport.IsOldest(s, limit, rows)
    ensures Grows(s, DataExport.Finish(s, rows, failing, now))
  {
    hide Linked;
    DataExport.FinishEffect(s, rows, failing, now);
    QuietStep(s, DataExport.AfterFinish(s, rows, failing, now), DataExport.FinishAudit(s.exports, rows, failing));
  }

  lemma FanoutForest(s: State, incident: Incident, rows: seq<Id>)
    requires Forest(s) && Enumerates(rows, IncidentFanout.Eligible(s))
    ensures Grows(s, IncidentFanout.Fanout(s, incident, rows).0)
  {
    hide Linked;
    IncidentFanout.FanoutEffect(s, incident, rows);
    assert s.audit + [] == s.audit;
    QuietStep(s, IncidentFanout.AfterFanout(s, incident, rows).0, []);
  }

  lemma CreateKeyForest(s: State, u: Id, k: Id)
    requires Forest(s)
    ensures Grows(s, Accounts.CreateKey(s, u, k).0)
  {
    hide Linked, Accounts.InactiveProblem;
    if Accounts.InactiveProblem(s, u).None? {
      QuietStep(s, Accounts.CreateKey(s, u, k).0, [Audit(Some(u), "user", KeyCreated(k))]);
    }
  }

  lemma SetPreferenceForest(s: State, u: Id, p: Preference)
    requires Forest(s)
    ensures Grows(s, Accounts.SetPreference(s, u, p).0)
  {
    hide Linked, Accounts.InactiveProblem;
    if Accounts.InactiveProblem(s, u).None? {
      QuietStep(s, Accounts.SetPreference(s, u, p).0, [Audit(Some(u), "user", PreferencesUpdated(u))]);
    }
  }

  lemma {:induction false} RequestOtpForest(s: State, u: Id, phoneOtp: Id, emailOtp: Id)
    requires Forest(s)
    ensures Grows(s, Accounts.RequestOtp(s, u, phoneOtp, emailOtp).0)
  {
    hide Forest, Grows;
    var t := Accounts.RequestOtp(s, u, phoneOtp, emailOtp).0;
    if t != s {
      assert t == Accounts.WithOtps(s, u, phoneOtp, emailOtp);
      hide Accounts.RequestOtp;
    }
    SameForest(s, t);
  }

  lemma SetRuleForest(s: State, code: string, enabled: bool)
    requires Forest(s)
    ensures Grows(s, Accounts.SetRule(s, code, enabled))
  {
    hide Forest, Grows;
    SameForest(s, Accounts.SetRule(s, code, enabled));
  }

  // ----- an acceptance

  lemma AcceptKeepsLinked(users: map<Id, User>, audit: seq<Audit>, entry: Audit, now: Time)
    requires Linked(users, audit)
    requires entry.event.MergeAccepted?
    requires entry.event.primary in users && users[entry.event.primary].mergedInto.None?
    requires entry.event.primary !in entry.event.duplicates
    requires forall i :: 0 <= i < |entry.event.duplicates| ==>
               entry.event.duplicates[i] in users && users[entry.event.duplicates[i]].mergedInto.None?
    ensures Linked(AccountMerge.MergedUsers(users, entry.event.primary, entry.event.duplicates, now), audit + [entry])
  {
    hide HasAcceptance;
    var primary, duplicates, n := entry.event.primary, entry.event.duplicates, |audit|;
    var after, log := AccountMerge.MergedUsers(users, primary, duplicates, now), audit + [entry];
    forall i: nat, u
      ensures MergedAt(log, i, u) <==> MergedAt(audit, i, u) || (i == n && u in duplicates)
      ensures MergedAt(audit, i, u) ==> u !in duplicates && u != primary && log[i] == audit[i]
    {
    }
    forall u | u in after && after[u].mergedInto.Some?
      ensures HasAcceptance(log, u)
    {
      if u in duplicates {
        AcceptanceAt(log, n, u);
      } else {
        AcceptanceKept(audit, [entry], u);
      }
    }
  }

  lemma AcceptanceAt(audit: seq<Audit>, i: nat, u: Id)
    requires MergedAt(audit, i, u)
    ensures HasAcceptance(audit, u)
  {
  }

  lemma AcceptForest(s: State, userId: Id, proposalId: Id, now: Time)
    requires Forest(s)
    ensures Grows(s, AccountMerge.Accept(s, userId, proposalId, now).0)
  {
    hide HasAcceptance, RevokeKeys;
    var t := AccountMerge.Accept(s, userId, proposalId, now).0;
    if t != s {
      var p := s.proposals[proposalId];
      AcceptKeepsLinked(s.users, s.audit,
                        Audit(Some(userId), "user", MergeAccepted(proposalId, p.primary, p.duplicates)), now);
    }
  }

  // ----- every step, every run

  lemma AccountStepGrows(s: State, step: Step)
    requires Forest(s) && Possible(s, step) && IsAccountStep(step)
    ensures Grows(s, Apply(s, step))
  {
    hide Grows, Forest, Accounts.Signup, Accounts.CreateKey, Accounts.SetPreference, Risk.ApplyFlags, Risk.AddRiskFlag,
         Risk.UnfreezeUser, Accounts.RequestOtp, Accounts.SetRule;
    match step
    case Signup(u, email, phone, eduTier, triggered) => SignupForest(s, u, email, phone, eduTier, triggered);
    case CreateKey(u, k) => CreateKeyForest(s, u, k);
    case SetPreference(u, p) => SetPreferenceForest(s, u, p);
    case ApplyFlags(u, newFlags) => ApplyFlagsForest(s, u, newFlags);
    case AddRiskFlag(u, code, mentions) => AddRiskFlagForest(s, u, code, mentions);
    case UnfreezeUser(u) => UnfreezeForest(s, u);
    case RequestOtp(u, a, b) => RequestOtpForest(s, u, a, b);
    case SetRule(code, enabled) => SetRuleForest(s, code, enabled);
  }

  lemma ServiceStepGrows(s: State, step: Step)
    requires Forest(s) && Possible(s, step) && !IsAccountStep(step)
    ensures Grows(s, Apply(s, step))
  {
    hide Grows, Forest, AccountMerge.Create, AccountMerge.Review, AccountMerge.Accept, AccountDeletion.Request,
         AccountDeletion.Complete, DataExport.Request, DataExport.Finish, IncidentFanout.Fanout, Enumerates,
         DataExport.IsOldest, DataExport.IsActiveExport;
    match step
    case CreateProposal(u, id, body, now) => CreateForest(s, u, id, body, now);
    case ReviewProposal(id, decision, reason, reviewedBy, now) =>
      ReviewForest(s, id, decision, reason, reviewedBy, now);
    case AcceptProposal(u, id, now) => AcceptForest(s, u, id, now);
    case RequestDeletion(u, now) => RequestDeletionForest(s, u, now);
    case CompleteDeletions(rows, now) => CompleteForest(s, rows, now);
    case RequestExport(u, format, existing, id, now) => RequestExportForest(s, u, format, existing, id, now);
    case FinishExports(limit, rows, failing, now) => FinishForest(s, limit, rows, failing, now);
    case Fanout(incident, rows) => FanoutForest(s, incident, rows);
  }

  /** No step breaks the forest, loses an account or changes a link. */
  lemma StepGrows(s: State, step: Step)
    requires Forest(s) && Possible(s, step)
    ensures Grows(s, Apply(s, step))
  {
    hide Grows, Forest, Possible, Apply;
    if IsAccountStep(step) {
      AccountStepGrows(s, step);
    } else {
      ServiceStepGrows(s, step);
    }
  }

  lemma StartForest(s: State)
    requires IsStart(s)
    ensures Forest(s)
  {
    assert forall i: nat, u :: !MergedAt(s.audit, i, u);
  }

  /** In every state of every run the merge links form a forest. */
  lemma {:induction false} ForestAlways(trace: seq<State>, steps: seq<Step>, i: nat)
    requires IsRun(trace, steps) && i < |trace|
    ensures Forest(trace[i])
  {
    hide Forest, Possible, Apply;
    if i == 0 {
      StartForest(trace[0]);
    } else {
      ForestAlways(trace, steps, i - 1);
      StepGrows(trace[i - 1], steps[i - 1]);
      GrowsForest(trace[i - 1], trace[i]);
    }
  }

  lemma GrowsForest(s: State, t: State)
    requires Grows(s, t)
    ensures Forest(t)
  {
  }

  /** A link is written once: later states of a run keep every link and every account. */
  lemma {:induction false} LinksWrittenOnce(trace: seq<State>, steps: seq<Step>, i: nat, j: nat)
    requires IsRun(trace, steps) && i <= j < |trace|
    ensures WrittenOnce(trace[i].users, trace[j].users)
    decreases j
  {
    hide Forest, Possible, Apply;
    if i < j {
      LinksWrittenOnce(trace, steps, i, j - 1);
      ForestAlways(trace, steps, j - 1);
      StepGrows(trace[j - 1], steps[j - 1]);
    }
  }

  // ----- what the forest gives

  /** The position in the audit log of the acceptance that merged an account. */
  ghost function MergeIndex(s: State, u: Id): (i: nat)
    requires Forest(s) && u in s.users && s.users[u].mergedInto.Some?
    ensures MergedAt(s.audit, i, u)
  {
    var i: nat :| MergedAt(s.audit, i, u);
    i
  }

  /** The account `n` links away. */
  ghost function Follow(s: State, u: Id, n: nat): (v: Id)
    requires Forest(s) && u in s.users
    ensures v in s.users
    decreases n
  {
    if n == 0 || s.users[u].mergedInto.None? then u
    else
      assert MergedAt(s.audit, MergeIndex(s, u), u);
      Follow(s, s.users[u].mergedInto.value, n - 1)
  }

  /** Following the links from an account ends, after some number of them, at an account that is not merged. */
  ghost function Root(s: State, u: Id): (r: Id)
    requires Forest(s) && u in s.users
    ensures r in s.users && s.users[r].mergedInto.None?
    ensures exists n: nat :: Follow(s, u, n) == r
    decreases if s.users[u].mergedInto.Some? then |s.audit| - MergeIndex(s, u) else 0
  {
    if s.users[u].mergedInto.None? then
      assert Follow(s, u, 0) == u;
      u
    else
      var p := s.users[u].mergedInto.value;
      assert MergedAt(s.audit, MergeIndex(s, u), u);
      assert s.users[p].mergedInto.Some? ==> MergeIndex(s, u) < MergeIndex(s, p) < |s.audit|;
      var r := Root(s, p);
      var n: nat :| Follow(s, p, n) == r;
      assert Follow(s, u, n + 1) == r;
      r
  }

  /** It is the only account that is not merged among those the links lead to. */
  lemma {:induction false} RootIsTheEnd(s: State, u: Id, n: nat)
    requires Forest(s) && u in s.users
    ensures s.users[Follow(s, u, n)].mergedInto.None? <==> Follow(s, u, n) == Root(s, u)
    decreases n
  {
    if n > 0 && s.users[u].mergedInto.Some? {
      assert MergedAt(s.audit, MergeIndex(s, u), u);
      RootIsTheEnd(s, s.users[u].mergedInto.value, n - 1);
    }
  }

  /** Acceptances happened in the order of the chain: each link was made before the next one. */
  lemma {:induction false} ChainOrdered(s: State, u: Id, n: nat)
    requires Forest(s) && u in s.users && n > 0 && s.users[u].mergedInto.Some?
    requires s.users[Follow(s, u, n)].mergedInto.Some?
    ensures MergeIndex(s, u) < MergeIndex(s, Follow(s, u, n))
    decreases n
  {
    var p := s.users[u].mergedInto.value;
    assert MergedAt(s.audit, MergeIndex(s, u), u);
    if s.users[p].mergedInto.Some? {
      assert MergedAt(s.audit, MergeIndex(s, p), p);
      if n > 1 {
        ChainOrdered(s, p, n - 1);
      }
    }
  }

  /** No account is reached again by following its own links. */
  lemma NoCycle(s: State, u: Id, n: nat)
    requires Forest(s) && u in s.users && n > 0 && s.users[u].mergedInto.Some?
    ensures Follow(s, u, n) != u
  {
    if s.users[Follow(s, u, n)].mergedInto.Some? {
      ChainOrdered(s, u, n);
    }
  }

  /** An acceptance joins trees: accounts whose root was merged get the root of the primary, the others keep theirs. */
  lemma {:induction false} RootAfterAccept(s: State, userId: Id, proposalId: Id, now: Time, u: Id)
    requires Forest(s) && u in s.users
    requires proposalId in s.proposals && !s.proposals[proposalId].status.Accepted?
    requires AccountMerge.Accept(s, userId, proposalId, now).1.Ok?
    ensures var t := AccountMerge.Accept(s, userId, proposalId, now).0;
            var p := s.proposals[proposalId];
            && Forest(t) && u in t.users
            && Root(t, u) == if Root(s, u) in p.duplicates then p.primary else Root(s, u)
    decreases if s.users[u].mergedInto.Some? then |s.audit| - MergeIndex(s, u) else 0
  {
    AcceptForest(s, userId, proposalId, now);
    var t, p := AccountMerge.Accept(s, userId, proposalId, now).0, s.proposals[proposalId];
    assert t.users == AccountMerge.MergedUsers(s.users, p.primary, p.duplicates, now);
    assert t.users[p.primary].mergedInto.None?;
    if s.users[u].mergedInto.Some? {
      var q := s.users[u].mergedInto.value;
      assert MergedAt(s.audit, MergeIndex(s, u), u);
      assert s.users[q].mergedInto.Some? ==> MergeIndex(s, u) < MergeIndex(s, q) < |s.audit|;
      assert u !in p.duplicates;
      RootAfterAccept(s, userId, proposalId, now, q);
    }
  }
}
