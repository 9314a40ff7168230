/** Who accepted a merge, and what became of an export, as the logs of a whole run tell it. */
module AuditTrail {
  import opened Wrappers
  import opened AuthState
  import opened AuthRuns
  import opened AuthFrames
  import AccountMerge
  import AccountDeletion
  import DataExport
  import IncidentFanout
  import Accounts
  import Risk
  import ProposalLaws
  import MergeForest
  import MergeOutcomes
  import AccountOutcomes
  import DeletionOutcomes
  import ExportOutcomes
  import FanoutOutcomes

  // ----- which rows a step adds to the log

  predicate MayLog(step: Step, e: Event) {
    match step
    case Signup(_, _, _, _, _) => e.SignedUp? || e.Frozen?
    case CreateKey(_, _) => e.KeyCreated?
    case SetPreference(_, _) => e.PreferencesUpdated?
    case ApplyFlags(_, _) => e.Frozen?
    case AddRiskFlag(_, _, _) => e.FlagAdded? || e.Frozen?
    case UnfreezeUser(_) => e.Unfrozen?
    case CreateProposal(_, _, _, _) => e.MergeProposed? || e.MergeAutoApproved?
    case ReviewProposal(_, _, _, _, _) => e.MergeReviewed?
    case AcceptProposal(_, _, _) => e.MergeAccepted?
    case RequestDeletion(_, _) => e.DeletionRequested?
    case CompleteDeletions(_, _) => e.DeletionCompleted?
    case RequestExport(_, _, _, _, _) => e.ExportAudited?
    case FinishExports(_, _, _, _) => e.ExportAudited?
    case _ => false
  }

  /** The log only grows, by rows of the kinds that the step writes. */
  predicate LogsOnly(before: seq<Audit>, step: Step, after: seq<Audit>) {
    && before <= after
    && forall i :: |before| <= i < |after| ==> MayLog(step, after[i].event)
  }

  lemma {:induction false} AccountStepLogs(s: State, step: Step)
    requires Possible(s, step) && IsAccountStep(step)
    ensures LogsOnly(s.audit, step, Apply(s, step).audit)
  {
    hide Accounts.Signup, Risk.ApplyFlags, Risk.AddRiskFlag, Risk.UnfreezeUser, Accounts.CreateKey, Accounts.RequestOtp,
         Accounts.SetPreference, AccountOutcomes.IsActive;
    match step
    case Signup(u, email, phone, eduTier, triggered) => SignupLogs(s, u, email, phone, eduTier, triggered);
    case ApplyFlags(u, newFlags) => ApplyFlagsLogs(s, u, newFlags);
    case AddRiskFlag(u, code, mentions) => AddRiskFlagLogs(s, u, code, mentions);
    case UnfreezeUser(u) => AccountOutcomes.UnfreezeOutcome(s, u);
    case CreateKey(u, k) => AccountOutcomes.CreateKeyOutcome(s, u, k);
    case RequestOtp(u, a, b) => RequestOtpFrame(s, u, a, b);
    case SetPreference(u, p) => AccountOutcomes.SetPreferenceOutcome(s, u, p);
    case SetRule(_, _) =>
  }

  lemma {:induction false} SignupLogs(
      s: State, u: Id, email: string, phone: string, eduTier: bool, triggered: seq<string>)
    requires u !in s.users
    ensures var after := Accounts.Signup(s, u, email, phone, eduTier, triggered).0.audit;
            && s.audit <= after
            && forall i :: |s.audit| <= i < |after| ==> after[i].event.SignedUp? || after[i].event.Frozen?
  {
    hide Accounts.Signup, AccountOutcomes.Triggers, AccountOutcomes.IsTaken;
    AccountOutcomes.SignupOutcome(s, u, email, phone, eduTier, triggered);
  }

  lemma {:induction false} ApplyFlagsLogs(s: State, u: Id, newFlags: seq<Risk.NewFlag>)
    ensures var after := Risk.ApplyFlags(s, u, newFlags).0.audit;
            s.audit <= after && forall i :: |s.audit| <= i < |after| ==> after[i].event.Frozen?
  {
    hide Risk.ApplyFlags, AccountOutcomes.Triggers, AccountOutcomes.FlagsAdded, AccountOutcomes.OneFrozen;
    AccountOutcomes.ApplyFlagsOutcome(s, u, newFlags);
  }

  lemma {:induction false} AddRiskFlagLogs(s: State, u: Id, code: string, mentions: set<Id>)
    ensures var after := Risk.AddRiskFlag(s, u, code, mentions).0.audit;
            && s.audit <= after
            && forall i :: |s.audit| <= i < |after| ==> after[i].event.FlagAdded? || after[i].event.Frozen?
  {
    hide Risk.AddRiskFlag, AccountOutcomes.Triggers, AccountOutcomes.OneFrozen;
    AccountOutcomes.AddRiskFlagOutcome(s, u, code, mentions);
  }

  lemma {:induction false} ServiceStepLogs(s: State, step: Step)
    requires Possible(s, step) && !IsAccountStep(step)
    ensures LogsOnly(s.audit, step, Apply(s, step).audit)
  {
    hide AccountMerge.Create, AccountMerge.Review, AccountMerge.Accept, AccountDeletion.Request,
         AccountDeletion.Complete, DataExport.Request, DataExport.Finish, IncidentFanout.Fanout, Enumerates,
         DataExport.IsOldest, DataExport.IsActiveExport, MergeOutcomes.MayPropose, MergeOutcomes.IsNewRow,
         MergeOutcomes.PartiesLive, DeletionOutcomes.IsErased, ExportOutcomes.IsUsable, ExportOutcomes.Built,
         DataExport.Succeeded;
    match step
    case CreateProposal(u, id, body, now) => MergeOutcomes.CreateOutcome(s, u, id, body, now);
    case ReviewProposal(id, decision, reason, reviewedBy, now) =>
      MergeOutcomes.ReviewOutcome(s, id, decision, reason, reviewedBy, now);
    case AcceptProposal(u, id, now) => AcceptLogs(s, u, id, now);
    case RequestDeletion(u, now) => DeletionOutcomes.RequestOutcome(s, u, now);
    case CompleteDeletions(rows, now) => DeletionLogs(s, rows, now);
    case RequestExport(u, format, existing, id, now) => RequestExportLogs(s, u, format, existing, id, now);
    case FinishExports(limit, rows, failing, now) => FinishLogs(s, limit, rows, failing, now);
    case Fanout(incident, rows) => FanoutFrame(s, incident, rows);
  }

  lemma {:induction false} FinishLogs(s: State, limit: nat, rows: seq<Id>, failing: set<Id>, now: Time)
    requires DataExport.IsOldest(s, limit, rows)
    ensures var after := DataExport.Finish(s, rows, failing, now).audit;
            && s.audit <= after && forall i :: |s.audit| <= i < |after| ==> after[i].event.ExportAudited?
  {
    ExportOutcomes.WorkerOutcome(s, limit, rows, failing, now);
    hide DataExport.Finish, DataExport.IsOldest, ExportOutcomes.Built, ExportOutcomes.CompletedEvents,
         DataExport.Succeeded, ExportOutcomes.WorkerLog;
  }

  lemma {:induction false} DeletionLogs(s: State, rows: seq<Id>, now: Time)
    requires Enumerates(rows, AccountDeletion.Due(s, now))
    ensures var after := AccountDeletion.Complete(s, rows, now).audit;
            && s.audit <= after && forall i :: |s.audit| <= i < |after| ==> after[i].event.DeletionCompleted?
  {
    DeletionOutcomes.WorkerOutcome(s, rows, now);
    hide AccountDeletion.Complete, Enumerates, DeletionOutcomes.IsErased, DeletionOutcomes.IsDue,
         DeletionOutcomes.WorkerLog;
  }

  lemma {:induction false} AcceptLogs(s: State, u: Id, id: Id, now: Time)
    ensures var t := AccountMerge.Accept(s, u, id, now).0;
            t.audit == s.audit ||
            (&& id in s.proposals && u == s.proposals[id].requester && id in t.proposals
             && t.proposals[id].status.Accepted?
             && t.audit == s.audit + [Audit(Some(u), "user",
                                            MergeAccepted(id, s.proposals[id].primary, s.proposals[id].duplicates))])
  {
    hide AccountMerge.Accept, MergeOutcomes.PartiesLive;
    MergeOutcomes.AcceptAnswer(s, u, id, now);
    if AccountMerge.Accept(s, u, id, now).1.Ok? && !s.proposals[id].status.Accepted? {
      MergeOutcomes.AcceptEffect(s, u, id, now);
    }
  }

  lemma {:induction false} RequestExportLogs(
      s: State, u: Id, format: string, existing: Option<Id>, id: Id, now: Time)
    requires id !in s.exports && DataExport.IsActiveExport(s, u, format, now, existing)
    ensures var t := DataExport.Request(s, u, format, existing, id, now).0;
            || t == s
            || (&& id in t.exports && t.exports == s.exports[id := t.exports[id]]
                && t.exports[id].status.Queued? && t.exports[id].user == u
                && (exists ref :: t.audit == s.audit + [Audit(ref, "user", ExportAudited(id, "data_export.requested"))])
                && t.outbox == s.outbox + [ExportRequestedEvent(id, u)])
  {
    hide DataExport.Request, DataExport.IsActiveExport, ExportOutcomes.IsUsable;
    ExportOutcomes.RequestOutcome(s, u, format, existing, id, now);
  }

  /** Every step of a run. */
  lemma {:induction false} StepLogs(s: State, step: Step)
    requires Possible(s, step)
    ensures LogsOnly(s.audit, step, Apply(s, step).audit)
  {
    hide LogsOnly, Apply, Possible;
    if IsAccountStep(step) {
      AccountStepLogs(s, step);
    } else {
      ServiceStepLogs(s, step);
    }
  }

  // ----- who accepted

  /** An acceptance in the log: it names an accepted proposal, its requester as the user, and its accounts. */
  predicate IsByRequester(proposals: map<Id, Proposal>, row: Audit)
    requires row.event.MergeAccepted?
  {
    var id := row.event.proposalId;
    && id in proposals && proposals[id].status.Accepted?
    && row.userId == Some(proposals[id].requester) && row.actor == "user"
    && row.event.primary == proposals[id].primary && row.event.duplicates == proposals[id].duplicates
  }

  predicate AcceptedByRequesters(s: State) {
    forall i :: 0 <= i < |s.audit| && s.audit[i].event.MergeAccepted? ==> IsByRequester(s.proposals, s.audit[i])
  }

  lemma {:induction false} KeptByRequester(s: State, step: Step, row: Audit)
    requires Possible(s, step) && row.event.MergeAccepted? && IsByRequester(s.proposals, row)
    ensures IsByRequester(Apply(s, step).proposals, row)
  {
    hide Possible, Apply;
    ProposalLaws.StepEvolves(s, step, row.event.proposalId);
  }

  lemma {:induction false} AcceptParties(s: State, step: Step)
    requires step.AcceptProposal? && Possible(s, step) && step.proposalId in s.proposals
    ensures var t, id := Apply(s, step), step.proposalId;
            && id in t.proposals && t.proposals[id].requester == s.proposals[id].requester
            && t.proposals[id].primary == s.proposals[id].primary
            && t.proposals[id].duplicates == s.proposals[id].duplicates
  {
    hide Possible, Apply;
    ProposalLaws.StepEvolves(s, step, step.proposalId);
  }

  lemma {:induction false} NewAcceptance(s: State, step: Step, i: nat)
    requires step.AcceptProposal? && Possible(s, step)
    requires var t := Apply(s, step); |s.audit| <= i < |t.audit| && t.audit[i].event.MergeAccepted?
    ensures IsByRequester(Apply(s, step).proposals, Apply(s, step).audit[i])
  {
    hide AccountMerge.Accept;
    AcceptLogs(s, step.userId, step.proposalId, step.now);
    AcceptParties(s, step);
  }

  lemma {:induction false} StepAcceptedByRequesters(s: State, step: Step)
    requires AcceptedByRequesters(s) && Possible(s, step)
    ensures AcceptedByRequesters(Apply(s, step))
  {
    StepLogs(s, step);
    hide IsByRequester, Apply, Possible;
    var t := Apply(s, step);
    forall i | 0 <= i < |t.audit| && t.audit[i].event.MergeAccepted? ensures IsByRequester(t.proposals, t.audit[i]) {
      if i < |s.audit| {
        assert t.audit[i] == s.audit[i];
        KeptByRequester(s, step, s.audit[i]);
      } else {
        NewAcceptance(s, step, i);
      }
    }
  }

  /** In every run, each acceptance in the log was made by the requester of its proposal. */
  lemma {:induction false} AcceptancesAlways(trace: seq<State>, steps: seq<Step>, i: nat)
    requires IsRun(trace, steps) && i < |trace|
    ensures AcceptedByRequesters(trace[i])
  {
    hide Possible, Apply;
    if i > 0 {
      AcceptancesAlways(trace, steps, i - 1);
      hide AcceptedByRequesters;
      StepAcceptedByRequesters(trace[i - 1], steps[i - 1]);
    }
  }

  /** So nobody is merged but into the very account that accepted it. */
  lemma {:induction false} MergedByOwner(trace: seq<State>, steps: seq<Step>, i: nat, u: Id)
    requires IsRun(trace, steps) && i < |trace|
    requires u in trace[i].users && trace[i].users[u].mergedInto.Some?
    ensures exists k: nat :: MergeForest.MergedAt(trace[i].audit, k, u)
                             && trace[i].audit[k].userId == trace[i].users[u].mergedInto
  {
    MergeForest.ForestAlways(trace, steps, i);
    AcceptancesAlways(trace, steps, i);
    hide IsRun;
    var s := trace[i];
    var k: nat :| MergeForest.MergedAt(s.audit, k, u);
    assert IsByRequester(s.proposals, s.audit[k]);
  }

  // ----- what became of an export

  /** The actions that the log holds for an export, in order. */
  function ActionsOf(audit: seq<Audit>, id: Id): seq<string> {
    if audit == [] then []
    else
      var last := audit[|audit| - 1].event;
      if last.ExportAudited? && last.exportId == id then ActionsOf(audit[..|audit| - 1], id) + [last.action]
      else ActionsOf(audit[..|audit| - 1], id)
  }

  predicate IsAbout(e: OutboxEvent, id: Id) {
    (e.ExportRequestedEvent? || e.ExportCompletedEvent?) && e.exportId == id
  }

  /** The events that were sent for an export, in order. */
  function EventsOf(outbox: seq<OutboxEvent>, id: Id): seq<OutboxEvent> {
    if outbox == [] then []
    else if IsAbout(outbox[|outbox| - 1], id) then EventsOf(outbox[..|outbox| - 1], id) + [outbox[|outbox| - 1]]
    else EventsOf(outbox[..|outbox| - 1], id)
  }

  function ActionsFor(status: ExportStatus): seq<string> {
    match status
    case Queued => ["data_export.requested"]
    case Processing => []
    case Completed => ["data_export.requested", "data_export.completed"]
    case Failed => ["data_export.requested", "data_export.failed"]
  }

  function EventsFor(id: Id, e: Export): seq<OutboxEvent> {
    [ExportRequestedEvent(id, e.user)] + if e.status.Completed? then [ExportCompletedEvent(id, e.user)] else []
  }

  /** Both logs hold for an export exactly what its status says, and nothing for an export that is not there. */
  predicate IsTold(s: State, id: Id) {
    if id in s.exports then
      && !s.exports[id].status.Processing? && ActionsOf(s.audit, id) == ActionsFor(s.exports[id].status)
      && EventsOf(s.outbox, id) == EventsFor(id, s.exports[id])
    else ActionsOf(s.audit, id) == [] && EventsOf(s.outbox, id) == []
  }

  lemma {:induction false} ActionsConcat(a: seq<Audit>, b: seq<Audit>, id: Id)
    ensures ActionsOf(a + b, id) == ActionsOf(a, id) + ActionsOf(b, id)
  {
    if b == [] {
      assert a + b == a;
    } else {
      ActionsConcat(a, b[..|b| - 1], id);
      assert (a + b)[..|a + b| - 1] == a + b[..|b| - 1];
    }
  }

  lemma {:induction false} EventsConcat(a: seq<OutboxEvent>, b: seq<OutboxEvent>, id: Id)
    ensures EventsOf(a + b, id) == EventsOf(a, id) + EventsOf(b, id)
  {
    if b == [] {
      assert a + b == a;
    } else {
      EventsConcat(a, b[..|b| - 1], id);
      assert (a + b)[..|a + b| - 1] == a + b[..|b| - 1];
    }
  }

  lemma {:induction false} NoActions(audit: seq<Audit>, id: Id)
    requires forall i :: 0 <= i < |audit| ==> !(audit[i].event.ExportAudited? && audit[i].event.exportId == id)
    ensures ActionsOf(audit, id) == []
  {
    if audit != [] {
      NoActions(audit[..|audit| - 1], id);
    }
  }

  lemma {:induction false} NoEvents(outbox: seq<OutboxEvent>, id: Id)
    requires forall i :: 0 <= i < |outbox| ==> !IsAbout(outbox[i], id)
    ensures EventsOf(outbox, id) == []
  {
    if outbox != [] {
      NoEvents(outbox[..|outbox| - 1], id);
    }
  }

  function NewRows(before: seq<Audit>, after: seq<Audit>): (rows: seq<Audit>)
    requires before <= after
    ensures after == before + rows
  {
    after[|before|..]
  }

  /** A step that is not about exports adds nothing to what the logs say of them. */
  lemma {:induction false} OtherStepTold(s: State, step: Step, id: Id)
    requires Possible(s, step) && !step.RequestExport? && !step.FinishExports? && IsTold(s, id)
    ensures IsTold(Apply(s, step), id)
  {
    QuietLog(s, step, id);
    QuietOutbox(s, step, id);
    ExportsSame(s, step);
    hide Apply, Possible, ActionsFor, EventsFor, ActionsOf, EventsOf;
  }

  lemma {:induction false} QuietLog(s: State, step: Step, id: Id)
    requires Possible(s, step) && !step.RequestExport? && !step.FinishExports?
    ensures ActionsOf(Apply(s, step).audit, id) == ActionsOf(s.audit, id)
  {
    StepLogs(s, step);
    hide Apply, Possible;
    var log := NewRows(s.audit, Apply(s, step).audit);
    NoActions(log, id);
    ActionsConcat(s.audit, log, id);
    hide ActionsOf;
  }

  lemma {:induction false} QuietOutbox(s: State, step: Step, id: Id)
    requires Possible(s, step) && !step.RequestExport? && !step.FinishExports?
    ensures EventsOf(Apply(s, step).outbox, id) == EventsOf(s.outbox, id)
  {
    OtherStepSends(s, step);
    hide Apply, Possible;
    QuietEvents(s.outbox, Apply(s, step).outbox, id);
  }

  /** What was sent tells of no export. */
  ghost predicate SendsOther(before: seq<OutboxEvent>, after: seq<OutboxEvent>) {
    && before <= after
    && forall i :: |before| <= i < |after| ==> !after[i].ExportRequestedEvent? && !after[i].ExportCompletedEvent?
  }

  lemma {:induction false} QuietEvents(before: seq<OutboxEvent>, after: seq<OutboxEvent>, id: Id)
    requires SendsOther(before, after)
    ensures EventsOf(after, id) == EventsOf(before, id)
  {
    var sent := after[|before|..];
    assert after == before + sent;
    NoEvents(sent, id);
    EventsConcat(before, sent, id);
    hide EventsOf;
  }

  lemma {:induction false} ExportsSame(s: State, step: Step)
    requires Possible(s, step) && !step.RequestExport? && !step.FinishExports?
    ensures Apply(s, step).exports == s.exports
  {
    StepFramed(s, step);
    hide Apply, Possible;
  }

  lemma {:induction false} OtherStepSends(s: State, step: Step)
    requires Possible(s, step) && !step.RequestExport? && !step.FinishExports?
    ensures SendsOther(s.outbox, Apply(s, step).outbox)
  {
    hide Apply, Possible;
    if step.SetPreference? {
      PreferenceSends(s, step);
    } else if step.Fanout? {
      FanoutSends(s, step);
    } else {
      OutboxSame(s, step);
    }
  }

  lemma {:induction false} PreferenceSends(s: State, step: Step)
    requires Possible(s, step) && step.SetPreference?
    ensures SendsOther(s.outbox, Apply(s, step).outbox)
  {
    hide Accounts.SetPreference, AccountOutcomes.IsActive;
    AccountOutcomes.SetPreferenceOutcome(s, step.userId, step.preference);
  }

  lemma {:induction false} FanoutSends(s: State, step: Step)
    requires Possible(s, step) && step.Fanout?
    ensures SendsOther(s.outbox, Apply(s, step).outbox)
  {
    hide IncidentFanout.Fanout, FanoutOutcomes.RequestsAdded, FanoutOutcomes.IsSubscribed, Enumerates;
    FanoutOutcomes.FanoutOutcome(s, step.incident, step.rows);
  }

  lemma {:induction false} OutboxSame(s: State, step: Step)
    requires Possible(s, step)
    requires !step.RequestExport? && !step.FinishExports? && !step.SetPreference? && !step.Fanout?
    ensures Apply(s, step).outbox == s.outbox
  {
    StepFramed(s, step);
    hide Apply, Possible;
  }

  lemma {:induction false} OneAction(row: Audit, id: Id)
    ensures ActionsOf([row], id)
            == if row.event.ExportAudited? && row.event.exportId == id then [row.event.action] else []
  {
    assert [row][..0] == [];
  }

  lemma {:induction false} OneEvent(e: OutboxEvent, id: Id)
    ensures EventsOf([e], id) == if IsAbout(e, id) then [e] else []
  {
    assert [e][..0] == [];
  }

  lemma {:induction false} RequestTold(
      s: State, u: Id, format: string, existing: Option<Id>, newId: Id, now: Time, id: Id)
    requires newId !in s.exports && DataExport.IsActiveExport(s, u, format, now, existing) && IsTold(s, id)
    ensures IsTold(DataExport.Request(s, u, format, existing, newId, now).0, id)
  {
    RequestExportLogs(s, u, format, existing, newId, now);
    var t := DataExport.Request(s, u, format, existing, newId, now).0;
    hide DataExport.Request, DataExport.IsActiveExport;
    if t != s {
      NewExportTold(s, t, u, newId, id);
    }
  }

  lemma {:induction false} NewExportTold(s: State, t: State, u: Id, newId: Id, id: Id)
    requires newId !in s.exports && IsTold(s, id)
    requires newId in t.exports && t.exports == s.exports[newId := t.exports[newId]]
    requires t.exports[newId].status.Queued? && t.exports[newId].user == u
    requires exists ref :: t.audit == s.audit + [Audit(ref, "user", ExportAudited(newId, "data_export.requested"))]
    requires t.outbox == s.outbox + [ExportRequestedEvent(newId, u)]
    ensures IsTold(t, id)
  {
    var ref :| t.audit == s.audit + [Audit(ref, "user", ExportAudited(newId, "data_export.requested"))];
    var row := Audit(ref, "user", ExportAudited(newId, "data_export.requested"));
    ActionsConcat(s.audit, [row], id);
    OneAction(row, id);
    EventsConcat(s.outbox, [ExportRequestedEvent(newId, u)], id);
    OneEvent(ExportRequestedEvent(newId, u), id);
    hide ActionsOf, EventsOf;
    if id != newId {
      hide ActionsFor, EventsFor;
      assert ActionsOf(t.audit, id) == ActionsOf(s.audit, id) && EventsOf(t.outbox, id) == EventsOf(s.outbox, id);
    }
  }

  // ----- the export worker

  lemma {:induction false} RowActions(rows: seq<Id>, failing: set<Id>, log: seq<Audit>, id: Id)
    requires |log| == |rows| && Distinct(rows)
    requires forall i :: 0 <= i < |rows| ==>
               log[i].event == ExportAudited(rows[i], if rows[i] in failing then "data_export.failed"
                                                      else "data_export.completed")
    ensures ActionsOf(log, id)
            == if id !in rows then []
               else [if id in failing then "data_export.failed" else "data_export.completed"]
  {
    hide Distinct;
    if rows != [] {
      var n := |rows| - 1;
      LastOfDistinct(rows);
      RowActions(rows[..n], failing, log[..n], id);
    }
  }

  lemma {:induction false} LastOfDistinct(rows: seq<Id>)
    requires rows != [] && Distinct(rows)
    ensures var n := |rows| - 1;
            Distinct(rows[..n]) && rows[n] !in rows[..n]
            && forall id :: id in rows <==> id in rows[..n] || id == rows[n]
  {
    var n := |rows| - 1;
    assert rows == rows[..n] + [rows[n]];
  }

  lemma {:induction false} BuiltEvents(exports: map<Id, Export>, built: seq<Id>, id: Id)
    requires Distinct(built) && forall i :: 0 <= i < |built| ==> built[i] in exports
    ensures EventsOf(ExportOutcomes.CompletedEvents(exports, built), id)
            == if id in built then [ExportCompletedEvent(id, exports[id].user)] else []
  {
    if built != [] {
      var n := |built| - 1;
      LastOfDistinct(built);
      BuiltEvents(exports, built[..n], id);
      assert ExportOutcomes.CompletedEvents(exports, built)[..n] == ExportOutcomes.CompletedEvents(exports, built[..n]);
    }
  }

  lemma {:induction false} BuiltDistinct(rows: seq<Id>, failing: set<Id>)
    requires Distinct(rows)
    ensures Distinct(ExportOutcomes.Built(rows, failing))
    ensures forall id :: id in ExportOutcomes.Built(rows, failing) <==> id in rows && id !in failing
  {
    if rows != [] {
      LastOfDistinct(rows);
      BuiltDistinct(rows[..|rows| - 1], failing);
    }
  }

  lemma {:induction false} FinishActions(s: State, limit: nat, rows: seq<Id>, failing: set<Id>, now: Time, id: Id)
    requires DataExport.IsOldest(s, limit, rows)
    ensures ActionsOf(DataExport.Finish(s, rows, failing, now).audit, id)
            == ActionsOf(s.audit, id) + if id !in rows then []
               else [if id in failing then "data_export.failed" else "data_export.completed"]
  {
    ExportOutcomes.WorkerOutcome(s, limit, rows, failing, now);
    ExportOutcomes.OldestRows(s, limit, rows);
    var t := DataExport.Finish(s, rows, failing, now);
    hide DataExport.Finish, DataExport.IsOldest, ActionsOf, ExportOutcomes.Built, ExportOutcomes.CompletedEvents,
         DataExport.Succeeded;
    var log := ExportOutcomes.WorkerLog(s.exports, rows, failing);
    RowActions(rows, failing, log, id);
    ActionsConcat(s.audit, log, id);
  }

  lemma {:induction false} FinishEvents(s: State, limit: nat, rows: seq<Id>, failing: set<Id>, now: Time, id: Id)
    requires DataExport.IsOldest(s, limit, rows)
    ensures id in rows ==> id in s.exports
    ensures EventsOf(DataExport.Finish(s, rows, failing, now).outbox, id)
            == EventsOf(s.outbox, id)
               + if id in rows && id !in failing then [ExportCompletedEvent(id, s.exports[id].user)] else []
  {
    ExportOutcomes.WorkerOutcome(s, limit, rows, failing, now);
    ExportOutcomes.OldestRows(s, limit, rows);
    BuiltDistinct(rows, failing);
    var built := ExportOutcomes.Built(rows, failing);
    hide DataExport.Finish, DataExport.IsOldest, EventsOf, ExportOutcomes.Built, ExportOutcomes.CompletedEvents,
         DataExport.Succeeded;
    BuiltEvents(s.exports, built, id);
    EventsConcat(s.outbox, ExportOutcomes.CompletedEvents(s.exports, built), id);
  }

  lemma {:induction false} FinishStatus(s: State, limit: nat, rows: seq<Id>, failing: set<Id>, now: Time, id: Id)
    requires DataExport.IsOldest(s, limit, rows)
    ensures var t := DataExport.Finish(s, rows, failing, now);
            && (id in t.exports <==> id in s.exports)
            && (id in s.exports && id !in rows ==> t.exports[id] == s.exports[id])
            && (id in rows ==>
                  && id in s.exports && s.exports[id].status.Queued? && t.exports[id].user == s.exports[id].user
                  && t.exports[id].status == if id in failing then Failed else Completed)
  {
    ExportOutcomes.WorkerOutcome(s, limit, rows, failing, now);
    hide DataExport.Finish, DataExport.IsOldest, ExportOutcomes.Built, ExportOutcomes.CompletedEvents,
         DataExport.Succeeded;
  }

  lemma {:induction false} FinishTold(s: State, limit: nat, rows: seq<Id>, failing: set<Id>, now: Time, id: Id)
    requires DataExport.IsOldest(s, limit, rows) && IsTold(s, id)
    ensures IsTold(DataExport.Finish(s, rows, failing, now), id)
  {
    hide DataExport.Finish, DataExport.IsOldest, ActionsOf, EventsOf;
    FinishActions(s, limit, rows, failing, now, id);
    FinishEvents(s, limit, rows, failing, now, id);
    FinishStatus(s, limit, rows, failing, now, id);
  }

  lemma {:induction false} StepTold(s: State, step: Step, id: Id)
    requires Possible(s, step) && IsTold(s, id)
    ensures IsTold(Apply(s, step), id)
  {
    hide IsTold, DataExport.Request, DataExport.Finish, DataExport.IsOldest, DataExport.IsActiveExport;
    match step
    case RequestExport(u, format, existing, newId, now) => RequestTold(s, u, format, existing, newId, now, id);
    case FinishExports(limit, rows, failing, now) => FinishTold(s, limit, rows, failing, now, id);
    case _ => OtherStepTold(s, step, id);
  }

  /**
   In every state of every run the audit log and the outbox tell for each export exactly what its status says: it was
   requested once and then completed or failed at most once, and it is never left in processing.
   */
  lemma {:induction false} ExportsTold(trace: seq<State>, steps: seq<Step>, i: nat, id: Id)
    requires IsRun(trace, steps) && i < |trace|
    ensures IsTold(trace[i], id)
  {
    hide Possible, Apply;
    if i > 0 {
      ExportsTold(trace, steps, i - 1, id);
      hide IsTold;
      StepTold(trace[i - 1], steps[i - 1], id);
    }
  }
}
