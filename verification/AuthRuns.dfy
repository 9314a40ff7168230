/** Runs of the auth service: any interleaving of its operations, each one a transaction. */
module AuthRuns {
  import opened Wrappers
  import opened AuthState
  import Accounts
  import Risk
  import AccountMerge
  import AccountDeletion
  import DataExport
  import IncidentFanout

  /**
   One transaction. Besides the arguments of the call a step carries what the database contributes: generated ids
   and the rows that a query returned. `SetRule` stands for the migrations that enable a rule.
   */
  datatype Step =
    | Signup(userId: Id, email: string, phone: string, eduTier: bool, triggered: seq<string>)
    | CreateKey(userId: Id, keyId: Id)
    | RequestOtp(userId: Id, phoneOtp: Id, emailOtp: Id)
    | SetPreference(userId: Id, preference: Preference)
    | SetRule(code: string, enabled: bool)
    | ApplyFlags(userId: Id, newFlags: seq<Risk.NewFlag>)
    | AddRiskFlag(userId: Id, ruleCode: string, mentions: set<Id>)
    | UnfreezeUser(userId: Id)
    | CreateProposal(userId: Id, proposalId: Id, body: AccountMerge.MergeBody, now: Time)
    | ReviewProposal(proposalId: Id, decision: string, reason: string, reviewedBy: string, now: Time)
    | AcceptProposal(userId: Id, proposalId: Id, now: Time)
    | RequestDeletion(userId: Id, now: Time)
    | CompleteDeletions(rows: seq<Id>, now: Time)
    | RequestExport(userId: Id, format: string, existing: Option<Id>, exportId: Id, now: Time)
    | FinishExports(limit: nat, rows: seq<Id>, failing: set<Id>, now: Time)
    | Fanout(incident: Incident, rows: seq<Id>)

  /** The steps on single accounts and on the rules, as opposed to proposals, deletions, exports and fanouts. */
  predicate IsAccountStep(step: Step) {
    || step.Signup? || step.CreateKey? || step.RequestOtp? || step.SetPreference?
    || step.SetRule? || step.ApplyFlags? || step.AddRiskFlag? || step.UnfreezeUser?
  }

  /** Generated ids are new, and the rows are those the query asks for. */
  ghost predicate Possible(s: State, step: Step) {
    match step
    case Signup(userId, _, _, _, _) => userId !in s.users
    case CreateKey(_, keyId) => keyId !in s.keys
    case RequestOtp(_, a, b) => a !in s.otps && b !in s.otps && a != b
    case CreateProposal(_, proposalId, _, _) => proposalId !in s.proposals
    case CompleteDeletions(rows, now) => Enumerates(rows, AccountDeletion.Due(s, now))
    case RequestExport(user, format, existing, exportId, now) =>
      exportId !in s.exports && DataExport.IsActiveExport(s, user, format, now, existing)
    case FinishExports(limit, rows, _, _) => DataExport.IsOldest(s, limit, rows)
    case Fanout(_, rows) => Enumerates(rows, IncidentFanout.Eligible(s))
    case _ => true
  }

  ghost function Apply(s: State, step: Step): State
    requires Possible(s, step)
  {
    match step
    case Signup(u, email, phone, eduTier, triggered) => Accounts.Signup(s, u, email, phone, eduTier, triggered).0
    case CreateKey(u, k) => Accounts.CreateKey(s, u, k).0
    case RequestOtp(u, a, b) => Accounts.RequestOtp(s, u, a, b).0
    case SetPreference(u, p) => Accounts.SetPreference(s, u, p).0
    case SetRule(code, enabled) => Accounts.SetRule(s, code, enabled)
    case ApplyFlags(u, newFlags) => Risk.ApplyFlags(s, u, newFlags).0
    case AddRiskFlag(u, code, mentions) => Risk.AddRiskFlag(s, u, code, mentions).0
    case UnfreezeUser(u) => Risk.UnfreezeUser(s, u).0
    case CreateProposal(u, id, body, now) => AccountMerge.Create(s, u, id, body, now).0
    case ReviewProposal(id, decision, reason, reviewedBy, now) =>
      AccountMerge.Review(s, id, decision, reason, reviewedBy, now).0
    case AcceptProposal(u, id, now) => AccountMerge.Accept(s, u, id, now).0
    case RequestDeletion(u, now) => AccountDeletion.Request(s, u, now).0
    case CompleteDeletions(rows, now) => AccountDeletion.Complete(s, rows, now)
    case RequestExport(u, format, existing, id, now) => DataExport.Request(s, u, format, existing, id, now).0
    case FinishExports(_, rows, failing, now) => DataExport.Finish(s, rows, failing, now)
    case Fanout(incident, rows) => IncidentFanout.Fanout(s, incident, rows).0
  }

  /** A new installation: no rows but the registry of rules. */
  predicate IsStart(s: State) {
    s == State(map[], map[], map[], s.rules, [], map[], map[], map[], map[], map[], [], [])
  }

  /** The states a service goes through: `trace[i]` becomes `trace[i + 1]` by `steps[i]`. */
  ghost predicate IsRun(trace: seq<State>, steps: seq<Step>) {
    && |trace| == |steps| + 1
    && IsStart(trace[0])
    && forall i :: 0 <= i < |steps| ==> Possible(trace[i], steps[i]) && trace[i + 1] == Apply(trace[i], steps[i])
  }

  /** The time of a step, for the steps that read the clock. */
  function TimeOf(step: Step): Option<Time> {
    match step
    case CreateProposal(_, _, _, now) => Some(now)
    case ReviewProposal(_, _, _, _, now) => Some(now)
    case AcceptProposal(_, _, now) => Some(now)
    case RequestDeletion(_, now) => Some(now)
    case CompleteDeletions(_, now) => Some(now)
    case RequestExport(_, _, _, _, now) => Some(now)
    case FinishExports(_, _, _, now) => Some(now)
    case _ => None
  }

  /** The clock never goes back. */
  ghost predicate ClockOrdered(steps: seq<Step>) {
    forall i, j :: 0 <= i < j < |steps| && TimeOf(steps[i]).Some? && TimeOf(steps[j]).Some? ==>
      TimeOf(steps[i]).value <= TimeOf(steps[j]).value
  }
}
