/** The life of a merge proposal over a whole run. */
module ProposalLaws {
  import opened Wrappers
  import opened AuthState
  import opened AuthRuns
  import opened AuthFrames
  import AccountMerge

  /** The moves a status can make in one step. */
  predicate Moves(before: ProposalStatus, after: ProposalStatus) {
    || before == after
    || (before.PendingReview? && (after.Approved? || after.Rejected?))
    || ((before.Approved? || before.AutoApproved?) && after.Accepted?)
  }

  predicate Final(status: ProposalStatus) {
    status.Accepted? || status.Rejected?
  }

  /** What a step may do to a proposal: move its status, and never change whom it merges into whom. */
  ghost predicate Evolves(before: Proposal, after: Proposal) {
    && Moves(before.status, after.status)
    && after.requester == before.requester && after.primary == before.primary && after.duplicates == before.duplicates
    && (Final(before.status) ==> after == before)
  }

  lemma ReviewEvolves(s: State, p: Id, decision: string, reason: string, reviewedBy: string, now: Time, id: Id)
    requires id in s.proposals
    ensures var t := AccountMerge.Review(s, p, decision, reason, reviewedBy, now).0;
            id in t.proposals && Evolves(s.proposals[id], t.proposals[id])
  {
    var t := AccountMerge.Review(s, p, decision, reason, reviewedBy, now).0;
    if t != s {
      assert t.proposals == s.proposals[p := t.proposals[p]];
    }
  }

  lemma AcceptEvolves(s: State, u: Id, p: Id, now: Time, id: Id)
    requires id in s.proposals
    ensures var t := AccountMerge.Accept(s, u, p, now).0;
            id in t.proposals && Evolves(s.proposals[id], t.proposals[id])
  {
    hide AccountMerge.MergedUsers, RevokeKeys;
  }

  lemma CreateEvolves(s: State, u: Id, p: Id, body: AccountMerge.MergeBody, now: Time, id: Id)
    requires id in s.proposals && p !in s.proposals
    ensures var t := AccountMerge.Create(s, u, p, body, now).0;
            id in t.proposals && t.proposals[id] == s.proposals[id]
  {
    hide AccountMerge.CreateProblem, AccountMerge.NewProposal, AccountMerge.CreationAudit;
  }

  lemma StepEvolves(s: State, step: Step, id: Id)
    requires Possible(s, step) && id in s.proposals
    ensures id in Apply(s, step).proposals && Evolves(s.proposals[id], Apply(s, step).proposals[id])
  {
    StepFramed(s, step);
    hide AccountMerge.Create, AccountMerge.Review, AccountMerge.Accept;
    if step.CreateProposal? {
      CreateEvolves(s, step.userId, step.proposalId, step.body, step.now, id);
    } else if step.ReviewProposal? {
      ReviewEvolves(s, step.proposalId, step.decision, step.reason, step.reviewedBy, step.now, id);
    } else if step.AcceptProposal? {
      AcceptEvolves(s, step.userId, step.proposalId, step.now, id);
    } else {
      hide Apply, Possible;
    }
  }

  /** A final proposal never changes again. */
  lemma {:induction false} FinalForever(trace: seq<State>, steps: seq<Step>, i: nat, j: nat, id: Id)
    requires IsRun(trace, steps) && i <= j < |trace|
    requires id in trace[i].proposals && Final(trace[i].proposals[id].status)
    ensures id in trace[j].proposals && trace[j].proposals[id] == trace[i].proposals[id]
    decreases j
  {
    hide Possible, Apply;
    if i < j {
      FinalForever(trace, steps, i, j - 1, id);
      StepEvolves(trace[j - 1], steps[j - 1], id);
    }
  }

  /** A proposal keeps its accounts for ever, whatever becomes of its status. */
  lemma {:induction false} PartiesFixed(trace: seq<State>, steps: seq<Step>, i: nat, j: nat, id: Id)
    requires IsRun(trace, steps) && i <= j < |trace| && id in trace[i].proposals
    ensures id in trace[j].proposals
    ensures trace[j].proposals[id].primary == trace[i].proposals[id].primary
    ensures trace[j].proposals[id].duplicates == trace[i].proposals[id].duplicates
    decreases j
  {
    hide Possible, Apply;
    if i < j {
      PartiesFixed(trace, steps, i, j - 1, id);
      StepEvolves(trace[j - 1], steps[j - 1], id);
    }
  }

  /** Two approved proposals that share a duplicate: once one is accepted, the other is refused and changes nothing. */
  lemma ConflictRefused(s: State, a: Id, b: Id, ua: Id, ub: Id, d: Id, now: Time, later: Time)
    requires a in s.proposals && b in s.proposals && a != b
    requires d in s.proposals[a].duplicates && d in s.proposals[b].duplicates
    requires !s.proposals[a].status.Accepted? && !s.proposals[b].status.Accepted?
    requires AccountMerge.Accept(s, ua, a, now).1.Ok?
    ensures var t := AccountMerge.Accept(s, ua, a, now).0;
            AccountMerge.Accept(t, ub, b, later).0 == t && AccountMerge.Accept(t, ub, b, later).1.Reject?
  {
    var t := AccountMerge.Accept(s, ua, a, now).0;
    var p := s.proposals[a];
    assert t.users == AccountMerge.MergedUsers(s.users, p.primary, p.duplicates, now);
    assert t.proposals[b] == s.proposals[b];
    assert AccountMerge.FirstUnavailable(s, p.duplicates).None?;
    var i :| 0 <= i < |s.proposals[b].duplicates| && s.proposals[b].duplicates[i] == d;
    var j :| 0 <= j < |p.duplicates| && p.duplicates[j] == d;
    assert d in s.users && t.users[d].mergedAt.Some?;
    assert AccountMerge.Retired(t, s.proposals[b].duplicates[i]);
    assert AccountMerge.FirstUnavailable(t, s.proposals[b].duplicates).Some?;
  }
}
