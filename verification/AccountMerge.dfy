/** Account-merge proposals: creation, review and acceptance. */
module AccountMerge {
  import opened Wrappers
  import opened AuthState

  /** In hundredths. */
  const AUTO_APPROVE_THRESHOLD := 70

  /** The body of a request; the reason enters only through its length without surrounding blanks. */
  datatype MergeBody = MergeBody(primary: Id, duplicates: seq<Id>, reasonLength: nat, teamSize: Option<nat>)

  function LastAt(email: string): (i: int)
    ensures -1 <= i < |email|
  {
    if email == "" then -1 else if email[|email| - 1] == '@' then |email| - 1 else LastAt(email[..|email| - 1])
  }

  function LowerAscii(s: string): string {
    seq(|s|, i requires 0 <= i < |s| => if 'A' <= s[i] <= 'Z' then (s[i] as int + 32) as char else s[i])
  }

  /** `email.rsplit("@", 1)[-1].lower()`. */
  function Domain(email: string): string {
    LowerAscii(email[LastAt(email) + 1..])
  }

  predicate EndsWith(s: string, suffix: string) {
    |suffix| <= |s| && s[|s| - |suffix|..] == suffix
  }

  predicate IsTombstoned(u: User) {
    u.deletedAt.Some? || EndsWith(u.email, "@invalid.local")
  }

  predicate Retired(s: State, userId: Id)
    requires userId in s.users
  {
    IsTombstoned(s.users[userId]) || s.users[userId].mergedAt.Some?
  }

  predicate HasRiskFlag(s: State, userId: Id) {
    exists i :: 0 <= i < |s.flags| && s.flags[i].userId == userId
  }

  predicate MetadataLinks(s: State, requester: Id, duplicate: Id) {
    exists i :: 0 <= i < |s.flags| && s.flags[i].userId == requester && duplicate in s.flags[i].mentions
  }

  predicate HasMergeSignal(s: State, requester: Id, duplicate: Id)
    requires requester in s.users && duplicate in s.users
  {
    || Domain(s.users[requester].email) == Domain(s.users[duplicate].email)
    || (HasRiskFlag(s, requester) && HasRiskFlag(s, duplicate))
    || MetadataLinks(s, requester, duplicate)
  }

  /** What the request schema checks. */
  predicate ValidBody(body: MergeBody) {
    && body.duplicates != []
    && (forall i, j :: 0 <= i < j < |body.duplicates| ==> body.duplicates[i] != body.duplicates[j])
    && body.primary !in body.duplicates
  }

  predicate SameDomain(s: State, requester: Id, duplicates: seq<Id>)
    requires requester in s.users && forall i :: 0 <= i < |duplicates| ==> duplicates[i] in s.users
  {
    forall i :: 0 <= i < |duplicates| ==> Domain(s.users[requester].email) == Domain(s.users[duplicates[i]].email)
  }

  predicate AllFlagged(s: State, requester: Id, duplicates: seq<Id>) {
    HasRiskFlag(s, requester) && forall i :: 0 <= i < |duplicates| ==> HasRiskFlag(s, duplicates[i])
  }

  function Min(a: nat, b: nat): nat {
    if a < b then a else b
  }

  /** `_calculate_auto_score`, in hundredths. */
  function AutoScore(s: State, requester: Id, duplicates: seq<Id>, reasonLength: nat): nat
    requires requester in s.users && forall i :: 0 <= i < |duplicates| ==> duplicates[i] in s.users
  {
    Min(100,
        50
        + (if duplicates != [] && SameDomain(s, requester, duplicates) then 20 else 0)
        + (if duplicates != [] && AllFlagged(s, requester, duplicates) then 20 else 0)
        + (if reasonLength >= 8 then 10 else 0))
  }

  /** Why a duplicate cannot be proposed, in the order of the checks. */
  function DuplicateProblem(s: State, requester: Id, duplicate: Id): Option<Rejection>
    requires requester in s.users
  {
    if duplicate !in s.users then Some(Http(404, "user not found"))
    else if IsTombstoned(s.users[duplicate]) then Some(Http(409, "duplicate account is deleted"))
    else if s.users[duplicate].mergedAt.Some? then Some(Http(409, "duplicate account already merged"))
    else if !HasMergeSignal(s, requester, duplicate) then
      Some(Http(422, "duplicate account has no allowed merge signal"))
    else None
  }

  function FirstProblem(s: State, requester: Id, duplicates: seq<Id>): (p: Option<Rejection>)
    requires requester in s.users
    ensures p.None? <==> forall i :: 0 <= i < |duplicates| ==> DuplicateProblem(s, requester, duplicates[i]).None?
  {
    if duplicates == [] then None
    else
      var p := DuplicateProblem(s, requester, duplicates[0]);
      if p.Some? then p else FirstProblem(s, requester, duplicates[1..])
  }

  /** Why the requester cannot propose a merge at all. */
  function RequesterProblem(s: State, requester: Id, body: MergeBody): Option<Rejection> {
    if !ValidBody(body) then Some(Http(422, "invalid request"))
    else if requester !in s.users then Some(Http(404, "user not found"))
    else if IsTombstoned(s.users[requester]) then Some(Http(403, "account deleted"))
    else if s.users[requester].mergedAt.Some? then Some(Http(403, "account merged"))
    else if !s.users[requester].isFrozen then Some(Http(409, "account is not frozen"))
    else if body.primary != requester then Some(Http(403, "primary_user_id must match authenticated user"))
    else None
  }

  function TeamSize(body: MergeBody): nat {
    if body.teamSize.None? || body.teamSize.value == 0 then 2 else body.teamSize.value
  }

  function CreateProblem(s: State, requester: Id, body: MergeBody): (p: Option<Rejection>)
    ensures p.None? ==>
              && ValidBody(body) && body.primary == requester && requester in s.users && !Retired(s, requester)
              && forall i :: 0 <= i < |body.duplicates| ==> DuplicateProblem(s, requester, body.duplicates[i]).None?
  {
    var problem := RequesterProblem(s, requester, body);
    if problem.Some? then problem else FirstProblem(s, requester, body.duplicates)
  }

  function ModeOf(body: MergeBody): ReviewMode {
    if TeamSize(body) >= 3 then Human else Auto
  }

  /** The row that a request creates. */
  function NewProposal(s: State, requester: Id, body: MergeBody, now: Time): Proposal
    requires CreateProblem(s, requester, body).None?
  {
    var mode := ModeOf(body);
    var score := if mode.Auto? then Some(AutoScore(s, requester, body.duplicates, body.reasonLength)) else None;
    var status := if score.Some? && score.value >= AUTO_APPROVE_THRESHOLD then AutoApproved else PendingReview;
    var due := now + (if mode.Human? then 48 else 24) * 3600;
    Proposal(requester, body.primary, body.duplicates, status, mode, score, due, None, None, None, None, now)
  }

  /** The audit rows of a creation: the proposal, and its approval when it is automatic. */
  function CreationAudit(proposalId: Id, p: Proposal): seq<Audit> {
    [Audit(Some(p.requester), "user", MergeProposed(proposalId, p.primary, p.duplicates, p.mode))]
    + if p.status.AutoApproved? && p.autoScore.Some?
      then [Audit(Some(p.requester), "system", MergeAutoApproved(proposalId, p.autoScore.value))]
      else []
  }

  /** `create_merge_proposal`; `proposalId` is the id the database generates. */
  function Create(s: State, requester: Id, proposalId: Id, body: MergeBody, now: Time): (State, Outcome<Id>) {
    var problem := CreateProblem(s, requester, body);
    if problem.Some? then (s, Reject(problem.value))
    else
      var row := NewProposal(s, requester, body, now);
      (s.(proposals := s.proposals[proposalId := row], audit := s.audit + CreationAudit(proposalId, row)),
       Ok(proposalId))
  }

  /** The row after a review: a decision other than `approve` rejects. */
  function Reviewed(p: Proposal, decision: string, reason: string, reviewedBy: string, now: Time): Proposal {
    p.(status := if decision == "approve" then Approved else Rejected,
       reviewedAt := Some(now), reviewedBy := Some(reviewedBy), decisionReason := Some(reason), updatedAt := now)
  }

  function WithReview(
      s: State, proposalId: Id, decision: string, reason: string, reviewedBy: string, now: Time): State
    requires proposalId in s.proposals
  {
    var p := s.proposals[proposalId];
    s.(proposals := s.proposals[proposalId := Reviewed(p, decision, reason, reviewedBy, now)],
       audit := s.audit + [Audit(Some(p.requester), "admin", MergeReviewed(proposalId, decision))])
  }

  /** `review_merge_proposal`. */
  function Review(s: State, proposalId: Id, decision: string, reason: string, reviewedBy: string,
      now: Time): (State, Outcome<Id>) {
    if proposalId !in s.proposals then (s, Reject(Http(404, "proposal not found")))
    else if !s.proposals[proposalId].status.PendingReview? then
      (s, Reject(Http(409, "proposal is already terminal or approved")))
    else (WithReview(s, proposalId, decision, reason, reviewedBy, now), Ok(proposalId))
  }

  function FirstUnavailable(s: State, duplicates: seq<Id>): (p: Option<Rejection>)
    ensures p.None? <==> forall i :: 0 <= i < |duplicates| ==> duplicates[i] in s.users && !Retired(s, duplicates[i])
  {
    if duplicates == [] then None
    else if duplicates[0] !in s.users then Some(Http(404, "user not found"))
    else if Retired(s, duplicates[0]) then Some(Http(409, "duplicate account already retired"))
    else FirstUnavailable(s, duplicates[1..])
  }

  function AcceptProblem(s: State, requester: Id, proposalId: Id): Option<Rejection>
    requires proposalId in s.proposals
  {
    var p := s.proposals[proposalId];
    if !p.status.Approved? && !p.status.AutoApproved? then Some(Http(409, "proposal not approved"))
    else if p.primary !in s.users then Some(Http(404, "user not found"))
    else if Retired(s, p.primary) then Some(Http(409, "primary account deleted"))
    else FirstUnavailable(s, p.duplicates)
  }

  /** The users after the two bulk updates of an acceptance. */
  function MergedUsers(users: map<Id, User>, primary: Id, duplicates: seq<Id>, now: Time): (r: map<Id, User>)
    ensures r.Keys == users.Keys
  {
    map u | u in users ::
      if u in duplicates then users[u].(isFrozen := true, mergedInto := Some(primary), mergedAt := Some(now))
      else if u == primary then users[u].(isFrozen := false)
      else users[u]
  }

  function WithMerge(s: State, requester: Id, proposalId: Id, now: Time): State
    requires proposalId in s.proposals
  {
    var p := s.proposals[proposalId];
    s.(users := MergedUsers(s.users, p.primary, p.duplicates, now),
       keys := RevokeKeys(s.keys, set i | 0 <= i < |p.duplicates| :: p.duplicates[i], now),
       proposals := s.proposals[proposalId := p.(status := Accepted, acceptedAt := Some(now), updatedAt := now)],
       audit := s.audit + [Audit(Some(requester), "user", MergeAccepted(proposalId, p.primary, p.duplicates))])
  }

  /** `accept_merge_proposal`. */
  function Accept(s: State, requester: Id, proposalId: Id, now: Time): (State, Outcome<Id>) {
    if proposalId !in s.proposals || s.proposals[proposalId].requester != requester then
      (s, Reject(Http(404, "proposal not found")))
    else if s.proposals[proposalId].status.Accepted? then (s, Ok(proposalId))
    else
      var problem := AcceptProblem(s, requester, proposalId);
      if problem.Some? then (s, Reject(problem.value)) else (WithMerge(s, requester, proposalId, now), Ok(proposalId))
  }

  // ----- automatic approval

  /**
   A proposal is approved on creation exactly in automatic mode when all duplicates share the requester's domain or
   when requester and duplicates are all flagged: the length of the reason never decides it.
   */
  lemma AutoApprovalExact(s: State, requester: Id, body: MergeBody, now: Time)
    requires CreateProblem(s, requester, body).None?
    ensures NewProposal(s, requester, body, now).status ==
            if TeamSize(body) < 3
               && (SameDomain(s, requester, body.duplicates) || AllFlagged(s, requester, body.duplicates))
            then AutoApproved else PendingReview
  {
    hide CreateProblem, DuplicateProblem, SameDomain, AllFlagged;
  }

  /** The four contributions never add up to more than the cap. */
  lemma CapNeverBinds(s: State, requester: Id, duplicates: seq<Id>, reasonLength: nat)
    requires requester in s.users && forall i :: 0 <= i < |duplicates| ==> duplicates[i] in s.users
    requires duplicates != []
    ensures AutoScore(s, requester, duplicates, reasonLength) ==
            50 + (if SameDomain(s, requester, duplicates) then 20 else 0)
            + (if AllFlagged(s, requester, duplicates) then 20 else 0) + (if reasonLength >= 8 then 10 else 0)
  {
  }

  /** A created proposal names only live, unmerged accounts other than its primary, each once and with a signal. */
  lemma CreatedProposalSound(s: State, requester: Id, proposalId: Id, body: MergeBody, now: Time)
    requires Create(s, requester, proposalId, body, now).1.Ok?
    ensures var after := Create(s, requester, proposalId, body, now).0;
            && proposalId in after.proposals
            && var p := after.proposals[proposalId];
               && p.primary == p.requester == requester && requester in s.users && !Retired(s, requester)
               && p.duplicates != [] && p.primary !in p.duplicates && Distinct(p.duplicates)
               && forall i :: 0 <= i < |p.duplicates| ==>
                    && p.duplicates[i] in s.users && !Retired(s, p.duplicates[i])
                    && HasMergeSignal(s, requester, p.duplicates[i])
  {
    hide CreateProblem, HasMergeSignal, IsTombstoned;
  }
}
