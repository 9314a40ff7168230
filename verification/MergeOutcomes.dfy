/** What the operations on merge proposals answer and change, said of the tables alone. */
module MergeOutcomes {
  import opened Wrappers
  import opened AuthState
  import AccountMerge

  /** An account that is there, not deleted, not erased and not merged. */
  ghost predicate IsLive(users: map<Id, User>, u: Id) {
    && u in users && users[u].deletedAt.None? && users[u].mergedAt.None?
    && !(exists local: string :: local + "@invalid.local" == users[u].email)
  }

  lemma {:induction false} LiveIs(s: State, u: Id)
    ensures IsLive(s.users, u) <==> u in s.users && !AccountMerge.Retired(s, u)
  {
    if u in s.users {
      SuffixIs(s.users[u].email, "@invalid.local");
    }
  }

  lemma {:induction false} SuffixIs(s: string, suffix: string)
    ensures AccountMerge.EndsWith(s, suffix) <==> exists front: string :: front + suffix == s
  {
    if AccountMerge.EndsWith(s, suffix) {
      assert s[..|s| - |suffix|] + suffix == s;
    }
    if front: string :| front + suffix == s {
      assert s[|front|..] == suffix;
    }
  }

  // ----- the domain of an address

  predicate IsLower(a: char, b: char) {
    b == if 'A' <= a <= 'Z' then 'a' + (a - 'A') else a
  }

  predicate IsDomainAt(email: string, domain: string, i: nat) {
    && i + |domain| == |email| && (i > 0 ==> email[i - 1] == '@') && '@' !in email[i..]
    && forall k :: 0 <= k < |domain| ==> IsLower(email[i + k], domain[k])
  }

  /** What stands behind the last `@`, or everything when there is none, in lower case. */
  ghost predicate HasDomain(email: string, domain: string) {
    exists i: nat :: IsDomainAt(email, domain, i)
  }

  lemma {:induction false} LastAtIs(email: string)
    ensures var i := AccountMerge.LastAt(email) + 1;
            (i > 0 ==> email[i - 1] == '@') && '@' !in email[i..]
  {
    if email != "" && email[|email| - 1] != '@' {
      var shorter := email[..|email| - 1];
      LastAtIs(shorter);
      var i := AccountMerge.LastAt(shorter) + 1;
      assert email[i..] == shorter[i..] + [email[|email| - 1]];
    }
  }

  lemma {:induction false} LaterAt(email: string, i: nat, j: nat)
    requires i <= |email| && j <= |email|
    ensures i < j && email[j - 1] == '@' ==> '@' in email[i..]
  {
    if i < j {
      assert email[i..][j - 1 - i] == email[j - 1];
    }
  }

  lemma {:induction false} DomainUnique(email: string, a: string, i: nat, b: string, j: nat)
    requires IsDomainAt(email, a, i) && IsDomainAt(email, b, j)
    ensures a == b
  {
    LaterAt(email, i, j);
    LaterAt(email, j, i);
    assert |a| == |b|;
  }

  lemma {:induction false} DomainFound(email: string)
    ensures IsDomainAt(email, AccountMerge.Domain(email), AccountMerge.LastAt(email) + 1)
  {
    LastAtIs(email);
  }

  /** Every address has exactly one domain, the one that is compared. */
  lemma {:induction false} DomainIs(email: string, domain: string)
    ensures HasDomain(email, domain) <==> domain == AccountMerge.Domain(email)
  {
    DomainFound(email);
    hide IsDomainAt, AccountMerge.Domain, AccountMerge.LastAt;
    if i: nat :| IsDomainAt(email, domain, i) {
      DomainUnique(email, domain, i, AccountMerge.Domain(email), AccountMerge.LastAt(email) + 1);
    }
  }

  // ----- the signal that allows a merge

  ghost predicate ShareDomain(users: map<Id, User>, a: Id, b: Id)
    requires a in users && b in users
  {
    exists domain :: HasDomain(users[a].email, domain) && HasDomain(users[b].email, domain)
  }

  predicate IsFlagged(flags: seq<RiskFlag>, u: Id) {
    exists i :: 0 <= i < |flags| && flags[i].userId == u
  }

  predicate IsMentioned(flags: seq<RiskFlag>, a: Id, b: Id) {
    exists i :: 0 <= i < |flags| && flags[i].userId == a && b in flags[i].mentions
  }

  ghost predicate HasSignal(s: State, a: Id, b: Id)
    requires a in s.users && b in s.users
  {
    || ShareDomain(s.users, a, b)
    || (IsFlagged(s.flags, a) && IsFlagged(s.flags, b))
    || IsMentioned(s.flags, a, b)
  }

  lemma {:induction false} ShareDomainIs(s: State, a: Id, b: Id)
    requires a in s.users && b in s.users
    ensures ShareDomain(s.users, a, b) <==>
            AccountMerge.Domain(s.users[a].email) == AccountMerge.Domain(s.users[b].email)
  {
    hide HasDomain, AccountMerge.Domain;
    DomainIs(s.users[a].email, AccountMerge.Domain(s.users[a].email));
    DomainIs(s.users[b].email, AccountMerge.Domain(s.users[b].email));
    forall domain
      ensures HasDomain(s.users[a].email, domain) <==> domain == AccountMerge.Domain(s.users[a].email)
      ensures HasDomain(s.users[b].email, domain) <==> domain == AccountMerge.Domain(s.users[b].email)
    {
      DomainIs(s.users[a].email, domain);
      DomainIs(s.users[b].email, domain);
    }
  }

  lemma {:induction false} SignalIs(s: State, a: Id, b: Id)
    requires a in s.users && b in s.users
    ensures HasSignal(s, a, b) <==> AccountMerge.HasMergeSignal(s, a, b)
  {
    ShareDomainIs(s, a, b);
    hide ShareDomain, AccountMerge.Domain;
  }

  // ----- creating

  /** What a proposal needs of its parties. */
  ghost predicate MayPropose(s: State, requester: Id, body: AccountMerge.MergeBody) {
    && IsLive(s.users, requester) && s.users[requester].isFrozen && body.primary == requester
    && body.duplicates != [] && requester !in body.duplicates && Distinct(body.duplicates)
    && forall i :: 0 <= i < |body.duplicates| ==>
         IsLive(s.users, body.duplicates[i]) && HasSignal(s, requester, body.duplicates[i])
  }

  lemma {:induction false} DuplicateIs(s: State, requester: Id, duplicate: Id)
    requires requester in s.users
    ensures AccountMerge.DuplicateProblem(s, requester, duplicate).None? <==>
            IsLive(s.users, duplicate) && HasSignal(s, requester, duplicate)
  {
    LiveIs(s, duplicate);
    if duplicate in s.users {
      SignalIs(s, requester, duplicate);
    }
    hide IsLive, HasSignal, AccountMerge.IsTombstoned, AccountMerge.HasMergeSignal;
  }

  lemma {:induction false} ProposeIs(s: State, requester: Id, body: AccountMerge.MergeBody)
    ensures AccountMerge.CreateProblem(s, requester, body).None? <==> MayPropose(s, requester, body)
  {
    LiveIs(s, requester);
    if requester in s.users {
      forall i | 0 <= i < |body.duplicates|
        ensures AccountMerge.DuplicateProblem(s, requester, body.duplicates[i]).None? <==>
                IsLive(s.users, body.duplicates[i]) && HasSignal(s, requester, body.duplicates[i]) {
        DuplicateIs(s, requester, body.duplicates[i]);
      }
    }
    hide IsLive, HasSignal, AccountMerge.IsTombstoned, AccountMerge.DuplicateProblem;
  }

  /** The row of a new proposal. */
  ghost predicate IsNewRow(s: State, requester: Id, body: AccountMerge.MergeBody, now: Time, row: Proposal)
    requires MayPropose(s, requester, body)
  {
    var large := body.teamSize.Some? && body.teamSize.value >= 3;
    var sameDomain := forall i :: 0 <= i < |body.duplicates| ==> ShareDomain(s.users, requester, body.duplicates[i]);
    var allFlagged := IsFlagged(s.flags, requester)
                      && forall i :: 0 <= i < |body.duplicates| ==> IsFlagged(s.flags, body.duplicates[i]);
    && row.requester == row.primary == requester && row.duplicates == body.duplicates
    && row.mode == (if large then Human else Auto)
    && row.autoScore == (if large then None
                         else Some(50 + (if sameDomain then 20 else 0) + (if allFlagged then 20 else 0)
                                   + (if body.reasonLength >= 8 then 10 else 0)))
    && row.status == (if !large && (sameDomain || allFlagged) then AutoApproved else PendingReview)
    && row.reviewDueAt == now + (if large then 48 * 60 * 60 else 24 * 60 * 60) && row.updatedAt == now
    && row.reviewedAt.None? && row.reviewedBy.None? && row.decisionReason.None? && row.acceptedAt.None?
  }

  lemma {:induction false} NewRowIs(s: State, requester: Id, body: AccountMerge.MergeBody, now: Time)
    requires MayPropose(s, requester, body)
    ensures AccountMerge.CreateProblem(s, requester, body).None?
    ensures IsNewRow(s, requester, body, now, AccountMerge.NewProposal(s, requester, body, now))
  {
    ProposeIs(s, requester, body);
    forall i | 0 <= i < |body.duplicates|
      ensures ShareDomain(s.users, requester, body.duplicates[i]) <==>
              AccountMerge.Domain(s.users[requester].email)
              == AccountMerge.Domain(s.users[body.duplicates[i]].email) {
      ShareDomainIs(s, requester, body.duplicates[i]);
    }
    hide ShareDomain, AccountMerge.Domain, AccountMerge.CreateProblem, AccountMerge.DuplicateProblem, HasSignal, IsLive;
  }

  /**
   A proposal is created exactly when the requester is a live, frozen account that proposes itself as the primary of
   live, distinct others, each linked to it by a signal. The row and its audit rows follow from the request; a refused
   request changes nothing.
   */
  lemma {:induction false} CreateOutcome(s: State, requester: Id, id: Id, body: AccountMerge.MergeBody, now: Time)
    ensures var (t, r) := AccountMerge.Create(s, requester, id, body, now);
            && (r.Ok? <==> MayPropose(s, requester, body)) && (r.Reject? ==> t == s)
            && (r.Ok? ==>
                  && r.value == id && id in t.proposals && IsNewRow(s, requester, body, now, t.proposals[id])
                  && var row := t.proposals[id];
                     var proposed := Audit(Some(requester), "user",
                                           MergeProposed(id, requester, body.duplicates, row.mode));
                     && t.audit == s.audit + (if row.status.AutoApproved? && row.autoScore.Some? then
                          [proposed, Audit(Some(requester), "system", MergeAutoApproved(id, row.autoScore.value))]
                        else [proposed])
                     && t == s.(proposals := s.proposals[id := row], audit := t.audit))
  {
    ProposeIs(s, requester, body);
    if MayPropose(s, requester, body) {
      NewRowIs(s, requester, body, now);
    }
    hide MayPropose, AccountMerge.CreateProblem, AccountMerge.NewProposal;
  }

  /** An account whose data was erased or that asked for it. */
  ghost predicate IsGone(u: User) {
    u.deletedAt.Some? || exists local: string :: local + "@invalid.local" == u.email
  }

  lemma {:induction false} GoneIs(u: User)
    ensures IsGone(u) <==> AccountMerge.IsTombstoned(u)
  {
    SuffixIs(u.email, "@invalid.local");
  }

  /** Why a requester is refused. */
  lemma {:induction false} RequesterRefused(s: State, u: Id, id: Id, body: AccountMerge.MergeBody, now: Time)
    requires body.duplicates != [] && body.primary !in body.duplicates && Distinct(body.duplicates)
    ensures var r := AccountMerge.Create(s, u, id, body, now).1;
            && (u !in s.users ==> r == Reject(Http(404, "user not found")))
            && (u in s.users && IsGone(s.users[u]) ==> r == Reject(Http(403, "account deleted")))
            && (u in s.users && !IsGone(s.users[u]) && s.users[u].mergedAt.Some? ==>
                  r == Reject(Http(403, "account merged")))
            && (IsLive(s.users, u) && !s.users[u].isFrozen ==> r == Reject(Http(409, "account is not frozen")))
            && (IsLive(s.users, u) && s.users[u].isFrozen && body.primary != u ==>
                  r == Reject(Http(403, "primary_user_id must match authenticated user")))
  {
    if u in s.users {
      GoneIs(s.users[u]);
      LiveIs(s, u);
    }
    hide IsLive, IsGone, AccountMerge.IsTombstoned, AccountMerge.FirstProblem, AccountMerge.NewProposal;
  }

  lemma {:induction false} FirstProblemIs(s: State, u: Id, duplicates: seq<Id>, k: nat)
    requires u in s.users && k < |duplicates| && AccountMerge.DuplicateProblem(s, u, duplicates[k]).Some?
    requires forall i :: 0 <= i < k ==> AccountMerge.DuplicateProblem(s, u, duplicates[i]).None?
    ensures AccountMerge.FirstProblem(s, u, duplicates) == AccountMerge.DuplicateProblem(s, u, duplicates[k])
  {
    hide AccountMerge.DuplicateProblem;
    if k > 0 {
      FirstProblemIs(s, u, duplicates[1..], k - 1);
    }
  }

  /** Otherwise the first unsuitable duplicate decides. */
  lemma {:induction false} DuplicateRefused(
      s: State, u: Id, id: Id, body: AccountMerge.MergeBody, now: Time, k: nat)
    requires body.primary == u && body.primary !in body.duplicates && Distinct(body.duplicates)
    requires IsLive(s.users, u) && s.users[u].isFrozen && k < |body.duplicates|
    requires forall i :: 0 <= i < k ==>
               IsLive(s.users, body.duplicates[i]) && HasSignal(s, u, body.duplicates[i])
    ensures var r, d := AccountMerge.Create(s, u, id, body, now).1, body.duplicates[k];
            && (d !in s.users ==> r == Reject(Http(404, "user not found")))
            && (d in s.users && IsGone(s.users[d]) ==> r == Reject(Http(409, "duplicate account is deleted")))
            && (d in s.users && !IsGone(s.users[d]) && s.users[d].mergedAt.Some? ==>
                  r == Reject(Http(409, "duplicate account already merged")))
            && (IsLive(s.users, d) && !HasSignal(s, u, d) ==>
                  r == Reject(Http(422, "duplicate account has no allowed merge signal")))
  {
    var d := body.duplicates[k];
    LiveIs(s, u);
    LiveIs(s, d);
    if d in s.users {
      GoneIs(s.users[d]);
      SignalIs(s, u, d);
    }
    forall i | 0 <= i <= k
      ensures AccountMerge.DuplicateProblem(s, u, body.duplicates[i]).None? <==>
              IsLive(s.users, body.duplicates[i]) && HasSignal(s, u, body.duplicates[i]) {
      DuplicateIs(s, u, body.duplicates[i]);
    }
    if AccountMerge.DuplicateProblem(s, u, d).Some? {
      FirstProblemIs(s, u, body.duplicates, k);
    }
    hide IsLive, IsGone, HasSignal, AccountMerge.IsTombstoned, AccountMerge.HasMergeSignal, AccountMerge.FirstProblem,
         AccountMerge.NewProposal;
  }

  // ----- reviewing

  /** Exactly the pending proposals can be reviewed, each with one audit row in the name of its requester. */
  lemma {:induction false} ReviewOutcome(
      s: State, id: Id, decision: string, reason: string, reviewedBy: string, now: Time)
    ensures var (t, r) := AccountMerge.Review(s, id, decision, reason, reviewedBy, now);
            && (r.Ok? <==> id in s.proposals && s.proposals[id].status.PendingReview?) && (r.Reject? ==> t == s)
            && (id !in s.proposals ==> r == Reject(Http(404, "proposal not found")))
            && (id in s.proposals && !s.proposals[id].status.PendingReview? ==>
                  r == Reject(Http(409, "proposal is already terminal or approved")))
            && (r.Ok? ==>
                  && r.value == id && id in t.proposals
                  && t.proposals[id] == s.proposals[id].(
                       status := if decision == "approve" then Approved else Rejected, reviewedAt := Some(now),
                       reviewedBy := Some(reviewedBy), decisionReason := Some(reason), updatedAt := now)
                  && t == s.(proposals := s.proposals[id := t.proposals[id]],
                             audit := s.audit + [Audit(Some(s.proposals[id].requester), "admin",
                                                       MergeReviewed(id, decision))]))
  {
  }

  // ----- accepting

  /** The accounts of a proposal are all live. */
  ghost predicate PartiesLive(s: State, p: Proposal) {
    IsLive(s.users, p.primary) && forall i :: 0 <= i < |p.duplicates| ==> IsLive(s.users, p.duplicates[i])
  }

  lemma {:induction false} PartiesAre(s: State, p: Proposal)
    ensures PartiesLive(s, p) <==>
            && p.primary in s.users && !AccountMerge.Retired(s, p.primary)
            && AccountMerge.FirstUnavailable(s, p.duplicates).None?
  {
    LiveIs(s, p.primary);
    forall i | 0 <= i < |p.duplicates|
      ensures IsLive(s.users, p.duplicates[i]) <==>
              p.duplicates[i] in s.users && !AccountMerge.Retired(s, p.duplicates[i]) {
      LiveIs(s, p.duplicates[i]);
    }
    hide IsLive, AccountMerge.Retired;
  }

  /**
   A proposal is accepted exactly by its requester, when it has been approved and all its accounts are still live;
   accepting it again changes nothing. To anybody else the proposal does not exist.
   */
  lemma {:induction false} AcceptAnswer(s: State, u: Id, id: Id, now: Time)
    ensures var (t, r) := AccountMerge.Accept(s, u, id, now);
            && (r.Ok? <==>
                && id in s.proposals && s.proposals[id].requester == u
                && var p := s.proposals[id];
                   p.status.Accepted? || ((p.status.Approved? || p.status.AutoApproved?) && PartiesLive(s, p)))
            && (r.Ok? ==> r.value == id)
            && (id !in s.proposals || s.proposals[id].requester != u ==>
                  r == Reject(Http(404, "proposal not found")))
            && (id in s.proposals && s.proposals[id].requester == u
                && (s.proposals[id].status.PendingReview? || s.proposals[id].status.Rejected?) ==>
                  r == Reject(Http(409, "proposal not approved")))
            && (r.Reject? || s.proposals[id].status.Accepted? ==> t == s)
  {
    if id in s.proposals {
      PartiesAre(s, s.proposals[id]);
    }
    hide PartiesLive, AccountMerge.Retired, AccountMerge.FirstUnavailable, AccountMerge.WithMerge;
  }

  lemma {:induction false} FirstUnavailableIs(s: State, duplicates: seq<Id>, k: nat)
    requires k < |duplicates| && !IsLive(s.users, duplicates[k])
    requires forall i :: 0 <= i < k ==> IsLive(s.users, duplicates[i])
    ensures AccountMerge.FirstUnavailable(s, duplicates)
            == Some(if duplicates[k] in s.users then Http(409, "duplicate account already retired")
                    else Http(404, "user not found"))
  {
    LiveIs(s, duplicates[0]);
    hide IsLive, AccountMerge.Retired;
    if k > 0 {
      FirstUnavailableIs(s, duplicates[1..], k - 1);
    }
  }

  /** Why an approved proposal cannot be accepted by its requester: the first of its accounts that is not live. */
  lemma {:induction false} AcceptRefused(s: State, u: Id, id: Id, now: Time, k: nat)
    requires id in s.proposals && s.proposals[id].requester == u
    requires s.proposals[id].status.Approved? || s.proposals[id].status.AutoApproved?
    ensures var r, p := AccountMerge.Accept(s, u, id, now).1, s.proposals[id];
            && (p.primary !in s.users ==> r == Reject(Http(404, "user not found")))
            && (p.primary in s.users && !IsLive(s.users, p.primary) ==>
                  r == Reject(Http(409, "primary account deleted")))
            && (&& IsLive(s.users, p.primary) && k < |p.duplicates| && !IsLive(s.users, p.duplicates[k])
                && (forall i :: 0 <= i < k ==> IsLive(s.users, p.duplicates[i])) ==>
                  r == Reject(if p.duplicates[k] in s.users then Http(409, "duplicate account already retired")
                              else Http(404, "user not found")))
  {
    var p := s.proposals[id];
    LiveIs(s, p.primary);
    if k < |p.duplicates| && !IsLive(s.users, p.duplicates[k])
       && forall i :: 0 <= i < k ==> IsLive(s.users, p.duplicates[i]) {
      FirstUnavailableIs(s, p.duplicates, k);
    }
    hide IsLive, AccountMerge.Retired, AccountMerge.FirstUnavailable, AccountMerge.WithMerge;
  }

  /** What an acceptance does to every table. */
  lemma {:induction false} AcceptEffect(s: State, u: Id, id: Id, now: Time)
    requires id in s.proposals && !s.proposals[id].status.Accepted? && AccountMerge.Accept(s, u, id, now).1.Ok?
    ensures var t, p := AccountMerge.Accept(s, u, id, now).0, s.proposals[id];
            && t == s.(users := t.users, keys := t.keys, proposals := t.proposals, audit := t.audit)
            && t.users.Keys == s.users.Keys && t.keys.Keys == s.keys.Keys
            && (forall v :: v in s.users ==>
                  t.users[v] == if v in p.duplicates
                                then s.users[v].(isFrozen := true, mergedInto := Some(p.primary), mergedAt := Some(now))
                                else if v == p.primary then s.users[v].(isFrozen := false)
                                else s.users[v])
            && (forall k :: k in s.keys ==>
                  t.keys[k] == if s.keys[k].userId in p.duplicates && s.keys[k].revokedAt.None?
                               then s.keys[k].(revokedAt := Some(now)) else s.keys[k])
            && t.proposals == s.proposals[id := p.(status := Accepted, acceptedAt := Some(now), updatedAt := now)]
            && t.audit == s.audit + [Audit(Some(p.requester), "user", MergeAccepted(id, p.primary, p.duplicates))]
  {
    hide AccountMerge.AcceptProblem;
    MergeTables(s, u, id, now);
    hide AccountMerge.WithMerge;
  }

  lemma {:induction false} MergeTables(s: State, u: Id, id: Id, now: Time)
    requires id in s.proposals
    ensures var t, p := AccountMerge.WithMerge(s, u, id, now), s.proposals[id];
            && t == s.(users := t.users, keys := t.keys, proposals := t.proposals, audit := t.audit)
            && t.users == AccountMerge.MergedUsers(s.users, p.primary, p.duplicates, now)
            && t.keys == RevokeKeys(s.keys, set i | 0 <= i < |p.duplicates| :: p.duplicates[i], now)
            && t.proposals == s.proposals[id := p.(status := Accepted, acceptedAt := Some(now), updatedAt := now)]
            && t.audit == s.audit + [Audit(Some(u), "user", MergeAccepted(id, p.primary, p.duplicates))]
  {
  }
}
