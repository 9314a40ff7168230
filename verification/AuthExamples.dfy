/** A run of the auth service in which an answer is wrong. */
module AuthExamples {
  import opened Wrappers
  import opened AuthState
  import opened AuthRuns
  import Accounts
  import Risk
  import AccountMerge
  import DataExport
  import ExportLaws

  /**
   A merged account has no freeze of its own to show: whoever is flagged for fewer than two enabled rules after being
   merged is frozen, and the answer says that it is not.
   */
  lemma {:induction false} MergedAccountMisreported(
      s: State, requester: Id, id: Id, now: Time, account: Id, ruleCode: string, mentions: set<Id>)
    requires id in s.proposals && !s.proposals[id].status.Accepted? && account in s.proposals[id].duplicates
    requires AccountMerge.Accept(s, requester, id, now).1.Ok?
    requires ruleCode in s.rules && |Risk.TriggersWith(s, account, ruleCode)| < Risk.FREEZE_THRESHOLD
    ensures var merged := AccountMerge.Accept(s, requester, id, now).0;
            var (after, r) := Risk.AddRiskFlag(merged, account, ruleCode, mentions);
            && r == Ok(Risk.FlagResponse(false, |Risk.TriggersWith(s, account, ruleCode)|))
            && account in after.users && after.users[account].isFrozen
  {
    var merged := AccountMerge.Accept(s, requester, id, now).0;
    AcceptedIsFrozen(s, requester, id, now, account);
    assert Risk.TriggersWith(merged, account, ruleCode) == Risk.TriggersWith(s, account, ruleCode);
    hide AccountMerge.Accept, Risk.TriggersWith, Risk.DistinctEnabledTriggers;
    Risk.FlagAddsTrigger(merged, account, ruleCode, mentions);
    Risk.FlagFreezes(merged, account, ruleCode, mentions);
  }

  lemma {:induction false} AcceptedIsFrozen(s: State, requester: Id, id: Id, now: Time, account: Id)
    requires id in s.proposals && !s.proposals[id].status.Accepted? && account in s.proposals[id].duplicates
    requires AccountMerge.Accept(s, requester, id, now).1.Ok?
    ensures var merged := AccountMerge.Accept(s, requester, id, now).0;
            && account in merged.users && merged.users[account].isFrozen
            && merged.flags == s.flags && merged.rules == s.rules
  {
    hide AccountMerge.Retired, RevokeKeys;
    var p := s.proposals[id];
    assert AccountMerge.FirstUnavailable(s, p.duplicates).None?;
    var k :| 0 <= k < |p.duplicates| && p.duplicates[k] == account;
    assert account in s.users;
  }

  // ----- a run that gets there

  const REGISTRY: map<string, bool> := map["ip_24_share" := true, "payment_reused" := true]
  const ANN: User := Accounts.NewUser("ann@x.cn", "1", false)
  const BOB: User := Accounts.NewUser("bob@x.cn", "2", false)

  lemma {:induction false} Extend(trace: seq<State>, steps: seq<Step>, step: Step)
    requires IsRun(trace, steps) && Possible(trace[|steps|], step)
    ensures IsRun(trace + [Apply(trace[|steps|], step)], steps + [step])
  {
    hide Possible, Apply;
    var longer, more := trace + [Apply(trace[|steps|], step)], steps + [step];
    forall i | 0 <= i < |more| ensures Possible(longer[i], more[i]) && longer[i + 1] == Apply(longer[i], more[i]) {
      if i < |steps| {
        assert longer[i] == trace[i] && longer[i + 1] == trace[i + 1] && more[i] == steps[i];
      }
    }
  }

  /** The state that the run has reached, as far as merging and flagging look at it. */
  predicate Shows(s: State, users: map<Id, User>, flags: seq<RiskFlag>, proposals: map<Id, Proposal>) {
    s.users == users && s.flags == flags && s.proposals == proposals && s.rules == REGISTRY
  }

  lemma {:induction false} SignupShows(s: State, users: map<Id, User>, u: Id, email: string, phone: string)
    requires Shows(s, users, [], map[]) && u !in users
    requires forall v :: v in users ==> users[v].email != email && users[v].phone != phone
    ensures Shows(Accounts.Signup(s, u, email, phone, false, []).0, users[u := Accounts.NewUser(email, phone, false)],
            [], map[])
  {
  }

  lemma {:induction false} TwoAccounts() returns (trace: seq<State>, steps: seq<Step>)
    ensures IsRun(trace, steps) && Shows(trace[|steps|], map[1 := ANN, 2 := BOB], [], map[])
  {
    var s0 := State(map[], map[], map[], REGISTRY, [], map[], map[], map[], map[], map[], [], []);
    trace, steps := [s0], [];
    var ann, bob := Step.Signup(1, "ann@x.cn", "1", false, []), Step.Signup(2, "bob@x.cn", "2", false, []);
    SignupShows(s0, map[], 1, "ann@x.cn", "1");
    var s1 := Apply(s0, ann);
    Extend(trace, steps, ann);
    trace, steps := trace + [s1], steps + [ann];
    SignupShows(s1, map[1 := ANN], 2, "bob@x.cn", "2");
    hide Accounts.Signup;
    Extend(trace, steps, bob);
    trace, steps := trace + [Apply(s1, bob)], steps + [bob];
  }

  function AnnFlag(ruleCode: string): RiskFlag {
    RiskFlag(1, ruleCode, "admin", {})
  }

  lemma {:induction false} FirstFlag(s: State)
    requires Shows(s, map[1 := ANN, 2 := BOB], [], map[])
    ensures Shows(Risk.AddRiskFlag(s, 1, "ip_24_share", {}).0, map[1 := ANN, 2 := BOB], [AnnFlag("ip_24_share")], map[])
  {
    Risk.FlagAddsTrigger(s, 1, "ip_24_share", {});
    assert Risk.TriggersWith(s, 1, "ip_24_share") == {"ip_24_share"};
    hide Risk.DistinctEnabledTriggers, Risk.TriggersWith;
  }

  lemma {:induction false} BothTriggers(s: State)
    requires s.flags == [AnnFlag("ip_24_share")] && s.rules == REGISTRY
    ensures |Risk.TriggersWith(s, 1, "payment_reused")| == 2
  {
    assert s.flags[0].ruleCode == "ip_24_share";
    assert Risk.DistinctEnabledTriggers(s, 1) == {"ip_24_share"};
    hide Risk.DistinctEnabledTriggers;
    assert Risk.TriggersWith(s, 1, "payment_reused") == {"ip_24_share", "payment_reused"};
  }

  lemma {:induction false} SecondFlag(s: State)
    requires Shows(s, map[1 := ANN, 2 := BOB], [AnnFlag("ip_24_share")], map[])
    ensures Shows(Risk.AddRiskFlag(s, 1, "payment_reused", {}).0, map[1 := ANN.(isFrozen := true), 2 := BOB],
                  [AnnFlag("ip_24_share"), AnnFlag("payment_reused")], map[])
  {
    hide Risk.DistinctEnabledTriggers, Risk.TriggersWith;
    Risk.FlagAddsTrigger(s, 1, "payment_reused", {});
    BothTriggers(s);
  }

  lemma {:induction false} AnnFrozen() returns (trace: seq<State>, steps: seq<Step>)
    ensures IsRun(trace, steps)
    ensures Shows(trace[|steps|], map[1 := ANN.(isFrozen := true), 2 := BOB],
                  [AnnFlag("ip_24_share"), AnnFlag("payment_reused")], map[])
  {
    hide Risk.AddRiskFlag, Shows;
    trace, steps := TwoAccounts();
    var first, second := Step.AddRiskFlag(1, "ip_24_share", {}), Step.AddRiskFlag(1, "payment_reused", {});
    FirstFlag(trace[|steps|]);
    Extend(trace, steps, first);
    trace, steps := trace + [Apply(trace[|steps|], first)], steps + [first];
    SecondFlag(trace[|steps|]);
    Extend(trace, steps, second);
    trace, steps := trace + [Apply(trace[|steps|], second)], steps + [second];
  }

  const BODY: AccountMerge.MergeBody := AccountMerge.MergeBody(1, [2], 0, None)

  lemma {:induction false} SameDomain()
    ensures AccountMerge.Domain("ann@x.cn") == AccountMerge.Domain("bob@x.cn")
  {
    LastAtBefore("ann@", "x.cn");
    LastAtBefore("bob@", "x.cn");
    assert "ann@x.cn" == "ann@" + "x.cn" && "bob@x.cn" == "bob@" + "x.cn";
    assert "ann@x.cn"[4..] == "x.cn" && "bob@x.cn"[4..] == "x.cn";
  }

  lemma {:induction false} LastAtBefore(local: string, domain: string)
    requires local != "" && local[|local| - 1] == '@' && '@' !in domain
    ensures AccountMerge.LastAt(local + domain) == |local| - 1
  {
    if domain == "" {
      assert local + domain == local;
    } else {
      LastAtBefore(local, domain[..|domain| - 1]);
      assert (local + domain)[..|local + domain| - 1] == local + domain[..|domain| - 1];
    }
  }

  lemma {:induction false} ProposalMade(s: State, flags: seq<RiskFlag>)
    requires Shows(s, map[1 := ANN.(isFrozen := true), 2 := BOB], flags, map[])
    ensures var t := AccountMerge.Create(s, 1, 0, BODY, 0).0;
            && 0 in t.proposals && t.proposals[0].status.AutoApproved? && t.proposals[0].requester == 1
            && t.proposals[0].primary == 1 && t.proposals[0].duplicates == [2]
            && t.users == s.users && t.flags == s.flags && t.rules == s.rules
  {
    SameDomain();
    NotTombstoned();
    hide AccountMerge.IsTombstoned, AccountMerge.Domain;
    assert AccountMerge.HasMergeSignal(s, 1, 2);
    assert AccountMerge.DuplicateProblem(s, 1, 2).None?;
    assert AccountMerge.RequesterProblem(s, 1, BODY).None?;
    assert AccountMerge.FirstProblem(s, 1, [2]).None?;
    AccountMerge.AutoApprovalExact(s, 1, BODY, 0);
  }

  lemma {:induction false} NotTombstoned()
    ensures !AccountMerge.IsTombstoned(ANN.(isFrozen := true)) && !AccountMerge.IsTombstoned(BOB)
  {
  }

  lemma {:induction false} ProposalAccepted(s: State)
    requires s.users == map[1 := ANN.(isFrozen := true), 2 := BOB]
    requires 0 in s.proposals && s.proposals[0].status.AutoApproved? && s.proposals[0].requester == 1
    requires s.proposals[0].primary == 1 && s.proposals[0].duplicates == [2]
    ensures AccountMerge.Accept(s, 1, 0, 0).1.Ok?
  {
    NotTombstoned();
    hide AccountMerge.IsTombstoned, AccountMerge.MergedUsers, RevokeKeys;
    assert AccountMerge.FirstUnavailable(s, [2]).None?;
  }

  /**
   A run of the service ends in a state in which an account is frozen, and an administrator who flags it is told that it
   is not: the account was merged into another one and has no flag yet.
   */
  lemma {:induction false} FrozenReportedAsNotFrozen() returns (trace: seq<State>, steps: seq<Step>)
    ensures IsRun(trace, steps)
    ensures var (after, r) := Risk.AddRiskFlag(trace[|steps|], 2, "ip_24_share", {});
            r == Ok(Risk.FlagResponse(false, 1)) && 2 in after.users && after.users[2].isFrozen
  {
    hide AccountMerge.Create, AccountMerge.Accept, Risk.AddRiskFlag, Risk.TriggersWith;
    trace, steps := AnnFrozen();
    var create, accept := Step.CreateProposal(1, 0, BODY, 0), Step.AcceptProposal(1, 0, 0);
    var s := trace[|steps|];
    ProposalMade(s, s.flags);
    Extend(trace, steps, create);
    var t := Apply(s, create);
    trace, steps := trace + [t], steps + [create];
    ProposalAccepted(t);
    Extend(trace, steps, accept);
    trace, steps := trace + [Apply(t, accept)], steps + [accept];
    BobUnflagged(t);
    MergedAccountMisreported(t, 1, 0, 0, 2, "ip_24_share", {});
  }

  lemma {:induction false} BobUnflagged(s: State)
    requires s.flags == [AnnFlag("ip_24_share"), AnnFlag("payment_reused")] && s.rules == REGISTRY
    ensures |Risk.TriggersWith(s, 2, "ip_24_share")| == 1
  {
    assert Risk.DistinctEnabledTriggers(s, 2) == {};
    hide Risk.DistinctEnabledTriggers;
    assert Risk.TriggersWith(s, 2, "ip_24_share") == {"ip_24_share"};
  }

  // ----- a run in which a request is overtaken

  const FIRST: Step := Step.RequestExport(1, "json", None, 5, 0)
  const SECOND: Step := Step.RequestExport(2, "json", None, 3, 0)
  const WORKER: Step := Step.FinishExports(1, [3], {}, 0)

  function QueuedExport(user: Id): Export {
    Export(user, None, "json", Queued, 0, DataExport.SLA, None, None, None)
  }

  lemma {:induction false} FirstRequest(s: State)
    requires s.exports == map[] && s.users == map[]
    ensures Possible(s, FIRST)
    ensures var t := Apply(s, FIRST); t.exports == map[5 := QueuedExport(1)] && t.users == map[]
    ensures 5 in DataExport.Queue(Apply(s, FIRST)) && ExportLaws.Ahead(Apply(s, FIRST), 5) == {}
  {
  }

  lemma {:induction false} NoneOfSecond(s: State)
    requires s.exports == map[5 := QueuedExport(1)]
    ensures Possible(s, SECOND)
  {
    hide DataExport.Before, DataExport.Active;
  }

  lemma {:induction false} SecondRequest(s: State)
    requires s.exports == map[5 := QueuedExport(1)] && s.users == map[]
    ensures Possible(s, SECOND)
    ensures Apply(s, SECOND).exports == map[5 := QueuedExport(1), 3 := QueuedExport(2)]
  {
    NoneOfSecond(s);
    hide Possible, DataExport.IsActiveExport;
    var t := Apply(s, SECOND);
    assert t == DataExport.WithExport(s, 2, "json", 3, 0) by { hide DataExport.WithExport; }
    hide Apply, DataExport.Request;
    assert t.exports[3] == QueuedExport(2);
  }

  lemma {:induction false} WorkerTakesSecond(s: State)
    requires s.exports == map[5 := QueuedExport(1), 3 := QueuedExport(2)]
    ensures Possible(s, WORKER) && 5 in DataExport.Queue(Apply(s, WORKER))
  {
    assert DataExport.Queue(s) == {3, 5};
    assert [3][1..] == [];
    hide DataExport.Sorted;
    OneRowSorted(s);
  }

  lemma {:induction false} OneRowSorted(s: State)
    requires 3 in s.exports
    ensures DataExport.Sorted(s, [3])
  {
  }

  /**
   A request with none ahead of it, and a worker run that takes one: the run takes another request instead, made later
   in the run at the same time with a smaller id, and the first one is still queued.
   */
  lemma {:induction false} RequestOvertaken() returns (trace: seq<State>, steps: seq<Step>)
    ensures IsRun(trace, steps) && steps == [FIRST, SECOND, WORKER] && ClockOrdered(steps)
    ensures 5 in DataExport.Queue(trace[1]) && ExportLaws.Ahead(trace[1], 5) == {}
    ensures 5 in DataExport.Queue(trace[3])
  {
    var s0 := State(map[], map[], map[], REGISTRY, [], map[], map[], map[], map[], map[], [], []);
    FirstRequest(s0);
    var s1 := Apply(s0, FIRST);
    SecondRequest(s1);
    var s2 := Apply(s1, SECOND);
    WorkerTakesSecond(s2);
    hide Apply, Possible, DataExport.Queue, ExportLaws.Ahead, QueuedExport;
    trace, steps := ThreeSteps(s0, FIRST, SECOND, WORKER);
  }

  lemma {:induction false} ThreeSteps(s: State, a: Step, b: Step, c: Step) returns (trace: seq<State>, steps: seq<Step>)
    requires IsStart(s) && Possible(s, a) && Possible(Apply(s, a), b) && Possible(Apply(Apply(s, a), b), c)
    ensures IsRun(trace, steps) && steps == [a, b, c]
    ensures trace[1] == Apply(s, a) && trace[3] == Apply(Apply(Apply(s, a), b), c)
  {
    hide IsStart, Apply, Possible;
    trace, steps := [s, Apply(s, a)], [a];
    trace, steps := trace + [Apply(trace[1], b)], steps + [b];
    trace, steps := trace + [Apply(trace[2], c)], steps + [c];
  }
}
