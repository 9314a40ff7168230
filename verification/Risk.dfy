/** Risk flags and the freeze they lead to. */
module Risk {
  import opened Wrappers
  import opened AuthState

  const FREEZE_THRESHOLD := 2

  datatype NewFlag = NewFlag(ruleCode: string, source: string, mentions: set<Id>)

  /** The distinct enabled rules that the user has been flagged for. */
  function DistinctEnabledTriggers(s: State, userId: Id): set<string> {
    set i | 0 <= i < |s.flags| && s.flags[i].userId == userId
            && s.flags[i].ruleCode in s.rules && s.rules[s.flags[i].ruleCode]
      :: s.flags[i].ruleCode
  }

  function FlagRow(userId: Id, f: NewFlag): RiskFlag {
    RiskFlag(userId, f.ruleCode, f.source, f.mentions)
  }

  function FlagRows(userId: Id, newFlags: seq<NewFlag>): seq<RiskFlag> {
    seq(|newFlags|, i requires 0 <= i < |newFlags| => FlagRow(userId, newFlags[i]))
  }

  /** The foreign keys of the flag table: the user and the rule must exist. */
  predicate FlagsAllowed(s: State, userId: Id, newFlags: seq<NewFlag>) {
    newFlags != [] ==> userId in s.users && forall i :: 0 <= i < |newFlags| ==> newFlags[i].ruleCode in s.rules
  }

  /** Enough enabled rules were triggered, and the user is not frozen yet. */
  predicate Freezes(s: State, userId: Id) {
    && |DistinctEnabledTriggers(s, userId)| >= FREEZE_THRESHOLD
    && !(userId in s.users && s.users[userId].isFrozen)
  }

  function FreezeEntry(s: State, userId: Id): Audit {
    Audit(Some(userId), "system", Frozen(userId, DistinctEnabledTriggers(s, userId)))
  }

  function MaybeFreeze(s: State, userId: Id): State {
    if Freezes(s, userId)
    then s.(users := SetFrozen(s.users, userId, true), audit := s.audit + [FreezeEntry(s, userId)])
    else s
  }

  function WithFlags(s: State, userId: Id, newFlags: seq<NewFlag>): State {
    s.(flags := s.flags + FlagRows(userId, newFlags))
  }

  /** `apply_flags_and_maybe_freeze`; the result says whether this call froze the user. */
  function ApplyFlags(s: State, userId: Id, newFlags: seq<NewFlag>): (State, Outcome<bool>) {
    if !FlagsAllowed(s, userId, newFlags) then (s, Reject(Raised("IntegrityError")))
    else
      var flagged := WithFlags(s, userId, newFlags);
      (MaybeFreeze(flagged, userId), Ok(Freezes(flagged, userId)))
  }

  datatype FlagResponse = FlagResponse(userFrozen: bool, distinctEnabledTriggers: nat)

  function WithAdminFlag(s: State, userId: Id, ruleCode: string, mentions: set<Id>): State {
    s.(flags := s.flags + [RiskFlag(userId, ruleCode, "admin", mentions)],
       audit := s.audit + [Audit(Some(userId), "admin", FlagAdded(userId, ruleCode))])
  }

  /** `admin_add_risk_flag`. */
  function AddRiskFlag(s: State, userId: Id, ruleCode: string, mentions: set<Id>): (State, Outcome<FlagResponse>) {
    if ruleCode !in s.rules then (s, Reject(Http(404, "unknown rule_code")))
    else if userId !in s.users then (s, Reject(Http(404, "user not found")))
    else
      var flagged := WithAdminFlag(s, userId, ruleCode, mentions);
      var distinct := |DistinctEnabledTriggers(flagged, userId)|;
      if distinct < FREEZE_THRESHOLD then (flagged, Ok(FlagResponse(false, distinct)))
      else
        var after := MaybeFreeze(flagged, userId);
        var frozen := Freezes(flagged, userId) || (userId in after.users && after.users[userId].isFrozen);
        (after, Ok(FlagResponse(frozen, distinct)))
  }

  /** `admin_unfreeze_user`. */
  function UnfreezeUser(s: State, userId: Id): (State, Outcome<()>) {
    if userId !in s.users then (s, Reject(Http(404, "user not found")))
    else
      (s.(users := SetFrozen(s.users, userId, false), audit := s.audit
       + [Audit(Some(userId), "admin", Unfrozen(userId))]), Ok(()))
  }

  // ----- what a flag does

  /** The triggers once a flag for the rule has been recorded. */
  function TriggersWith(s: State, userId: Id, ruleCode: string): set<string> {
    DistinctEnabledTriggers(s, userId) + if ruleCode in s.rules && s.rules[ruleCode] then {ruleCode} else {}
  }

  lemma {:induction false} FlagAddsTrigger(s: State, userId: Id, ruleCode: string, mentions: set<Id>)
    ensures DistinctEnabledTriggers(WithAdminFlag(s, userId, ruleCode, mentions), userId)
            == TriggersWith(s, userId, ruleCode)
  {
    var flagged := WithAdminFlag(s, userId, ruleCode, mentions);
    assert flagged.flags[|s.flags|] == RiskFlag(userId, ruleCode, "admin", mentions);
    assert forall i :: 0 <= i < |s.flags| ==> flagged.flags[i] == s.flags[i];
  }

  /**
   After a flag is recorded the user is frozen exactly when it was before or enough enabled rules are triggered now.
   */
  lemma {:induction false} FlagFreezes(s: State, userId: Id, ruleCode: string, mentions: set<Id>)
    requires ruleCode in s.rules && userId in s.users
    ensures var (after, r) := AddRiskFlag(s, userId, ruleCode, mentions);
            && r.Ok? && r.value.distinctEnabledTriggers == |TriggersWith(s, userId, ruleCode)|
            && userId in after.users
            && (after.users[userId].isFrozen <==>
                s.users[userId].isFrozen || |TriggersWith(s, userId, ruleCode)| >= FREEZE_THRESHOLD)
            && (forall u :: u in s.users && u != userId ==> u in after.users && after.users[u] == s.users[u])
  {
    FlagAddsTrigger(s, userId, ruleCode, mentions);
    hide DistinctEnabledTriggers, TriggersWith;
  }

  /**
   The response tells whether the account is frozen, except for an account that is frozen already while the new flag
   leaves it with fewer than two distinct enabled triggers: that one is reported as not frozen.
   */
  lemma {:induction false} FlagResponseAccurate(s: State, userId: Id, ruleCode: string, mentions: set<Id>)
    requires ruleCode in s.rules && userId in s.users
    ensures var (after, r) := AddRiskFlag(s, userId, ruleCode, mentions);
            && r.Ok? && userId in after.users
            && (r.value.userFrozen == after.users[userId].isFrozen <==>
                !(s.users[userId].isFrozen && |TriggersWith(s, userId, ruleCode)| < FREEZE_THRESHOLD))
  {
    FlagAddsTrigger(s, userId, ruleCode, mentions);
    FlagFreezes(s, userId, ruleCode, mentions);
    hide DistinctEnabledTriggers, TriggersWith;
  }

  /** A flag for a disabled rule is recorded and freezes nobody. */
  lemma DisabledRuleCountsNothing(s: State, userId: Id, newFlags: seq<NewFlag>)
    requires FlagsAllowed(s, userId, newFlags)
    requires forall i :: 0 <= i < |newFlags| ==> newFlags[i].ruleCode in s.rules && !s.rules[newFlags[i].ruleCode]
    ensures DistinctEnabledTriggers(ApplyFlags(s, userId, newFlags).0, userId) == DistinctEnabledTriggers(s, userId)
  {
    var after := ApplyFlags(s, userId, newFlags).0;
    assert after.flags == s.flags + FlagRows(userId, newFlags) && after.rules == s.rules;
    forall code
      ensures code in DistinctEnabledTriggers(after, userId) <==> code in DistinctEnabledTriggers(s, userId)
    {
      if code in DistinctEnabledTriggers(s, userId) {
        var i :| 0 <= i < |s.flags| && s.flags[i].userId == userId && s.flags[i].ruleCode == code;
        assert after.flags[i] == s.flags[i];
      }
    }
  }
}
