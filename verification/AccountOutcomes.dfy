/** What flags, signups, keys, codes and preferences answer and change, said of the tables alone. */
module AccountOutcomes {
  import opened Wrappers
  import opened AuthState
  import Risk
  import Accounts

  // ----- triggers

  predicate IsFlaggedFor(flags: seq<RiskFlag>, u: Id, code: string) {
    exists i :: 0 <= i < |flags| && flags[i].userId == u && flags[i].ruleCode == code
  }

  /** The enabled rules of the registry that an account has been flagged for. */
  function Triggers(rules: map<string, bool>, flags: seq<RiskFlag>, u: Id): set<string> {
    set code | code in rules && rules[code] && IsFlaggedFor(flags, u, code)
  }

  lemma {:induction false} TriggersAre(s: State, u: Id)
    ensures Triggers(s.rules, s.flags, u) == Risk.DistinctEnabledTriggers(s, u)
  {
  }

  predicate IsFrozenAccount(users: map<Id, User>, u: Id) {
    u in users && users[u].isFrozen
  }

  /** The accounts after a freeze of one of them. */
  predicate OneFrozen(before: map<Id, User>, after: map<Id, User>, u: Id) {
    && after.Keys == before.Keys
    && forall v :: v in before ==> after[v] == if v == u then before[v].(isFrozen := true) else before[v]
  }

  // ----- flags

  /** The rows of new flags stand behind the old ones, in order. */
  predicate FlagsAdded(before: seq<RiskFlag>, after: seq<RiskFlag>, u: Id, newFlags: seq<Risk.NewFlag>) {
    && before <= after && |after| == |before| + |newFlags|
    && forall i :: 0 <= i < |newFlags| ==>
         after[|before| + i] == RiskFlag(u, newFlags[i].ruleCode, newFlags[i].source, newFlags[i].mentions)
  }

  /**
   Flags are recorded exactly when the account and the rules exist. The account is frozen when it was not and two or
   more enabled rules are triggered then; that is what the answer tells and the only other change.
   */
  lemma {:induction false} ApplyFlagsOutcome(s: State, u: Id, newFlags: seq<Risk.NewFlag>)
    ensures var (t, r) := Risk.ApplyFlags(s, u, newFlags);
            && (r.Ok? <==> newFlags == []
                           || (u in s.users && forall i :: 0 <= i < |newFlags| ==> newFlags[i].ruleCode in s.rules))
            && (r.Reject? ==> t == s && r == Reject(Raised("IntegrityError")))
            && (r.Ok? ==>
                  && FlagsAdded(s.flags, t.flags, u, newFlags)
                  && var triggers := Triggers(s.rules, t.flags, u);
                     && (r.value <==> |triggers| >= 2 && !IsFrozenAccount(s.users, u))
                     && t == s.(flags := t.flags, users := t.users, audit := t.audit)
                     && (if r.value then OneFrozen(s.users, t.users, u) else t.users == s.users)
                     && t.audit == s.audit + if r.value then [Audit(Some(u), "system", Frozen(u, triggers))] else [])
  {
    if Risk.FlagsAllowed(s, u, newFlags) {
      var flagged := Risk.WithFlags(s, u, newFlags);
      TriggersAre(flagged, u);
      FreezeOutcome(flagged, u);
    }
    hide Risk.DistinctEnabledTriggers, Triggers, Risk.MaybeFreeze, Risk.Freezes, OneFrozen;
  }

  lemma {:induction false} FreezeOutcome(s: State, u: Id)
    ensures var t, triggers := Risk.MaybeFreeze(s, u), Triggers(s.rules, s.flags, u);
            && (Risk.Freezes(s, u) <==> |triggers| >= 2 && !IsFrozenAccount(s.users, u))
            && t == s.(users := t.users, audit := t.audit)
            && (if Risk.Freezes(s, u) then OneFrozen(s.users, t.users, u) else t.users == s.users)
            && t.audit == s.audit
                          + if Risk.Freezes(s, u) then [Audit(Some(u), "system", Frozen(u, triggers))] else []
  {
    TriggersAre(s, u);
    hide Risk.DistinctEnabledTriggers, Triggers;
    if !Risk.Freezes(s, u) {
      assert s.audit + [] == s.audit;
    }
  }

  /**
   An administrator's flag is recorded exactly for a known rule and a known account. The answer counts the enabled
   rules that are triggered then, and says that the account is frozen exactly when there are two or more.
   */
  lemma {:induction false} AddRiskFlagOutcome(s: State, u: Id, code: string, mentions: set<Id>)
    ensures var (t, r) := Risk.AddRiskFlag(s, u, code, mentions);
            && (r.Ok? <==> code in s.rules && u in s.users) && (r.Reject? ==> t == s)
            && (code !in s.rules ==> r == Reject(Http(404, "unknown rule_code")))
            && (code in s.rules && u !in s.users ==> r == Reject(Http(404, "user not found")))
            && (r.Ok? ==>
                  && t.flags == s.flags + [RiskFlag(u, code, "admin", mentions)]
                  && var triggers := Triggers(s.rules, t.flags, u);
                     var froze := |triggers| >= 2 && !s.users[u].isFrozen;
                     && r.value.distinctEnabledTriggers == |triggers| && (r.value.userFrozen <==> |triggers| >= 2)
                     && t == s.(flags := t.flags, users := t.users, audit := t.audit)
                     && (if froze then OneFrozen(s.users, t.users, u) else t.users == s.users)
                     && t.audit == s.audit + [Audit(Some(u), "admin", FlagAdded(u, code))]
                                   + if froze then [Audit(Some(u), "system", Frozen(u, triggers))] else [])
  {
    var flagged := Risk.WithAdminFlag(s, u, code, mentions);
    TriggersAre(flagged, u);
    FreezeOutcome(flagged, u);
    assert flagged.flags == s.flags + [RiskFlag(u, code, "admin", mentions)] && flagged.rules == s.rules;
    assert flagged.users == s.users && flagged.audit == s.audit + [Audit(Some(u), "admin", FlagAdded(u, code))];
    assert flagged.audit + [] == flagged.audit;
    hide Risk.DistinctEnabledTriggers, Triggers, Risk.MaybeFreeze, Risk.Freezes;
  }

  lemma {:induction false} UnfreezeOutcome(s: State, u: Id)
    ensures var (t, r) := Risk.UnfreezeUser(s, u);
            && (r.Ok? <==> u in s.users)
            && (r.Reject? ==> t == s && r == Reject(Http(404, "user not found")))
            && (r.Ok? ==> t == s.(users := s.users[u := s.users[u].(isFrozen := false)],
                                  audit := s.audit + [Audit(Some(u), "admin", Unfrozen(u))]))
  {
  }

  // ----- signup

  predicate IsTaken(users: map<Id, User>, email: string, phone: string) {
    exists v :: v in users && (users[v].email == email || users[v].phone == phone)
  }

  /**
   A signup succeeds exactly when nobody has the address or the number and all the automatic rules exist. It adds the
   account, its flags and its audit rows, and freezes it at once when two enabled rules are triggered.
   */
  lemma {:induction false} SignupOutcome(
      s: State, u: Id, email: string, phone: string, eduTier: bool, triggered: seq<string>)
    requires u !in s.users
    ensures var (t, r) := Accounts.Signup(s, u, email, phone, eduTier, triggered);
            && (r.Ok? <==> !IsTaken(s.users, email, phone)
                           && forall i :: 0 <= i < |triggered| ==> triggered[i] in s.rules)
            && (r.Reject? ==> t == s)
            && (IsTaken(s.users, email, phone) ==> r == Reject(Http(409, "phone or email already registered")))
            && (r.Reject? && !IsTaken(s.users, email, phone) ==> r == Reject(Raised("IntegrityError")))
            && (r.Ok? ==>
                  && r.value == u && s.flags <= t.flags && |t.flags| == |s.flags| + |triggered|
                  && (forall i :: 0 <= i < |triggered| ==>
                        t.flags[|s.flags| + i] == RiskFlag(u, triggered[i], "auto", {}))
                  && var triggers := Triggers(s.rules, t.flags, u);
                     var froze := triggered != [] && |triggers| >= 2;
                     && t.users == s.users[u := User(email, phone, eduTier, true, 0, froze, None, None, None)]
                     && t.audit == s.audit + [Audit(Some(u), "user", SignedUp(u))]
                                   + (if froze then [Audit(Some(u), "system", Frozen(u, triggers))] else [])
                     && t == s.(flags := t.flags, users := t.users, audit := t.audit))
  {
    hide Accounts.Signup, Accounts.WithUser, Accounts.AutoFlags, Risk.ApplyFlags, Triggers, IsTaken,
         Accounts.Registered;
    assert IsTaken(s.users, email, phone) <==> Accounts.Registered(s, email, phone) by { TakenIs(s, email, phone); }
    var created, newFlags := Accounts.WithUser(s, u, email, phone, eduTier), Accounts.AutoFlags(triggered);
    SignupSteps(s, u, email, phone, eduTier, triggered);
    AutoFlagsAre(triggered);
    if triggered == [] {
      assert s.flags + [] == s.flags && created.audit + [] == created.audit;
    } else {
      ApplyFlagsOutcome(created, u, newFlags);
      FrozenAtOnce(s.users, Risk.ApplyFlags(created, u, newFlags).0.users, u, Accounts.NewUser(email, phone, eduTier));
      hide OneFrozen;
    }
  }

  lemma {:induction false} TakenIs(s: State, email: string, phone: string)
    ensures IsTaken(s.users, email, phone) <==> Accounts.Registered(s, email, phone)
  {
  }

  lemma {:induction false} AutoFlagsAre(triggered: seq<string>)
    ensures |Accounts.AutoFlags(triggered)| == |triggered|
    ensures forall i :: 0 <= i < |triggered| ==>
              Accounts.AutoFlags(triggered)[i] == Risk.NewFlag(triggered[i], "auto", {})
  {
  }

  lemma {:induction false} SignupSteps(
      s: State, u: Id, email: string, phone: string, eduTier: bool, triggered: seq<string>)
    requires u !in s.users
    ensures var created, r := Accounts.WithUser(s, u, email, phone, eduTier),
                              Accounts.Signup(s, u, email, phone, eduTier, triggered);
            && created == s.(users := s.users[u := Accounts.NewUser(email, phone, eduTier)],
                             audit := s.audit + [Audit(Some(u), "user", SignedUp(u))])
            && (Accounts.Registered(s, email, phone) ==>
                  r == (s, Reject(Http(409, "phone or email already registered"))))
            && (!Accounts.Registered(s, email, phone) && triggered == [] ==> r == (created, Ok(u)))
            && (!Accounts.Registered(s, email, phone) && triggered != [] ==>
                  var (after, applied) := Risk.ApplyFlags(created, u, Accounts.AutoFlags(triggered));
                  r == if applied.Ok? then (after, Ok(u)) else (s, Reject(applied.why)))
  {
    hide Accounts.Registered, Risk.ApplyFlags, Accounts.AutoFlags;
  }

  lemma {:induction false} FrozenAtOnce(before: map<Id, User>, after: map<Id, User>, u: Id, row: User)
    ensures OneFrozen(before[u := row], after, u) ==> after == before[u := row.(isFrozen := true)]
  {
  }

  // ----- keys, codes and preferences

  /** An account that may use the service. */
  predicate IsActive(users: map<Id, User>, u: Id) {
    u in users && users[u].deletedAt.None? && users[u].mergedAt.None? && !users[u].isFrozen
  }

  lemma {:induction false} InactiveIs(s: State, u: Id)
    ensures Accounts.InactiveProblem(s, u)
            == if IsActive(s.users, u) then None
               else Some(Http(403, if u !in s.users || s.users[u].deletedAt.Some? then "account deleted"
                                   else if s.users[u].mergedAt.Some? then "account merged" else "account frozen"))
  {
  }

  /** Exactly the active accounts get a key. */
  lemma {:induction false} CreateKeyOutcome(s: State, u: Id, k: Id)
    ensures var (t, r) := Accounts.CreateKey(s, u, k);
            && (r.Ok? <==> IsActive(s.users, u)) && (r.Reject? ==> t == s && r.why.Http? && r.why.status == 403)
            && (r.Ok? ==> r.value == k
                          && t == s.(keys := s.keys[k := ApiKey(u, None)],
                                     audit := s.audit + [Audit(Some(u), "user", KeyCreated(k))]))
  {
    InactiveIs(s, u);
    hide Accounts.InactiveProblem, IsActive;
  }

  /** Exactly the active accounts set their preferences. */
  lemma {:induction false} SetPreferenceOutcome(s: State, u: Id, p: Preference)
    ensures var (t, r) := Accounts.SetPreference(s, u, p);
            && (r.Ok? <==> IsActive(s.users, u)) && (r.Reject? ==> t == s && r.why.Http? && r.why.status == 403)
            && (r.Ok? ==> t == s.(preferences := s.preferences[u := p],
                                  audit := s.audit + [Audit(Some(u), "user", PreferencesUpdated(u))],
                                  outbox := s.outbox + [PreferencesUpdatedEvent(u)]))
  {
    InactiveIs(s, u);
    hide Accounts.InactiveProblem, IsActive;
  }

  /** Codes are sent to every account that is neither deleted nor frozen; merged ones are frozen by their merge. */
  lemma {:induction false} RequestOtpOutcome(s: State, u: Id, a: Id, b: Id)
    requires a != b
    ensures var (t, r) := Accounts.RequestOtp(s, u, a, b);
            && (r.Ok? <==> u in s.users && s.users[u].deletedAt.None? && !s.users[u].isFrozen)
            && (r.Reject? ==> t == s)
            && (r.Ok? ==> t == s.(otps := s.otps + map[a := Otp(u, "phone"), b := Otp(u, "email")]))
  {
    var t := Accounts.RequestOtp(s, u, a, b).0;
    if t != s {
      assert t.otps == s.otps + map[a := Otp(u, "phone"), b := Otp(u, "email")];
    }
  }

  /** A migration sets one rule of the registry. */
  lemma {:induction false} SetRuleOutcome(s: State, code: string, enabled: bool)
    ensures var t := Accounts.SetRule(s, code, enabled);
            && t == s.(rules := t.rules) && code in t.rules && t.rules[code] == enabled
            && (forall other :: other in t.rules <==> other in s.rules || other == code)
            && (forall other :: other in s.rules && other != code ==> t.rules[other] == s.rules[other])
  {
  }
}
