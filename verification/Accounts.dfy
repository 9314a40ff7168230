/** The account routes that create the rows the other operations work on. */
module Accounts {
  import opened Wrappers
  import opened AuthState
  import Risk

  function NewUser(email: string, phone: string, eduTier: bool): User {
    User(email, phone, eduTier, true, 0, false, None, None, None)
  }

  function AutoFlags(triggered: seq<string>): seq<Risk.NewFlag> {
    seq(|triggered|, i requires 0 <= i < |triggered| => Risk.NewFlag(triggered[i], "auto", {}))
  }

  predicate Registered(s: State, email: string, phone: string) {
    exists u :: u in s.users && (s.users[u].email == email || s.users[u].phone == phone)
  }

  function WithUser(s: State, userId: Id, email: string, phone: string, eduTier: bool): State {
    s.(users := s.users[userId := NewUser(email, phone, eduTier)],
       audit := s.audit + [Audit(Some(userId), "user", SignedUp(userId))])
  }

  /** A signup: the account, its audit row and the flags of the automatic rules that it triggered. */
  function Signup(s: State, userId: Id, email: string, phone: string, eduTier: bool,
      triggered: seq<string>): (State, Outcome<Id>) {
    if Registered(s, email, phone) then
      (s, Reject(Http(409, "phone or email already registered")))
    else
      var created := WithUser(s, userId, email, phone, eduTier);
      if triggered == [] then (created, Ok(userId))
      else
        var (after, r) := Risk.ApplyFlags(created, userId, AutoFlags(triggered));
        if r.Ok? then (after, Ok(userId)) else (s, Reject(r.why))
  }

  /** `_require_active_user`. */
  function InactiveProblem(s: State, userId: Id): Option<Rejection> {
    if userId !in s.users || s.users[userId].deletedAt.Some? then Some(Http(403, "account deleted"))
    else if s.users[userId].mergedAt.Some? then Some(Http(403, "account merged"))
    else if s.users[userId].isFrozen then Some(Http(403, "account frozen"))
    else None
  }

  function WithKey(s: State, userId: Id, keyId: Id): State {
    s.(keys := s.keys[keyId := ApiKey(userId, None)],
       audit := s.audit + [Audit(Some(userId), "user", KeyCreated(keyId))])
  }

  function CreateKey(s: State, userId: Id, keyId: Id): (State, Outcome<Id>) {
    var problem := InactiveProblem(s, userId);
    if problem.Some? then (s, Reject(problem.value))
    else (WithKey(s, userId, keyId), Ok(keyId))
  }

  function WithOtps(s: State, userId: Id, phoneOtp: Id, emailOtp: Id): State {
    s.(otps := s.otps[phoneOtp := Otp(userId, "phone")][emailOtp := Otp(userId, "email")])
  }

  /** A login code for each factor; the account is looked up by its phone and email. */
  function RequestOtp(s: State, userId: Id, phoneOtp: Id, emailOtp: Id): (State, Outcome<()>) {
    if userId !in s.users then (s, Reject(Http(404, "user not found")))
    else if s.users[userId].deletedAt.Some? then (s, Reject(Http(403, "account deleted")))
    else if s.users[userId].isFrozen then (s, Reject(Http(403, "account frozen")))
    else (WithOtps(s, userId, phoneOtp, emailOtp), Ok(()))
  }

  function WithPreference(s: State, userId: Id, p: Preference): State {
    s.(preferences := s.preferences[userId := p],
       audit := s.audit + [Audit(Some(userId), "user", PreferencesUpdated(userId))],
       outbox := s.outbox + [PreferencesUpdatedEvent(userId)])
  }

  /** The update of the preference row for published incidents. */
  function SetPreference(s: State, userId: Id, p: Preference): (State, Outcome<()>) {
    var problem := InactiveProblem(s, userId);
    if problem.Some? then (s, Reject(problem.value))
    else (WithPreference(s, userId, p), Ok(()))
  }

  /** A migration that switches a rule of the registry on or off. */
  function SetRule(s: State, code: string, enabled: bool): State {
    s.(rules := s.rules[code := enabled])
  }
}
