/** The tables of the auth service, as one value, and how its operations can end. */
module AuthState {
  import opened Wrappers

  /** A UUID; ids are compared as numbers where a query orders by id. */
  type Id = nat

  /** Seconds. */
  type Time = int

  const DAY: Time := 86400

  datatype User = User(
    email: string,
    phone: string,
    eduTier: bool,
    ageVerified: bool,
    riskScore: int,
    isFrozen: bool,
    mergedInto: Option<Id>,
    mergedAt: Option<Time>,
    deletedAt: Option<Time>)

  datatype ApiKey = ApiKey(userId: Id, revokedAt: Option<Time>)

  datatype Otp = Otp(userId: Id, factor: string)

  /** `mentions` holds the users whose id occurs in the text of the flag's metadata. */
  datatype RiskFlag = RiskFlag(userId: Id, ruleCode: string, source: string, mentions: set<Id>)

  datatype ProposalStatus = PendingReview | AutoApproved | Approved | Rejected | Accepted

  datatype ReviewMode = Human | Auto

  datatype Proposal = Proposal(
    requester: Id,
    primary: Id,
    duplicates: seq<Id>,
    status: ProposalStatus,
    mode: ReviewMode,
    autoScore: Option<nat>,
    reviewDueAt: Time,
    reviewedAt: Option<Time>,
    reviewedBy: Option<string>,
    decisionReason: Option<string>,
    acceptedAt: Option<Time>,
    updatedAt: Time)

  datatype DeletionStatus = Scheduled | Done

  /** A deletion request; the table is keyed by the unique `user_id_snapshot`. */
  datatype Deletion = Deletion(
    userRef: Option<Id>,
    status: DeletionStatus,
    requestedAt: Time,
    hardDeleteAt: Time,
    completedAt: Option<Time>)

  datatype ExportStatus = Queued | Processing | Completed | Failed

  datatype Export = Export(
    user: Id,
    userRef: Option<Id>,
    format: string,
    status: ExportStatus,
    requestedAt: Time,
    slaDeadlineAt: Time,
    startedAt: Option<Time>,
    completedAt: Option<Time>,
    expiresAt: Option<Time>)

  /** The preference row of a user for published incidents. */
  datatype Preference = Preference(email: bool, webhook: bool, inApp: bool, webhookUrl: Option<string>)

  datatype Incident = Incident(id: string, title: string, severity: string, status: string)

  /** A notification request; the table is keyed by the unique pair of incident and user. */
  datatype NotificationRequest = NotificationRequest(
    statusUrl: string, title: string, severity: string, incidentStatus: string, channels: seq<string>,
    webhookConfigured: bool)

  datatype OutboxEvent =
    | ExportRequestedEvent(exportId: Id, userId: Id)
    | ExportCompletedEvent(exportId: Id, userId: Id)
    | PreferencesUpdatedEvent(userId: Id)
    | NotificationRequestedEvent(incidentId: string, userId: Id, request: NotificationRequest)

  /** What an audit row says: its action, its resource and its metadata. */
  datatype Event =
    | SignedUp(userId: Id)
    | KeyCreated(keyId: Id)
    | FlagAdded(userId: Id, ruleCode: string)
    | Frozen(userId: Id, triggered: set<string>)
    | Unfrozen(userId: Id)
    | MergeProposed(proposalId: Id, primary: Id, duplicates: seq<Id>, mode: ReviewMode)
    | MergeAutoApproved(proposalId: Id, autoScore: nat)
    | MergeReviewed(proposalId: Id, decision: string)
    | MergeAccepted(proposalId: Id, primary: Id, duplicates: seq<Id>)
    | DeletionRequested(userId: Id, requestedAt: Time, hardDeleteAt: Time)
    | DeletionCompleted(userId: Id, hardDeleteAt: Time, completedAt: Time)
    | ExportAudited(exportId: Id, action: string)
    | PreferencesUpdated(userId: Id)

  datatype Audit = Audit(userId: Option<Id>, actor: string, event: Event)

  datatype State = State(
    users: map<Id, User>,
    keys: map<Id, ApiKey>,
    otps: map<Id, Otp>,
    rules: map<string, bool>,
    flags: seq<RiskFlag>,
    proposals: map<Id, Proposal>,
    deletions: map<Id, Deletion>,
    exports: map<Id, Export>,
    preferences: map<Id, Preference>,
    notifications: map<(string, Id), NotificationRequest>,
    outbox: seq<OutboxEvent>,
    audit: seq<Audit>)

  /** A rejected call: an HTTP error or another exception; the transaction is rolled back. */
  datatype Rejection = Http(status: nat, detail: string) | Raised(exception: string)

  datatype Outcome<+T> = Ok(value: T) | Reject(why: Rejection)

  /** The rows of a table that a query without an order returned: each member of the set once. */
  ghost predicate Enumerates<T>(rows: seq<T>, members: set<T>) {
    && (forall i :: 0 <= i < |rows| ==> rows[i] in members)
    && (forall x :: x in members ==> x in rows)
    && Distinct(rows)
  }

  lemma NothingToEnumerate<T>(rows: seq<T>, members: set<T>)
    requires Enumerates(rows, members)
    ensures members == {} ==> rows == []
  {
    if rows != [] {
      assert rows[0] in members;
    }
  }

  ghost predicate Distinct<T>(rows: seq<T>) {
    forall i, j :: 0 <= i < j < |rows| ==> rows[i] != rows[j]
  }

  /** `UPDATE users SET is_frozen = ... WHERE id = ...`: nothing happens when there is no such row. */
  function SetFrozen(users: map<Id, User>, id: Id, frozen: bool): (r: map<Id, User>)
    ensures r.Keys == users.Keys
    ensures forall u :: u in users ==> r[u] == if u == id then users[u].(isFrozen := frozen) else users[u]
  {
    if id in users then users[id := users[id].(isFrozen := frozen)] else users
  }

  /** `UPDATE api_keys SET revoked_at = now WHERE user_id IN owners AND revoked_at IS NULL`. */
  function RevokeKeys(keys: map<Id, ApiKey>, owners: set<Id>, now: Time): (r: map<Id, ApiKey>)
    ensures r.Keys == keys.Keys
  {
    map k | k in keys ::
      if keys[k].userId in owners && keys[k].revokedAt.None? then keys[k].(revokedAt := Some(now)) else keys[k]
  }
}
