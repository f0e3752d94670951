/** One submission row and the compare-and-set table of its lifecycle. */
module Submissions {
  import opened Records

  datatype Status = Queued | Running | Waiting | Terminalizing | Settled

  // Times are integers; ZERO_TIME stands for the zero time.
  const ZERO_TIME: int := 0

  datatype Submission = Submission(
    id: SubmissionId,
    session: nat,
    conv: ConversationId,
    status: Status,
    input: Text,
    attemptCount: nat,
    attemptId: AttemptId,
    ownerId: nat,
    leaseExpiresAt: int,
    lastError: Text,
    createdAt: int,
    parent: SubmissionId,
    parentCallId: CallId,
    depth: nat,
    pendingResume: bool,
    waitUntil: int,
    cancelRequested: bool)
  {
    predicate Terminal() { status == Terminalizing || status == Settled }
    predicate Open() { !Terminal() }
    predicate Owned(attempt: AttemptId) { status == Running && attemptId == attempt }
    /** Settled, settling, or flagged for cancel. */
    predicate Closed() { Terminal() || cancelRequested }
  }

  datatype RowOp =
    | Claim(attempt: AttemptId, owner: nat, lease: int)
    | Renew(attempt: AttemptId, lease: int)
    | Release(attempt: AttemptId, lastError: Text)
    | Park(attempt: AttemptId, until: int)
    | Resume
    | Cancel(reason: Text)
    | Reserve(attempt: AttemptId)
    | Finalize

  /** The attempt a call carries, for the four calls fenced by one. */
  function Fence(op: RowOp): Option<AttemptId> {
    match op
    case Renew(a, _) => Some(a)
    case Release(a, _) => Some(a)
    case Park(a, _) => Some(a)
    case Reserve(a) => Some(a)
    case _ => None
  }

  /** The row a call leaves behind; None when the compare-and-set is lost. */
  function Transition(r: Submission, op: RowOp): Option<Submission> {
    match op
    case Claim(a, o, lease) =>
      if r.status != Queued then None
      else Some(r.(status := Running, attemptId := a, ownerId := o, leaseExpiresAt := lease,
                   attemptCount := if r.pendingResume then r.attemptCount else r.attemptCount + 1,
                   pendingResume := false))
    case Renew(a, lease) =>
      if !r.Owned(a) then None else Some(r.(leaseExpiresAt := lease))
    case Release(a, err) =>
      if !r.Owned(a) then None
      else Some(r.(status := Queued, ownerId := NONE, attemptId := NONE, leaseExpiresAt := ZERO_TIME,
                   lastError := if err == "" then r.lastError else err))
    case Park(a, until) =>
      if !r.Owned(a) then None
      else Some(r.(status := Waiting, ownerId := NONE, attemptId := NONE, leaseExpiresAt := ZERO_TIME,
                   pendingResume := true, waitUntil := until))
    case Resume =>
      if r.status != Waiting then None else Some(r.(status := Queued, waitUntil := ZERO_TIME))
    case Cancel(reason) =>
      if r.Terminal() then None
      else if r.status == Running then Some(r.(cancelRequested := true))
      else Some(r.(status := Settled, lastError := reason, pendingResume := false, waitUntil := ZERO_TIME))
    case Reserve(a) =>
      if !r.Owned(a) then None else Some(r.(status := Terminalizing))
    case Finalize =>
      if r.status == Settled then Some(r)
      else if r.status == Terminalizing then Some(r.(status := Settled))
      else None
  }

  /** What identifies a row; no call changes it. */
  predicate SameIdentity(r: Submission, r': Submission) {
    && r.id == r'.id && r.session == r'.session && r.conv == r'.conv && r.input == r'.input
    && r.createdAt == r'.createdAt && r.parent == r'.parent && r.parentCallId == r'.parentCallId
    && r.depth == r'.depth
  }

  /** One row never moves back: what is decided stays decided. */
  predicate Evolves(r: Submission, r': Submission) {
    && SameIdentity(r, r')
    && (r.status == Settled ==> r'.status == Settled)
    && (r.Terminal() ==> r'.Terminal())
    && (r.cancelRequested ==> r'.cancelRequested)
    && r.attemptCount <= r'.attemptCount
  }

  lemma TransitionEvolves(r: Submission, op: RowOp)
    requires Transition(r, op).Some?
    ensures Evolves(r, Transition(r, op).value)
  {
  }

  /** A row as Dispatch admits it. */
  predicate Fresh(r: Submission) {
    && r.id != NONE && r.status == Queued && r.attemptCount == 0 && r.attemptId == NONE
    && !r.pendingResume && !r.cancelRequested && r.waitUntil == ZERO_TIME
    && r.ownerId == NONE && r.leaseExpiresAt == ZERO_TIME && r.lastError == ""
  }

  const DEFAULT_MAX_ATTEMPTS: nat := 10

  /** The budget a configuration stands for. */
  function Budget(maxAttempts: int): nat {
    if maxAttempts <= 0 then DEFAULT_MAX_ATTEMPTS else maxAttempts
  }
}
