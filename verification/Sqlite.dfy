/** The SQL store's guarded updates, over the table in sequence order, and their
    agreement with the compare-and-set of one row. */
module Sqlite {
  import opened Records
  import opened Submissions
  import opened StoreModel

  /** The WHERE clause of the update a call runs. */
  predicate Where(r: Submission, id: SubmissionId, op: RowOp) {
    r.id == id &&
    match op
    case Claim(_, _, _) => r.status == Queued
    case Renew(a, _) => r.status == Running && r.attemptId == a
    case Release(a, _) => r.status == Running && r.attemptId == a
    case Park(a, _) => r.status == Running && r.attemptId == a
    case Resume => r.status == Waiting
    // one transaction: read the status, then settle or flag
    case Cancel(_) => r.status in {Queued, Waiting, Running}
    case Reserve(a) => r.status == Running && r.attemptId == a
    case Finalize => r.status in {Terminalizing, Settled}
  }

  /** The SET clause. */
  function Assign(r: Submission, op: RowOp): Submission {
    match op
    case Claim(a, owner, lease) =>
      r.(status := Running, attemptId := a, ownerId := owner, leaseExpiresAt := lease,
         attemptCount := r.attemptCount + (if r.pendingResume then 0 else 1), pendingResume := false)
    case Renew(_, lease) => r.(leaseExpiresAt := lease)
    case Release(_, err) =>
      r.(status := Queued, attemptId := NONE, ownerId := NONE, leaseExpiresAt := 0,
         lastError := if err == "" then r.lastError else err)
    case Park(_, until) =>
      r.(status := Waiting, attemptId := NONE, ownerId := NONE, leaseExpiresAt := 0,
         pendingResume := true, waitUntil := until)
    case Resume => r.(status := Queued, waitUntil := 0)
    case Cancel(reason) =>
      if r.status == Running then r.(cancelRequested := true)
      else r.(status := Settled, lastError := reason, pendingResume := false, waitUntil := 0)
    case Reserve(_) => r.(status := Terminalizing)
    case Finalize => r.(status := Settled)
  }

  /** The table after the update. */
  function Updated(rows: seq<Submission>, id: SubmissionId, op: RowOp): seq<Submission> {
    seq(|rows|, i requires 0 <= i < |rows| => if Where(rows[i], id, op) then Assign(rows[i], op) else rows[i])
  }

  /** How many rows the update affected. */
  function Affected(rows: seq<Submission>, id: SubmissionId, op: RowOp): nat {
    |Filter((r: Submission) => Where(r, id, op), rows)|
  }

  predicate Exists(rows: seq<Submission>, id: SubmissionId) {
    exists i :: 0 <= i < |rows| && rows[i].id == id
  }

  /** What the caller is told. ReadFailed is an error that is none of the store's. */
  datatype SqlAnswer = Done | Lost | Missing | ReadFailed

  /** casApplied on the affected rows. */
  function CasApplied(rows: seq<Submission>, id: SubmissionId, op: RowOp): SqlAnswer {
    if Affected(rows, id, op) == 1 then Done
    else if Exists(rows, id) then Lost
    else Missing
  }

  /** A claim reads pending_resume of the row before its update, and a cancel the
      status; the other calls go by casApplied alone. */
  function Told(rows: seq<Submission>, id: SubmissionId, op: RowOp): SqlAnswer {
    match op
    case Claim(_, _, _) => if Exists(rows, id) then CasApplied(rows, id, op) else ReadFailed
    case Cancel(_) =>
      if !Exists(rows, id) then Missing
      else if exists i :: 0 <= i < |rows| && Where(rows[i], id, op) then Done
      else Lost
    case _ => CasApplied(rows, id, op)
  }

  /** What the in-memory store tells. */
  function MemoryTold(st: Store, id: SubmissionId, op: RowOp): SqlAnswer {
    if Applies(st, id, op) then Done else if Failure(st, id) == ClaimLost then Lost else Missing
  }

  lemma {:induction false} AtMostOneMatches(rows: seq<Submission>, id: SubmissionId, op: RowOp)
    requires forall i, j :: 0 <= i < j < |rows| ==> rows[i].id != rows[j].id
    ensures Affected(rows, id, op) == if exists i :: 0 <= i < |rows| && Where(rows[i], id, op) then 1 else 0
  {
    if rows != [] {
      var n := |rows| - 1;
      AtMostOneMatches(rows[..n], id, op);
      if Where(rows[n], id, op) {
        forall i | 0 <= i < n
          ensures !Where(rows[..n][i], id, op)
        {
        }
      } else if i :| 0 <= i < |rows| && Where(rows[i], id, op) {
        assert rows[..n][i] == rows[i];
      }
    }
  }

  /** On one row the statement and the compare-and-set agree. */
  lemma StatementIsTransition(r: Submission, id: SubmissionId, op: RowOp)
    ensures Where(r, id, op) <==> r.id == id && Transition(r, op).Some?
    ensures Where(r, id, op) ==> Transition(r, op) == Some(Assign(r, op))
  {
  }

  /** The update leaves the table the compare-and-set leaves. */
  lemma UpdateIsCompareAndSet(st: Store, id: SubmissionId, op: RowOp)
    requires WellFormed(st)
    ensures Updated(Rows(st), id, op) == Rows(Apply(st, id, op))
  {
    var rows, rows' := Rows(st), Rows(Apply(st, id, op));
    forall i | 0 <= i < |rows|
      ensures Updated(rows, id, op)[i] == rows'[i]
    {
      StatementIsTransition(rows[i], id, op);
      assert rows[i] == st.rows[st.order[i]];
    }
  }

  /** It affects at most one row. The two stores give the same answer to every call
      but one: to the claim of a missing submission the SQL store answers with the
      error of its first read, where the in-memory store says it is missing. */
  lemma StoresAnswerAlikeIff(st: Store, id: SubmissionId, op: RowOp)
    requires WellFormed(st)
    ensures Affected(Rows(st), id, op) == if Applies(st, id, op) then 1 else 0
    ensures Told(Rows(st), id, op) == MemoryTold(st, id, op) <==> !(op.Claim? && id !in st.rows)
  {
    var rows := Rows(st);
    AtMostOneMatches(rows, id, op);
    forall i | 0 <= i < |rows|
      ensures Where(rows[i], id, op) <==> st.order[i] == id && Applies(st, id, op)
    {
      StatementIsTransition(rows[i], id, op);
      assert rows[i] == st.rows[st.order[i]];
    }
    if id in st.rows {
      var i :| 0 <= i < |st.order| && st.order[i] == id;
      assert rows[i].id == id;
    }
  }
}
