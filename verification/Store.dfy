/** The durable store: a value for the specifications, and the in-memory class. */
module StoreModel {
  import opened Records
  import opened Submissions

  datatype Store = Store(
    rows: map<SubmissionId, Submission>,
    order: seq<SubmissionId>,
    logs: map<ConversationId, Log>,
    convs: map<nat, ConversationId>)

  datatype StoreError = NotFound | ClaimLost | DispatchConflict

  datatype Answer<+T> = Ok(value: T) | Err(error: StoreError)

  predicate WellFormed(st: Store) {
    && (forall i, j :: 0 <= i < j < |st.order| ==> st.order[i] != st.order[j])
    && (forall i :: 0 <= i < |st.order| ==> st.order[i] in st.rows)
    && (forall id :: id in st.rows ==> id in st.order)
    && (forall id :: id in st.rows ==> st.rows[id].id == id)
  }

  function LogOf(st: Store, conv: ConversationId): Log {
    if conv in st.logs then st.logs[conv] else []
  }

  function AppendTo(st: Store, conv: ConversationId, recs: Log): Store {
    st.(logs := st.logs[conv := LogOf(st, conv) + recs])
  }

  /** One compare-and-set on one row. */
  function Apply(st: Store, id: SubmissionId, op: RowOp): Store {
    if id in st.rows && Transition(st.rows[id], op).Some?
    then st.(rows := st.rows[id := Transition(st.rows[id], op).value])
    else st
  }

  predicate Applies(st: Store, id: SubmissionId, op: RowOp) {
    id in st.rows && Transition(st.rows[id], op).Some?
  }

  function Failure(st: Store, id: SubmissionId): StoreError {
    if id in st.rows then ClaimLost else NotFound
  }

  /** The row a claim hands to its caller: it still carries PendingResume. */
  function ClaimedRow(st: Store, id: SubmissionId, op: RowOp): Submission
    requires Applies(st, id, op)
  {
    Transition(st.rows[id], op).value.(pendingResume := st.rows[id].pendingResume)
  }

  function AdmitRow(st: Store, sub: Submission): Store {
    if sub.id in st.rows then st
    else st.(rows := st.rows[sub.id := sub], order := st.order + [sub.id])
  }

  /** All rows, in admission order. */
  function Rows(st: Store): (r: seq<Submission>)
    requires WellFormed(st)
  {
    seq(|st.order|, i requires 0 <= i < |st.order| => st.rows[st.order[i]])
  }

  function Children(st: Store, parent: SubmissionId): seq<Submission>
    requires WellFormed(st)
  {
    Filter((r: Submission) => r.parent == parent, Rows(st))
  }

  function ByStatus(st: Store, status: Status): seq<Submission>
    requires WellFormed(st)
  {
    Filter((r: Submission) => r.status == status, Rows(st))
  }

  predicate LeaseExpired(r: Submission, now: int) { r.status == Running && r.leaseExpiresAt <= now }

  predicate WaitExpired(r: Submission, now: int) {
    r.status == Waiting && r.waitUntil != ZERO_TIME && r.waitUntil <= now
  }

  /** The selection of sqlite's ListRunnable: the row is queued and its sequence
      number is the least one of an unsettled row of its session. */
  predicate SqlRunnable(rows: seq<Submission>, i: nat)
    requires i < |rows|
  {
    && rows[i].status == Queued
    && (forall j :: 0 <= j < |rows| && rows[j].session == rows[i].session && rows[j].status != Settled ==> i <= j)
  }

  /** The rows among the first n that the query selects, in order. */
  function SelectRunnable(rows: seq<Submission>, n: nat): (out: seq<Submission>)
    requires n <= |rows|
    ensures forall r :: r in out <==> exists i :: 0 <= i < n && rows[i] == r && SqlRunnable(rows, i)
  {
    if n == 0 then []
    else
      var init := SelectRunnable(rows, n - 1);
      if SqlRunnable(rows, n - 1) then init + [rows[n - 1]] else init
  }

  /** The selected rows stand in admission order, each once, and none is left out:
      those that are queued while every earlier row of their session is settled. */
  lemma {:induction false} ScanIsInOrder(rows: seq<Submission>, n: nat) returns (at: seq<nat>)
    requires n <= |rows|
    ensures ListedAt(rows[..n], at, SelectRunnable(rows, n))
    ensures forall i :: i in at <==> 0 <= i < n && NextInLine(rows, i)
  {
    if n == 0 {
      at := [];
    } else {
      at := ScanIsInOrder(rows, n - 1);
      assert rows[..n] == rows[..n - 1] + [rows[n - 1]];
      ListedSnoc(rows[..n - 1], at, SelectRunnable(rows, n - 1), rows[n - 1]);
      RisingSnoc(at, n - 1);
      NextInLineIsRunnable(rows, n - 1);
      if SqlRunnable(rows, n - 1) { at := at + [n - 1]; }
    }
  }

  predicate NextInLine(rows: seq<Submission>, i: nat)
    requires i < |rows|
  {
    rows[i].status == Queued
    && forall j :: 0 <= j < i && rows[j].session == rows[i].session ==> rows[j].status == Settled
  }

  lemma NextInLineIsRunnable(rows: seq<Submission>, i: nat)
    requires i < |rows|
    ensures SqlRunnable(rows, i) <==> NextInLine(rows, i)
  {
  }

  /** Some row among the first n is an unsettled one of the session. */
  predicate Headed(rows: seq<Submission>, n: nat, session: nat)
    requires n <= |rows|
  {
    exists j :: 0 <= j < n && rows[j].session == session && rows[j].status != Settled
  }

  /** One row further. */
  lemma HeadedUpTo(rows: seq<Submission>, n: nat)
    requires n < |rows|
    ensures forall k: nat :: Headed(rows, n + 1, k) <==>
              Headed(rows, n, k) || (rows[n].session == k && rows[n].status != Settled)
    ensures SqlRunnable(rows, n) <==> rows[n].status == Queued && !Headed(rows, n, rows[n].session)
  {
    forall k: nat
      ensures Headed(rows, n + 1, k) <==> Headed(rows, n, k) || (rows[n].session == k && rows[n].status != Settled)
    {
    }
  }

  lemma ApplyWellFormed(st: Store, id: SubmissionId, op: RowOp)
    requires WellFormed(st)
    ensures WellFormed(Apply(st, id, op))
  {
  }

  lemma AdmitWellFormed(st: Store, sub: Submission)
    requires WellFormed(st)
    ensures WellFormed(AdmitRow(st, sub))
  {
  }

  lemma RowsMembers(st: Store)
    requires WellFormed(st)
    ensures forall r :: r in Rows(st) <==> r.id in st.rows && st.rows[r.id] == r
  {
    forall r
      ensures r in Rows(st) <==> r.id in st.rows && st.rows[r.id] == r
    {
      if r in Rows(st) {
        var i :| 0 <= i < |st.order| && Rows(st)[i] == r;
        assert st.order[i] in st.rows;
      }
      if r.id in st.rows && st.rows[r.id] == r {
        var i :| 0 <= i < |st.order| && st.order[i] == r.id;
        assert Rows(st)[i] == r;
      }
    }
  }

  /** A wait lapses at its deadline; one without a deadline never does. */
  lemma LapsedWaitsAreListed(st: Store, now: int, id: SubmissionId)
    requires WellFormed(st) && id in st.rows
    ensures st.rows[id] in Filter((r: Submission) => WaitExpired(r, now), Rows(st))
       <==> st.rows[id].status == Waiting && st.rows[id].waitUntil != ZERO_TIME && st.rows[id].waitUntil <= now
  {
    FilterMembers((r: Submission) => WaitExpired(r, now), Rows(st));
    RowsMembers(st);
  }

  lemma ChildrenMembers(st: Store, parent: SubmissionId)
    requires WellFormed(st)
    ensures forall r :: r in Children(st, parent) <==> r.id in st.rows && st.rows[r.id] == r && r.parent == parent
  {
    FilterMembers((r: Submission) => r.parent == parent, Rows(st));
    RowsMembers(st);
  }
}

module MemoryStore {
  import opened Records
  import opened Submissions
  import opened StoreModel
  import opened Offsets

  class MemoryStore {
    var convByKey: map<nat, ConversationId>
    var records: map<ConversationId, Log>
    var subs: map<SubmissionId, Submission>
    var subOrder: seq<SubmissionId>

    ghost function View(): Store
      reads this
    {
      Store(subs, subOrder, records, convByKey)
    }

    ghost predicate Valid()
      reads this
    {
      WellFormed(View())
    }

    constructor ()
      ensures Valid()
      ensures View() == Store(map[], [], map[], map[])
    {
      convByKey, records, subs, subOrder := map[], map[], map[], [];
    }

    method EnsureConversation(key: nat, candidate: ConversationId)
      returns (conv: ConversationId, created: bool)
      requires Valid()
      modifies this`convByKey
      ensures Valid()
      ensures created <==> key !in old(convByKey)
      ensures conv == if created then candidate else old(convByKey)[key]
      ensures convByKey == old(convByKey)[key := conv]
    {
      if key in convByKey {
        return convByKey[key], false;
      }
      convByKey := convByKey[key := candidate];
      return candidate, true;
    }

    method AppendRecords(conv: ConversationId, recs: Log)
      requires Valid()
      modifies this`records
      ensures Valid()
      ensures View() == AppendTo(old(View()), conv, recs)
    {
      records := records[conv := (if conv in records then records[conv] else []) + recs];
    }

    /** The records after an offset; the start is found by bisection. */
    method ReadRecords(conv: ConversationId, afterId: RecordId) returns (out: Log)
      ensures out == ReadAfter(LogOf(View(), conv), afterId)
    {
      var log := if conv in records then records[conv] else [];
      var start := 0;
      if afterId != NONE {
        var end := |log|;
        while start < end
          invariant start <= end <= |log|
          invariant Search(log, afterId, start, end) == Search(log, afterId, 0, |log|)
        {
          var h := (start + end) / 2;
          if !(log[h].id > afterId) {
            start := h + 1;
          } else {
            end := h;
          }
        }
      }
      return log[start..];
    }

    method AdmitSubmission(sub: Submission) returns (r: Answer<Submission>)
      requires Valid()
      modifies this`subs, this`subOrder
      ensures Valid()
      ensures View() == AdmitRow(old(View()), sub)
      ensures r == if sub.id !in old(subs) then Ok(sub)
                   else if old(subs)[sub.id].input == sub.input then Ok(old(subs)[sub.id])
                   else Err(DispatchConflict)
    {
      if sub.id in subs {
        var existing := subs[sub.id];
        if existing.input != sub.input {
          return Err(DispatchConflict);
        }
        return Ok(existing);
      }
      subs := subs[sub.id := sub];
      subOrder := subOrder + [sub.id];
      return Ok(sub);
    }

    method GetSubmission(id: SubmissionId) returns (r: Answer<Submission>)
      ensures r == if id in subs then Ok(subs[id]) else Err(NotFound)
    {
      if id !in subs {
        return Err(NotFound);
      }
      return Ok(subs[id]);
    }

    /** The head-of-line scan: one pass with a set of sessions already headed. */
    method ListRunnable() returns (out: seq<Submission>)
      requires Valid()
      ensures out == SelectRunnable(Rows(View()), |subOrder|)
    {
      var seen: set<nat> := {};
      out := [];
      ghost var rows := Rows(View());
      for n := 0 to |subOrder|
        invariant forall k: nat :: k in seen <==> Headed(rows, n, k)
        invariant out == SelectRunnable(rows, n)
      {
        var sub := subs[subOrder[n]];
        assert rows[n] == sub;
        HeadedUpTo(rows, n);
        if sub.session in seen {
        } else if sub.status == Settled {
        } else {
          seen := seen + {sub.session};
          if sub.status == Queued {
            out := out + [sub];
          }
        }
      }
    }

    method ListByStatus(status: Status) returns (out: seq<Submission>)
      requires Valid()
      ensures out == ByStatus(View(), status)
    {
      out := [];
      ghost var rows := Rows(View());
      ghost var p := (r: Submission) => r.status == status;
      for n := 0 to |subOrder|
        invariant out == Filter(p, rows[..n])
      {
        FilterNext(p, rows, n);
        if subs[subOrder[n]].status == status {
          out := out + [subs[subOrder[n]]];
        }
      }
      assert rows[..|subOrder|] == rows;
    }

    method ListChildSubmissions(parent: SubmissionId) returns (out: seq<Submission>)
      requires Valid()
      ensures out == Children(View(), parent)
    {
      out := [];
      ghost var rows := Rows(View());
      ghost var p := (r: Submission) => r.parent == parent;
      for n := 0 to |subOrder|
        invariant out == Filter(p, rows[..n])
      {
        FilterNext(p, rows, n);
        if subs[subOrder[n]].parent == parent {
          out := out + [subs[subOrder[n]]];
        }
      }
      assert rows[..|subOrder|] == rows;
    }

    method ListExpiredLeases(now: int) returns (out: seq<Submission>)
      requires Valid()
      ensures out == Filter((r: Submission) => LeaseExpired(r, now), Rows(View()))
    {
      out := [];
      ghost var rows := Rows(View());
      ghost var p := (r: Submission) => LeaseExpired(r, now);
      for n := 0 to |subOrder|
        invariant out == Filter(p, rows[..n])
      {
        FilterNext(p, rows, n);
        var sub := subs[subOrder[n]];
        if sub.status == Running && !(sub.leaseExpiresAt > now) {
          out := out + [sub];
        }
      }
      assert rows[..|subOrder|] == rows;
    }

    method ListExpiredWaits(now: int) returns (out: seq<Submission>)
      requires Valid()
      ensures out == Filter((r: Submission) => WaitExpired(r, now), Rows(View()))
    {
      out := [];
      ghost var rows := Rows(View());
      ghost var p := (r: Submission) => WaitExpired(r, now);
      for n := 0 to |subOrder|
        invariant out == Filter(p, rows[..n])
      {
        FilterNext(p, rows, n);
        var sub := subs[subOrder[n]];
        if sub.status == Waiting && sub.waitUntil != ZERO_TIME && !(sub.waitUntil > now) {
          out := out + [sub];
        }
      }
      assert rows[..|subOrder|] == rows;
    }

    method ClaimSubmission(id: SubmissionId, attempt: AttemptId, owner: nat, lease: int)
      returns (r: Answer<Submission>)
      requires Valid()
      modifies this`subs
      ensures Valid()
      ensures View() == Apply(old(View()), id, Claim(attempt, owner, lease))
      ensures r == if old(Applies(View(), id, Claim(attempt, owner, lease)))
                   then Ok(old(ClaimedRow(View(), id, Claim(attempt, owner, lease))))
                   else Err(old(Failure(View(), id)))
    {
      if id !in subs {
        return Err(NotFound);
      }
      var sub := subs[id];
      if sub.status != Queued {
        return Err(ClaimLost);
      }
      sub := sub.(status := Running, attemptId := attempt, ownerId := owner, leaseExpiresAt := lease);
      if !sub.pendingResume {
        sub := sub.(attemptCount := sub.attemptCount + 1);
      }
      var pendingResume := sub.pendingResume;
      sub := sub.(pendingResume := false);
      subs := subs[id := sub];
      return Ok(sub.(pendingResume := pendingResume));
    }

    method RenewLease(id: SubmissionId, attempt: AttemptId, lease: int) returns (r: Answer<()>)
      requires Valid()
      modifies this`subs
      ensures Valid()
      ensures View() == Apply(old(View()), id, Renew(attempt, lease))
      ensures r == if old(Applies(View(), id, Renew(attempt, lease))) then Ok(()) else Err(old(Failure(View(), id)))
    {
      if id !in subs {
        return Err(NotFound);
      }
      var sub := subs[id];
      if sub.status != Running || sub.attemptId != attempt {
        return Err(ClaimLost);
      }
      subs := subs[id := sub.(leaseExpiresAt := lease)];
      return Ok(());
    }

    method ReleaseSubmission(id: SubmissionId, attempt: AttemptId, lastError: Text) returns (r: Answer<()>)
      requires Valid()
      modifies this`subs
      ensures Valid()
      ensures View() == Apply(old(View()), id, Release(attempt, lastError))
      ensures r == if old(Applies(View(), id, Release(attempt, lastError))) then Ok(())
                   else Err(old(Failure(View(), id)))
    {
      if id !in subs {
        return Err(NotFound);
      }
      var sub := subs[id];
      if sub.status != Running || sub.attemptId != attempt {
        return Err(ClaimLost);
      }
      sub := sub.(status := Queued, ownerId := NONE, attemptId := NONE, leaseExpiresAt := ZERO_TIME);
      if lastError != "" {
        sub := sub.(lastError := lastError);
      }
      subs := subs[id := sub];
      return Ok(());
    }

    method WaitSubmission(id: SubmissionId, attempt: AttemptId, until: int) returns (r: Answer<()>)
      requires Valid()
      modifies this`subs
      ensures Valid()
      ensures View() == Apply(old(View()), id, Park(attempt, until))
      ensures r == if old(Applies(View(), id, Park(attempt, until))) then Ok(()) else Err(old(Failure(View(), id)))
    {
      if id !in subs {
        return Err(NotFound);
      }
      var sub := subs[id];
      if sub.status != Running || sub.attemptId != attempt {
        return Err(ClaimLost);
      }
      sub := sub.(status := Waiting, ownerId := NONE, attemptId := NONE, leaseExpiresAt := ZERO_TIME);
      sub := sub.(pendingResume := true, waitUntil := until);
      subs := subs[id := sub];
      return Ok(());
    }

    method ResumeSubmission(id: SubmissionId) returns (r: Answer<()>)
      requires Valid()
      modifies this`subs
      ensures Valid()
      ensures View() == Apply(old(View()), id, Resume)
      ensures r == if old(Applies(View(), id, Resume)) then Ok(()) else Err(old(Failure(View(), id)))
    {
      if id !in subs {
        return Err(NotFound);
      }
      var sub := subs[id];
      if sub.status != Waiting {
        return Err(ClaimLost);
      }
      subs := subs[id := sub.(status := Queued, waitUntil := ZERO_TIME)];
      return Ok(());
    }

    /** The value is wasRunning. */
    method CancelSubmission(id: SubmissionId, reason: Text) returns (r: Answer<bool>)
      requires Valid()
      modifies this`subs
      ensures Valid()
      ensures View() == Apply(old(View()), id, Cancel(reason))
      ensures r == if old(Applies(View(), id, Cancel(reason))) then Ok(old(subs)[id].status == Running)
                   else Err(old(Failure(View(), id)))
    {
      if id !in subs {
        return Err(NotFound);
      }
      var sub := subs[id];
      match sub.status {
        case Queued =>
          sub := sub.(status := Settled, lastError := reason, pendingResume := false, waitUntil := ZERO_TIME);
          subs := subs[id := sub];
          return Ok(false);
        case Waiting =>
          sub := sub.(status := Settled, lastError := reason, pendingResume := false, waitUntil := ZERO_TIME);
          subs := subs[id := sub];
          return Ok(false);
        case Running =>
          subs := subs[id := sub.(cancelRequested := true)];
          return Ok(true);
        case _ =>
          return Err(ClaimLost);
      }
    }

    method ReserveSettlement(id: SubmissionId, attempt: AttemptId) returns (r: Answer<()>)
      requires Valid()
      modifies this`subs
      ensures Valid()
      ensures View() == Apply(old(View()), id, Reserve(attempt))
      ensures r == if old(Applies(View(), id, Reserve(attempt))) then Ok(()) else Err(old(Failure(View(), id)))
    {
      if id !in subs {
        return Err(NotFound);
      }
      var sub := subs[id];
      if sub.status != Running || sub.attemptId != attempt {
        return Err(ClaimLost);
      }
      subs := subs[id := sub.(status := Terminalizing)];
      return Ok(());
    }

    method FinalizeSettlement(id: SubmissionId) returns (r: Answer<()>)
      requires Valid()
      modifies this`subs
      ensures Valid()
      ensures View() == Apply(old(View()), id, Finalize)
      ensures r == if old(Applies(View(), id, Finalize)) then Ok(()) else Err(old(Failure(View(), id)))
    {
      if id !in subs {
        return Err(NotFound);
      }
      var sub := subs[id];
      match sub.status {
        case Settled =>
          return Ok(());
        case Terminalizing =>
          subs := subs[id := sub.(status := Settled)];
          return Ok(());
        case _ =>
          return Err(ClaimLost);
      }
    }
  }
}
