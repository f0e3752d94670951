/** What settlement and recovery achieve as whole functions. */
module RecoveryTheorems {
  import opened Records
  import opened Submissions
  import opened StoreModel
  import opened Handoff
  import opened CoordinatorSpec
  import opened Tidiness
  import opened WaitTheorems
  import C = Calls

  // ---- one settlement ----

  /** No row was reserved, and every settled row still is. */
  ghost predicate Calm(st: Store, st': Store) {
    && (forall id :: id in st'.rows && st'.rows[id].status == Terminalizing ==>
          id in st.rows && st.rows[id].status == Terminalizing)
    && (forall id :: id in st.rows && st.rows[id].Terminal() ==> id in st'.rows && st'.rows[id].Terminal())
    && (forall id :: id in st.rows && st.rows[id].status == Settled ==>
          id in st'.rows && st'.rows[id].status == Settled)
  }

  lemma ResumeIsCalm(st: Store, st': Store, id: SubmissionId)
    requires st'.rows == st.rows || st'.rows == Apply(st, id, Resume).rows
    ensures Calm(st, st')
  {
  }

  lemma OutcomeRows(sys: Sys, child: Submission, payload: SettledPayload)
    requires child.parent in sys.st.rows
    ensures RepairSpawn(sys.st, child).rows == sys.st.rows && AppendOutcome(sys, child, payload).st.rows == sys.st.rows
  {
  }

  lemma WakeRows(sys: Sys, child: Submission, payload: SettledPayload)
    ensures var rows' := WakeParent(sys, child, payload).st.rows;
            rows' == sys.st.rows || rows' == Apply(sys.st, child.parent, Resume).rows
  {
    if child.parent in sys.st.rows {
      var sys1 := sys.(st := RepairSpawn(sys.st, child));
      OutcomeRows(sys, child, payload);
      OutcomeRows(sys1, child, payload);
      SameRowsApply(AppendOutcome(sys1, child, payload).st, sys.st, child.parent, Resume);
    }
  }

  lemma SameRowsApply(st: Store, st': Store, id: SubmissionId, op: RowOp)
    requires st.rows == st'.rows
    ensures Apply(st, id, op).rows == Apply(st', id, op).rows
  {
  }

  lemma WakeIsCalm(sys: Sys, child: Submission, payload: SettledPayload)
    ensures Calm(sys.st, WakeParent(sys, child, payload).st)
  {
    WakeRows(sys, child, payload);
    ResumeIsCalm(sys.st, WakeParent(sys, child, payload).st, child.parent);
  }

  lemma RecordOnceIsCalm(sys: Sys, sub: Submission, payload: SettledPayload)
    ensures Calm(sys.st, SettledRecordOnce(sys, sub, payload).st)
  {
    var sys1 := RecordOnly(sys, sub, payload);
    assert sys1.st.rows == sys.st.rows;
    WakeIsCalm(sys1, sub, EffectivePayload(sys.st, sub, payload));
  }

  lemma FinalizeIsCalm(st: Store, id: SubmissionId)
    requires id in st.rows && st.rows[id].Terminal()
    ensures Applies(st, id, Finalize) && Calm(st, Apply(st, id, Finalize))
    ensures Apply(st, id, Finalize).rows[id].status == Settled
  {
  }

  lemma CalmTransitive(a: Store, b: Store, c: Store)
    requires Calm(a, b) && Calm(b, c)
    ensures Calm(a, c)
  {
  }

  lemma CompleteRows(sys: Sys, sub: Submission, payload: SettledPayload)
    requires sub.id in sys.st.rows && sys.st.rows[sub.id].Terminal() && !Orphan(sys.st, sub)
    ensures var st' := Complete(sys, sub, payload).st;
            Calm(sys.st, st') && sub.id in st'.rows && st'.rows[sub.id].status == Settled
  {
    var sys1, effective := SettledRecordOnce(sys, sub, payload), EffectivePayload(sys.st, sub, payload);
    RecordOnceIsCalm(sys, sub, payload);
    FinalizeAndWakeRows(sys1, sub, effective);
    CalmTransitive(sys.st, sys1.st, FinalizeAndWake(sys1, sub, effective).st);
  }

  lemma FinalizeAndWakeRows(sys: Sys, sub: Submission, effective: SettledPayload)
    requires sub.id in sys.st.rows && sys.st.rows[sub.id].Terminal()
    ensures var st' := FinalizeAndWake(sys, sub, effective).st;
            Calm(sys.st, st') && sub.id in st'.rows && st'.rows[sub.id].status == Settled
  {
    FinalizeIsCalm(sys.st, sub.id);
    var sys' := sys.(st := Apply(sys.st, sub.id, Finalize));
    if sub.parent != NONE {
      WakeIsCalm(sys', sub, effective);
      CalmTransitive(sys.st, sys'.st, WakeParent(sys', sub, effective).st);
    }
  }

  /** A settlement leaves the payload it goes by on record. */
  lemma RecordOnceRecords(sys: Sys, sub: Submission, payload: SettledPayload)
    ensures Recorded(LogOf(SettledRecordOnce(sys, sub, payload).st, sub.conv), sub.id)
         == Some(EffectivePayload(sys.st, sub, payload))
  {
    var sys1, effective := RecordOnly(sys, sub, payload), EffectivePayload(sys.st, sub, payload);
    RecordOnlyRecords(sys, sub, payload);
    WakeEvolves(sys1, sub, effective);
    RecordLasts(sys1.st, SettledRecordOnce(sys, sub, payload).st, sub);
  }

  lemma RecordOnlyRecords(sys: Sys, sub: Submission, payload: SettledPayload)
    ensures Recorded(LogOf(RecordOnly(sys, sub, payload).st, sub.conv), sub.id)
         == Some(EffectivePayload(sys.st, sub, payload))
  {
    var log := LogOf(sys.st, sub.conv);
    var rec := Record(sys.ulid, sub.id, SubmissionSettled(payload));
    RecordedAppend(log, [rec], sub.id);
    assert Recorded(log, sub.id).None? ==> LogOf(RecordOnly(sys, sub, payload).st, sub.conv) == log + [rec];
  }

  /** What is on record stays on record. */
  lemma RecordLasts(st: Store, st': Store, sub: Submission)
    requires C.StoreEvolves(st, st')
    ensures Recorded(LogOf(st, sub.conv), sub.id).Some? ==>
              Recorded(LogOf(st', sub.conv), sub.id) == Recorded(LogOf(st, sub.conv), sub.id)
  {
    var log, log' := LogOf(st, sub.conv), LogOf(st', sub.conv);
    assert log <= log';
    RecordedAppend(log, log'[|log|..], sub.id);
    assert log' == log + log'[|log|..];
  }

  lemma CompleteRecords(sys: Sys, sub: Submission, payload: SettledPayload)
    ensures Recorded(LogOf(Complete(sys, sub, payload).st, sub.conv), sub.id)
         == Some(EffectivePayload(sys.st, sub, payload))
  {
    var sys1, effective := SettledRecordOnce(sys, sub, payload), EffectivePayload(sys.st, sub, payload);
    RecordOnceRecords(sys, sub, payload);
    FinalizeAndWakeEvolves(sys1, sub, effective);
    RecordLasts(sys1.st, FinalizeAndWake(sys1, sub, effective).st, sub);
  }

  /** After the record of a reserved row its finalization applies. */
  lemma FinalizeFollows(sys: Sys, sub: Submission, payload: SettledPayload)
    requires sub.id in sys.st.rows && sys.st.rows[sub.id].Terminal()
    ensures Applies(SettledRecordOnce(sys, sub, payload).st, sub.id, Finalize)
  {
    RecordOnceEvolves(sys, sub, payload);
    TerminalFinalizes(sys.st, SettledRecordOnce(sys, sub, payload).st, sub.id);
  }

  lemma TerminalFinalizes(st: Store, st': Store, id: SubmissionId)
    requires C.StoreEvolves(st, st') && id in st.rows && st.rows[id].Terminal()
    ensures Applies(st', id, Finalize)
  {
    assert Evolves(st.rows[id], st'.rows[id]);
  }

  /** The record of a settlement leaves a reserved row reserved. */
  lemma RecordKeepsReserved(sys: Sys, sub: Submission, payload: SettledPayload)
    requires sub.id in sys.st.rows && sys.st.rows[sub.id].status == Terminalizing
    ensures sub.id in SettledRecordOnce(sys, sub, payload).st.rows
    ensures SettledRecordOnce(sys, sub, payload).st.rows[sub.id].status == Terminalizing
  {
    RecordLeavesOthers(sys, sub, payload, sub.id);
  }

  /** Settling a row that its attempt owns records the payload, unless a record is
      there, and settles the row, unless its parent is missing; a lost reservation
      changes nothing. */
  lemma TwoPhaseSettles(sys: Sys, sub: Submission, payload: SettledPayload)
    ensures
      var sys', was := TwoPhase(sys, sub, payload), Recorded(LogOf(sys.st, sub.conv), sub.id);
      if sub.id in sys.st.rows && sys.st.rows[sub.id].Owned(sub.attemptId) then
        && Recorded(LogOf(sys'.st, sub.conv), sub.id) == (if was.Some? then was else Some(payload))
        && sub.id in sys'.st.rows
        && sys'.st.rows[sub.id].status
           == (if sub.parent == NONE || sub.parent in sys.st.rows then Settled else Terminalizing)
      else sys' == sys
  {
    if sub.id in sys.st.rows && sys.st.rows[sub.id].Owned(sub.attemptId) {
      var sys1 := sys.(st := Apply(sys.st, sub.id, Reserve(sub.attemptId)));
      assert LogOf(sys1.st, sub.conv) == LogOf(sys.st, sub.conv);
      CompleteRecords(sys1, sub, payload);
      if Orphan(sys1.st, sub) {
        RecordKeepsReserved(sys1, sub, payload);
      } else {
        CompleteRows(sys1, sub, payload);
      }
    }
  }

  // ---- startup reconciliation ----

  ghost predicate AllTerminal(st: Store, subs: seq<Submission>) {
    forall i {:trigger subs[i]} :: 0 <= i < |subs| ==>
      subs[i].id in st.rows && st.rows[subs[i].id].Terminal() && !Orphan(st, subs[i])
  }

  lemma AllStayTerminal(st: Store, st': Store, subs: seq<Submission>)
    requires AllTerminal(st, subs) && C.StoreEvolves(st, st') && subs != []
    ensures AllTerminal(st', subs[1..])
  {
    forall i {:trigger subs[1..][i]} | 0 <= i < |subs[1..]|
      ensures subs[1..][i].id in st'.rows && st'.rows[subs[1..][i].id].Terminal() && !Orphan(st', subs[1..][i])
    {
      assert subs[1..][i] == subs[i + 1];
      assert Evolves(st.rows[subs[i + 1].id], st'.rows[subs[i + 1].id]);
    }
  }

  /** The list names every row still terminalizing. */
  ghost predicate NamesAll(st: Store, subs: seq<Submission>) {
    forall id :: id in st.rows && st.rows[id].status == Terminalizing ==>
      exists i :: 0 <= i < |subs| && subs[i].id == id
  }

  lemma NamesTheRest(st: Store, st': Store, subs: seq<Submission>)
    requires NamesAll(st, subs) && Calm(st, st') && subs != []
    requires subs[0].id in st'.rows && st'.rows[subs[0].id].status == Settled
    ensures NamesAll(st', subs[1..])
  {
    forall id | id in st'.rows && st'.rows[id].status == Terminalizing
      ensures exists i :: 0 <= i < |subs[1..]| && subs[1..][i].id == id
    {
      var i :| 0 <= i < |subs| && subs[i].id == id;
      assert i > 0 && subs[1..][i - 1] == subs[i];
    }
  }

  /** After the pass no row is terminalizing. */
  lemma {:induction false} CompleteEachSettles(sys: Sys, subs: seq<Submission>)
    requires AllTerminal(sys.st, subs) && NamesAll(sys.st, subs)
    ensures forall id :: id in CompleteEach(sys, subs).st.rows ==>
              CompleteEach(sys, subs).st.rows[id].status != Terminalizing
    decreases |subs|
  {
    if subs == [] {
      assert CompleteEach(sys, subs) == sys;
      assert forall id :: id in sys.st.rows ==> sys.st.rows[id].status != Terminalizing;
    } else {
      var sys1 := Complete(sys, subs[0], INDETERMINATE);
      CompleteRows(sys, subs[0], INDETERMINATE);
      CompleteEvolves(sys, subs[0], INDETERMINATE);
      AllStayTerminal(sys.st, sys1.st, subs);
      NamesTheRest(sys.st, sys1.st, subs);
      CompleteEachSettles(sys1, subs[1..]);
      assert CompleteEach(sys, subs) == CompleteEach(sys1, subs[1..]);
    }
  }

  lemma {:induction false} CompleteEachEvolves(sys: Sys, subs: seq<Submission>)
    ensures C.StoreEvolves(sys.st, CompleteEach(sys, subs).st)
    decreases |subs|
  {
    if subs != [] {
      var sys1 := Complete(sys, subs[0], INDETERMINATE);
      CompleteEvolves(sys, subs[0], INDETERMINATE);
      CompleteEachEvolves(sys1, subs[1..]);
      C.StoreEvolvesTransitive(sys.st, sys1.st, CompleteEach(sys1, subs[1..]).st);
    }
  }

  /** Completing one submission puts no record of another on file. */
  lemma CompleteKeepsRecord(sys: Sys, sub: Submission, payload: SettledPayload, other: Submission)
    requires other.id != sub.id
    ensures Recorded(LogOf(Complete(sys, sub, payload).st, other.conv), other.id)
         == Recorded(LogOf(sys.st, other.conv), other.id)
  {
    var effective := EffectivePayload(sys.st, sub, payload);
    var sys1, sys2 := RecordOnly(sys, sub, payload), SettledRecordOnce(sys, sub, payload);
    RecordedAppend(LogOf(sys.st, other.conv), [Record(sys.ulid, sub.id, SubmissionSettled(payload))], other.id);
    assert Recorded(LogOf(sys1.st, other.conv), other.id) == Recorded(LogOf(sys.st, other.conv), other.id);
    WakeKeepsRecord(sys1, sub, effective, other);
    FinalizeKeepsRecord(sys2, sub, effective, other);
  }

  lemma FinalizeKeepsRecord(sys: Sys, sub: Submission, effective: SettledPayload, other: Submission)
    ensures Recorded(LogOf(FinalizeAndWake(sys, sub, effective).st, other.conv), other.id)
         == Recorded(LogOf(sys.st, other.conv), other.id)
  {
    var sys' := sys.(st := Apply(sys.st, sub.id, Finalize));
    assert LogOf(sys'.st, other.conv) == LogOf(sys.st, other.conv);
    WakeKeepsRecord(sys', sub, effective, other);
  }

  /** A wake writes no settled record. */
  lemma WakeKeepsRecord(sys: Sys, child: Submission, payload: SettledPayload, other: Submission)
    ensures Recorded(LogOf(WakeParent(sys, child, payload).st, other.conv), other.id)
         == Recorded(LogOf(sys.st, other.conv), other.id)
  {
    if child.parent in sys.st.rows && !sys.st.rows[child.parent].Terminal() {
      var conv := sys.st.rows[child.parent].conv;
      var st1 := RepairSpawn(sys.st, child);
      AppendKeepsRecord(sys.st, conv, SpawnOf(ParentRef(LogOf(sys.st, child.conv)), child), other);
      AppendKeepsRecord(st1, conv, WakeOutcome(sys.ulid, child, payload, LogOf(st1, child.conv)), other);
      WakeLogs(sys, st1, child, payload, other.conv);
    }
  }

  lemma WakeLogs(sys: Sys, st1: Store, child: Submission, payload: SettledPayload, c: ConversationId)
    requires child.parent in sys.st.rows && !sys.st.rows[child.parent].Terminal() && st1 == RepairSpawn(sys.st, child)
    ensures LogOf(WakeParent(sys, child, payload).st, c) == LogOf(AppendOutcome(sys.(st := st1), child, payload).st, c)
  {
  }

  lemma AppendKeepsRecord(st: Store, conv: ConversationId, rec: Record, other: Submission)
    requires !rec.body.SubmissionSettled?
    ensures Recorded(LogOf(AppendTo(st, conv, [rec]), other.conv), other.id)
         == Recorded(LogOf(st, other.conv), other.id)
  {
    RecordedAppend(LogOf(st, conv), [rec], other.id);
  }

  lemma {:induction false} CompleteEachRecords(sys: Sys, subs: seq<Submission>, i: nat)
    requires i < |subs| && forall j, k :: 0 <= j < k < |subs| ==> subs[j].id != subs[k].id
    ensures Recorded(LogOf(CompleteEach(sys, subs).st, subs[i].conv), subs[i].id)
         == Some(EffectivePayload(sys.st, subs[i], INDETERMINATE))
    decreases |subs|
  {
    var sys1 := Complete(sys, subs[0], INDETERMINATE);
    if i == 0 {
      CompleteRecords(sys, subs[0], INDETERMINATE);
      CompleteEachEvolves(sys1, subs[1..]);
      RecordLasts(sys1.st, CompleteEach(sys1, subs[1..]).st, subs[0]);
    } else {
      CompleteKeepsRecord(sys, subs[0], INDETERMINATE, subs[i]);
      assert subs[1..][i - 1] == subs[i];
      CompleteEachRecords(sys1, subs[1..], i - 1);
      assert CompleteEach(sys, subs) == CompleteEach(sys1, subs[1..]);
    }
  }

  /** Startup reconciliation settles every interrupted submission, parents and
      children alike, with a settled record: the one that landed before the crash
      if there is one, and else the indeterminate failure. The pass is Coordinator.Reconcile, where the logs it walks
      are tidy; in others the walk of a child's path may not end. */
  lemma ReconcileSettlesTheStuck(sys: Sys, id: SubmissionId)
    requires WellFormed(sys.st) && forall x :: x in sys.st.rows ==> !Orphan(sys.st, sys.st.rows[x])
    requires id in sys.st.rows && sys.st.rows[id].status == Terminalizing
    ensures var st, st', conv := sys.st, CompleteEach(sys, ByStatus(sys.st, Terminalizing)).st, sys.st.rows[id].conv;
            && (forall x :: x in st'.rows ==> st'.rows[x].status != Terminalizing)
            && id in st'.rows && st'.rows[id].status == Settled
            && Recorded(LogOf(st', conv), id)
               == if Recorded(LogOf(st, conv), id).Some? then Recorded(LogOf(st, conv), id)
                  else Some(SettledPayload(Failed, "process crashed during settlement; run outcome unknown",
                                           Indeterminate, ""))
  {
    var stuck := ByStatus(sys.st, Terminalizing);
    var st' := CompleteEach(sys, stuck).st;
    var i := StuckAreListed(sys.st, id);
    CompleteEachSettles(sys, stuck);
    CompleteEachEvolves(sys, stuck);
    assert Evolves(sys.st.rows[id], st'.rows[id]);
    FilterKeepsIds((r: Submission) => r.status == Terminalizing, Rows(sys.st));
    CompleteEachRecords(sys, stuck, i);
  }

  lemma StuckAreListed(st: Store, id: SubmissionId) returns (i: nat)
    requires WellFormed(st) && forall x :: x in st.rows ==> !Orphan(st, st.rows[x])
    requires id in st.rows && st.rows[id].status == Terminalizing
    ensures AllTerminal(st, ByStatus(st, Terminalizing)) && NamesAll(st, ByStatus(st, Terminalizing))
    ensures i < |ByStatus(st, Terminalizing)| && ByStatus(st, Terminalizing)[i] == st.rows[id]
  {
    var stuck := ByStatus(st, Terminalizing);
    FilterMembers((r: Submission) => r.status == Terminalizing, Rows(st));
    RowsMembers(st);
    forall j {:trigger stuck[j]} | 0 <= j < |stuck|
      ensures stuck[j].id in st.rows && st.rows[stuck[j].id] == stuck[j] && stuck[j].Terminal()
    {
      assert stuck[j] in stuck;
    }
    forall x | x in st.rows && st.rows[x].status == Terminalizing
      ensures exists j :: 0 <= j < |stuck| && stuck[j].id == x
    {
      assert st.rows[x] in stuck;
    }
    assert st.rows[id] in stuck;
    i :| 0 <= i < |stuck| && stuck[i] == st.rows[id];
  }

  // ---- reclaim ----

  /** A reclaimed row goes back to the queue, or is settled cancelled on record
      when it was flagged; either way the dead attempt no longer owns it. */
  lemma ReclaimDecides(sys: Sys, sub: Submission)
    requires sub.id in sys.st.rows && sys.st.rows[sub.id] == sub && sub.status == Running
    ensures var st' := Reclaim(sys, sub).st;
            && sub.id in st'.rows && !st'.rows[sub.id].Owned(sub.attemptId)
            && st'.rows[sub.id].status == (if sub.cancelRequested then Settled else Queued)
            && (sub.cancelRequested ==>
                  var was := Recorded(LogOf(sys.st, sub.conv), sub.id);
                  Recorded(LogOf(st', sub.conv), sub.id)
                  == if was.Some? then was
                     else Some(SettledPayload(Failed, "cancelled: parent settled", CancelledByParent, "")))
  {
    if sub.cancelRequested {
      var sys1 := sys.(st := Apply(sys.st, sub.id, Release(sub.attemptId, "")));
      var sys2 := sys1.(st := Apply(sys1.st, sub.id, Cancel(CANCELLED.error)));
      assert Reclaim(sys, sub) == SettledRecordOnce(sys2, sub, CANCELLED);
      RecordOnceRecords(sys2, sub, CANCELLED);
      RecordOnceEvolves(sys2, sub, CANCELLED);
      assert Evolves(sys2.st.rows[sub.id], SettledRecordOnce(sys2, sub, CANCELLED).st.rows[sub.id]);
    }
  }

  /** Reclaiming one row leaves every other row alone, but for a waiting parent. */
  lemma ReclaimLeavesOthers(sys: Sys, sub: Submission, id: SubmissionId)
    requires id in sys.st.rows && id != sub.id && sys.st.rows[id].status != Waiting
    ensures id in Reclaim(sys, sub).st.rows && Reclaim(sys, sub).st.rows[id] == sys.st.rows[id]
  {
    var sys1 := sys.(st := Apply(sys.st, sub.id, Release(sub.attemptId, "")));
    var sys2 := sys1.(st := Apply(sys1.st, sub.id, Cancel(CANCELLED.error)));
    assert id in sys2.st.rows && sys2.st.rows[id] == sys.st.rows[id] == sys1.st.rows[id];
    RecordLeavesOthers(sys2, sub, CANCELLED, id);
  }

  lemma RecordLeavesOthers(sys: Sys, sub: Submission, payload: SettledPayload, id: SubmissionId)
    requires id in sys.st.rows && sys.st.rows[id].status != Waiting
    ensures var st' := SettledRecordOnce(sys, sub, payload).st; id in st'.rows && st'.rows[id] == sys.st.rows[id]
  {
    var sys1, effective := RecordOnly(sys, sub, payload), EffectivePayload(sys.st, sub, payload);
    RecordOnlyRows(sys, sub, payload);
    WakeRows(sys1, sub, effective);
    OnlyWaitingResume(sys1.st, WakeParent(sys1, sub, effective).st, sub.parent, id);
    RecordThenWake(sys, sub, payload, sys1, effective);
  }

  lemma RecordOnlyRows(sys: Sys, sub: Submission, payload: SettledPayload)
    ensures RecordOnly(sys, sub, payload).st.rows == sys.st.rows
  {
  }

  lemma RecordThenWake(sys: Sys, sub: Submission, payload: SettledPayload, sys1: Sys, effective: SettledPayload)
    requires sys1 == RecordOnly(sys, sub, payload) && effective == EffectivePayload(sys.st, sub, payload)
    ensures SettledRecordOnce(sys, sub, payload) in {sys1, WakeParent(sys1, sub, effective)}
  {
  }

  lemma OnlyWaitingResume(st: Store, st': Store, p: SubmissionId, id: SubmissionId)
    requires st'.rows == st.rows || st'.rows == Apply(st, p, Resume).rows
    requires id in st.rows && st.rows[id].status != Waiting
    ensures id in st'.rows && st'.rows[id] == st.rows[id]
  {
  }

  lemma ReclaimKeepsRecord(sys: Sys, sub: Submission, other: Submission)
    requires other.id != sub.id
    ensures Recorded(LogOf(Reclaim(sys, sub).st, other.conv), other.id)
         == Recorded(LogOf(sys.st, other.conv), other.id)
  {
    var sys1 := sys.(st := Apply(sys.st, sub.id, Release(sub.attemptId, "")));
    var sys2 := sys1.(st := Apply(sys1.st, sub.id, Cancel(CANCELLED.error)));
    assert LogOf(sys2.st, other.conv) == LogOf(sys.st, other.conv) == LogOf(sys1.st, other.conv);
    RecordOnceKeepsRecord(sys2, sub, CANCELLED, other);
  }

  lemma RecordOnceKeepsRecord(sys: Sys, sub: Submission, payload: SettledPayload, other: Submission)
    requires other.id != sub.id
    ensures Recorded(LogOf(SettledRecordOnce(sys, sub, payload).st, other.conv), other.id)
         == Recorded(LogOf(sys.st, other.conv), other.id)
  {
    var sys1 := RecordOnly(sys, sub, payload);
    RecordedAppend(LogOf(sys.st, other.conv), [Record(sys.ulid, sub.id, SubmissionSettled(payload))], other.id);
    assert Recorded(LogOf(sys1.st, other.conv), other.id) == Recorded(LogOf(sys.st, other.conv), other.id);
    WakeKeepsRecord(sys1, sub, EffectivePayload(sys.st, sub, payload), other);
  }

  /** What a reclaim makes of the row r: requeued, or settled on record when flagged. */
  ghost predicate Reclaimed(st: Store, r: Submission, st': Store) {
    && r.id in st'.rows && st'.rows[r.id].status == (if r.cancelRequested then Settled else Queued)
    && (r.cancelRequested ==>
          var was := Recorded(LogOf(st, r.conv), r.id);
          Recorded(LogOf(st', r.conv), r.id)
          == if was.Some? then was
             else Some(SettledPayload(Failed, "cancelled: parent settled", CancelledByParent, "")))
  }

  lemma {:induction false} ReclaimEachLeaves(sys: Sys, subs: seq<Submission>, active: set<nat>, r: Submission)
    requires r.id in sys.st.rows && sys.st.rows[r.id].status != Waiting
    requires forall i :: 0 <= i < |subs| ==> subs[i].id != r.id || subs[i].session in active
    ensures var st' := ReclaimEach(sys, subs, active).st;
            && r.id in st'.rows && st'.rows[r.id] == sys.st.rows[r.id]
            && ((forall i :: 0 <= i < |subs| ==> subs[i].id != r.id) ==>
                  Recorded(LogOf(st', r.conv), r.id) == Recorded(LogOf(sys.st, r.conv), r.id))
    decreases |subs|
  {
    if subs != [] {
      var sys1 := if subs[0].session in active then sys else Reclaim(sys, subs[0]);
      if subs[0].session !in active {
        ReclaimLeavesOthers(sys, subs[0], r.id);
        ReclaimKeepsRecord(sys, subs[0], r);
      }
      ReclaimEachLeaves(sys1, subs[1..], active, r);
      assert ReclaimEach(sys, subs, active) == ReclaimEach(sys1, subs[1..], active);
    }
  }

  lemma {:induction false} ReclaimEachDecides(sys: Sys, subs: seq<Submission>, active: set<nat>, i: nat)
    requires i < |subs| && forall j, k :: 0 <= j < k < |subs| ==> subs[j].id != subs[k].id
    requires subs[i].id in sys.st.rows && sys.st.rows[subs[i].id] == subs[i] && subs[i].status == Running
    requires subs[i].session !in active
    ensures Reclaimed(sys.st, subs[i], ReclaimEach(sys, subs, active).st)
    decreases |subs|
  {
    var sys1 := if subs[0].session in active then sys else Reclaim(sys, subs[0]);
    if i == 0 {
      ReclaimDecides(sys, subs[0]);
      ReclaimEachLeaves(sys1, subs[1..], active, subs[0]);
    } else {
      if subs[0].session !in active {
        ReclaimLeavesOthers(sys, subs[0], subs[i].id);
        ReclaimKeepsRecord(sys, subs[0], subs[i]);
      }
      assert subs[1..][i - 1] == subs[i];
      ReclaimEachDecides(sys1, subs[1..], active, i - 1);
    }
    assert ReclaimEach(sys, subs, active) == ReclaimEach(sys1, subs[1..], active);
  }

  /** A reclaim pass over the expired leases: of the running rows exactly those are
      taken from their attempts whose lease has run out and whose session is not
      active in this process; each of them is requeued, or settled cancelled on
      record when it was flagged. */
  lemma ReclaimPassDecides(sys: Sys, now: int, active: set<nat>, id: SubmissionId)
    requires WellFormed(sys.st) && id in sys.st.rows && sys.st.rows[id].status == Running
    ensures
      var r := sys.st.rows[id];
      var st' := ReclaimEach(sys, Filter((x: Submission) => LeaseExpired(x, now), Rows(sys.st)), active).st;
      if r.leaseExpiresAt <= now && r.session !in active then Reclaimed(sys.st, r, st')
      else id in st'.rows && st'.rows[id] == r
  {
    var r := sys.st.rows[id];
    var p := (x: Submission) => LeaseExpired(x, now);
    var expired := Filter(p, Rows(sys.st));
    FilterKeepsIds(p, Rows(sys.st));
    FilterMembers(p, Rows(sys.st));
    RowsMembers(sys.st);
    if r.leaseExpiresAt <= now && r.session !in active {
      assert r in expired;
      var i :| 0 <= i < |expired| && expired[i] == r;
      ReclaimEachDecides(sys, expired, active, i);
    } else {
      forall i | 0 <= i < |expired|
        ensures expired[i].id != id || expired[i].session in active
      {
        ListedRow(sys.st, p, i);
      }
      ReclaimEachLeaves(sys, expired, active, r);
    }
  }
}
