/** What the backstop, wait expiry and the orphan cascade achieve. */
module WaitTheorems {
  import opened Records
  import opened Submissions
  import opened StoreModel
  import opened Handoff
  import opened CoordinatorSpec
  import opened Reducer
  import C = Calls

  /** How many records of the log answer the call. */
  function OutcomeCount(log: Log, callId: CallId): (n: nat)
    ensures n == 0 <==> !HasOutcome(log, callId)
  {
    if log == [] then 0
    else
      var rec := log[|log| - 1];
      var here := if rec.body.ToolOutcome? && rec.body.callId == callId then 1 else 0;
      assert here == 1 ==> log[|log| - 1].body.callId == callId;
      assert HasOutcome(log[..|log| - 1], callId) ==> HasOutcome(log, callId) by {
        if HasOutcome(log[..|log| - 1], callId) {
          var i :| 0 <= i < |log| - 1 && log[..|log| - 1][i].body.ToolOutcome?
                   && log[..|log| - 1][i].body.callId == callId;
          assert log[i].body.callId == callId;
        }
      }
      OutcomeCount(log[..|log| - 1], callId) + here
  }

  lemma {:induction false} OutcomeCountAppend(log: Log, more: Log, callId: CallId)
    ensures OutcomeCount(log + more, callId) == OutcomeCount(log, callId) + OutcomeCount(more, callId)
    decreases |more|
  {
    if more == [] {
      assert log + more == log;
    } else {
      var n := |more| - 1;
      OutcomeCountAppend(log, more[..n], callId);
      assert (log + more)[..|log + more| - 1] == log + more[..n];
    }
  }

  // ---- wait expiry ----

  lemma {:induction false} CancelEachEvolves(st: Store, kids: seq<Submission>, reason: Text)
    ensures C.StoreEvolves(st, CancelEach(st, kids, reason)) && CancelEach(st, kids, reason).logs == st.logs
    decreases |kids|
  {
    if kids != [] {
      var kid := kids[0];
      var st1 := if kid.status == Settled then st else Apply(st, kid.id, Cancel(reason));
      if kid.status != Settled && Applies(st, kid.id, Cancel(reason)) {
        TransitionEvolves(st.rows[kid.id], Cancel(reason));
      }
      CancelEachEvolves(st1, kids[1..], reason);
      C.StoreEvolvesTransitive(st, st1, CancelEach(st1, kids[1..], reason));
    }
  }

  lemma {:induction false} CancelEachCloses(st: Store, kids: seq<Submission>, reason: Text, i: nat)
    requires i < |kids| && kids[i].id in st.rows
    requires kids[i].status == Settled ==> st.rows[kids[i].id].status == Settled
    ensures kids[i].id in CancelEach(st, kids, reason).rows
    ensures CancelEach(st, kids, reason).rows[kids[i].id].Closed()
    decreases |kids|
  {
    var kid := kids[0];
    var st1 := if kid.status == Settled then st else Apply(st, kid.id, Cancel(reason));
    if kid.status != Settled && Applies(st, kid.id, Cancel(reason)) {
      TransitionEvolves(st.rows[kid.id], Cancel(reason));
    }
    if i == 0 {
      assert st1.rows[kid.id].Closed();
      CancelEachEvolves(st1, kids[1..], reason);
      assert Evolves(st1.rows[kid.id], CancelEach(st1, kids[1..], reason).rows[kid.id]);
    } else {
      CancelEachCloses(st1, kids[1..], reason, i - 1);
    }
  }

  lemma {:induction false} ExpiryAnswersOnce(open: seq<CallId>, ulid: RecordId, parent: SubmissionId, c: CallId)
    requires forall i, j :: 0 <= i < j < |open| ==> open[i] != open[j]
    ensures OutcomeCount(ExpiryOutcomes(open, ulid, parent), c) == if c in open then 1 else 0
    decreases |open|
  {
    if open != [] {
      var n := |open| - 1;
      ExpiryAnswersOnce(open[..n], ulid, parent, c);
      assert ExpiryOutcomes(open, ulid, parent)[..n] == ExpiryOutcomes(open[..n], ulid, parent);
      assert open == open[..n] + [open[n]];
    }
  }

  /** Every child of the parent is settled, terminalizing or flagged. */
  ghost predicate ChildrenClosed(st: Store, parent: SubmissionId) {
    forall id :: id in st.rows && st.rows[id].parent == parent ==> st.rows[id].Closed()
  }

  lemma ExpiryClosesChildren(sys: Sys, parent: Submission)
    requires WellFormed(sys.st)
    ensures ChildrenClosed(ExpireWait(sys, parent).st, parent.id)
  {
    var st, st' := sys.st, ExpireWait(sys, parent).st;
    var kids := Children(st, parent.id);
    var st1 := CancelEach(st, kids, "parent wait expired");
    CancelEachEvolves(st, kids, "parent wait expired");
    CancelEachKeys(st, kids, "parent wait expired");
    ChildrenMembers(st, parent.id);
    forall id | id in st'.rows && st'.rows[id].parent == parent.id
      ensures st'.rows[id].Closed()
    {
      assert Evolves(st.rows[id], st1.rows[id]);
      ResumeEvolves(st1, parent.id, id);
      assert st.rows[id] in kids;
      var i :| 0 <= i < |kids| && kids[i] == st.rows[id];
      CancelEachCloses(st, kids, "parent wait expired", i);
    }
  }

  lemma ResumeEvolves(st: Store, parent: SubmissionId, id: SubmissionId)
    requires id in st.rows
    ensures Evolves(st.rows[id], Apply(st, parent, Resume).rows[id])
  {
  }

  lemma {:induction false} CancelEachKeys(st: Store, kids: seq<Submission>, reason: Text)
    ensures CancelEach(st, kids, reason).rows.Keys == st.rows.Keys
    decreases |kids|
  {
    if kids != [] {
      var st1 := if kids[0].status == Settled then st else Apply(st, kids[0].id, Cancel(reason));
      CancelEachKeys(st1, kids[1..], reason);
    }
  }

  /** What a cancel makes of a row. */
  function CancelledRow(r: Submission, reason: Text): Submission {
    match r.status
    case Queued => r.(status := Settled, lastError := reason, pendingResume := false, waitUntil := ZERO_TIME)
    case Waiting => r.(status := Settled, lastError := reason, pendingResume := false, waitUntil := ZERO_TIME)
    case Running => r.(cancelRequested := true)
    case _ => r
  }

  /** A cancel of each kid touches the kids' rows only. */
  lemma {:induction false} CancelEachRow(st: Store, kids: seq<Submission>, reason: Text, id: SubmissionId)
    requires id in st.rows && forall i, j :: 0 <= i < j < |kids| ==> kids[i].id != kids[j].id
    requires forall i :: 0 <= i < |kids| && kids[i].id == id ==> kids[i] == st.rows[id]
    ensures id in CancelEach(st, kids, reason).rows
    ensures CancelEach(st, kids, reason).rows[id]
         == if exists i :: 0 <= i < |kids| && kids[i].id == id then CancelledRow(st.rows[id], reason) else st.rows[id]
    decreases |kids|
  {
    if kids != [] {
      var st1 := if kids[0].status == Settled then st else Apply(st, kids[0].id, Cancel(reason));
      if kids[0].id == id {
        NotAmong(st1, kids[1..], reason, id);
      } else {
        assert forall i :: 0 <= i < |kids[1..]| ==> kids[1..][i] == kids[i + 1];
        CancelEachRow(st1, kids[1..], reason, id);
        if i :| 0 <= i < |kids| && kids[i].id == id { assert kids[1..][i - 1].id == id; }
      }
    }
  }

  lemma {:induction false} NotAmong(st: Store, kids: seq<Submission>, reason: Text, id: SubmissionId)
    requires id in st.rows && forall i :: 0 <= i < |kids| ==> kids[i].id != id
    ensures id in CancelEach(st, kids, reason).rows && CancelEach(st, kids, reason).rows[id] == st.rows[id]
    decreases |kids|
  {
    if kids != [] {
      NotAmong(if kids[0].status == Settled then st else Apply(st, kids[0].id, Cancel(reason)), kids[1..], reason, id);
    }
  }

  /** Expiry requeues a waiting parent, cancels its children and touches no other row. */
  lemma ExpiryRow(sys: Sys, parent: Submission, id: SubmissionId)
    requires WellFormed(sys.st) && id in sys.st.rows
    ensures
      var r, st' := sys.st.rows[id], ExpireWait(sys, parent).st;
      && id in st'.rows
      && (r.parent == parent.id && id != parent.id ==> st'.rows[id] == CancelledRow(r, "parent wait expired"))
      && (r.parent != parent.id && id == parent.id ==>
            st'.rows[id] == if r.status == Waiting then r.(status := Queued, waitUntil := ZERO_TIME) else r)
      && (r.parent != parent.id && id != parent.id ==> st'.rows[id] == r)
  {
    var kids := Children(sys.st, parent.id);
    ChildrenMembers(sys.st, parent.id);
    ChildrenAreDistinct(sys.st, parent.id);
    forall i | 0 <= i < |kids| && kids[i].id == id
      ensures kids[i] == sys.st.rows[id] && sys.st.rows[id].parent == parent.id
    {
      assert kids[i] in kids;
    }
    CancelEachRow(sys.st, kids, "parent wait expired", id);
    if sys.st.rows[id].parent == parent.id {
      var i := ChildIndex(sys.st, parent.id, id);
      assert kids[i].id == id;
    }
  }

  /** The first spawn record of a call that is open. */
  predicate FirstOfOpen(log: Log, i: nat)
    requires i < |log|
  {
    && log[i].body.TaskSpawned? && !HasOutcome(log, log[i].body.callId)
    && forall j :: 0 <= j < i && log[j].body.TaskSpawned? ==> log[j].body.callId != log[i].body.callId
  }

  /** The open calls stand in the order of their first spawn records. */
  lemma {:induction false} OpenInSpawnOrder(log: Log, n: nat) returns (at: seq<nat>)
    requires n <= |log|
    ensures Rising(at, n) && |at| == |OpenUpTo(log, n)|
    ensures forall k :: 0 <= k < |at| ==>
      log[at[k]].body.TaskSpawned? && log[at[k]].body.callId == OpenUpTo(log, n)[k]
    ensures forall i :: i in at <==> 0 <= i < n && FirstOfOpen(log, i)
  {
    if n == 0 {
      at := [];
    } else {
      at := OpenInSpawnOrder(log, n - 1);
      RisingSnoc(at, n - 1);
      FirstIsNew(log, n - 1);
      if FirstOfOpen(log, n - 1) { at := at + [n - 1]; }
    }
  }

  lemma FirstIsNew(log: Log, n: nat)
    requires n < |log|
    ensures FirstOfOpen(log, n) <==>
      log[n].body.TaskSpawned? && !HasOutcome(log, log[n].body.callId) && log[n].body.callId !in OpenUpTo(log, n)
  {
  }

  /** What expiry appends: for each call that was spawned and never answered, in the
      order of the first spawns, one expiry error of the parent. */
  lemma ExpiryAnswersInSpawnOrder(log: Log, ulid: RecordId, parent: SubmissionId) returns (at: seq<nat>)
    ensures var out := ExpiryOutcomes(OpenCalls(log), ulid, parent);
            && Rising(at, |log|) && |at| == |out|
            && forall k :: 0 <= k < |at| ==>
                 log[at[k]].body.TaskSpawned?
                 && out[k] == Record(ulid + k, parent,
                                     ToolOutcome(log[at[k]].body.callId, "task", true, "task wait expired"))
    ensures forall i :: i in at <==> 0 <= i < |log| && FirstOfOpen(log, i)
  {
    at := OpenInSpawnOrder(log, |log|);
  }

  /** Under ids of their own, so the parent's path can be walked afterwards. */
  lemma ExpiryOutcomesAreMinted(log: Log, ulid: RecordId, parent: SubmissionId)
    requires Distinct(log) && ulid != NONE && forall i :: 0 <= i < |log| ==> log[i].id < ulid
    ensures var log' := log + ExpiryOutcomes(OpenCalls(log), ulid, parent);
            Distinct(log') && WalkEnds(Reduce(log'))
  {
    var out := ExpiryOutcomes(OpenCalls(log), ulid, parent);
    MintedStayDistinct(log, out, ulid);
    DistinctWalkEnds(log + out);
  }

  /** Expiry requeues the parent. The parent's log grows by one expiry
      error for each spawned call without an outcome, in spawn order, so every
      spawned call that had at most one outcome has exactly one; every child is
      settled, terminalizing or flagged; no other log changes. */
  lemma ExpiryClosesTheWait(sys: Sys, parent: Submission)
    requires WellFormed(sys.st)
    ensures
      var st, st' := sys.st, ExpireWait(sys, parent).st;
      var log, log' := LogOf(st, parent.conv), LogOf(st', parent.conv);
      && (parent.id in st'.rows ==> st'.rows[parent.id].status != Waiting)
      && (parent.id in st.rows && st.rows[parent.id].status == Waiting && st.rows[parent.id].parent != parent.id ==>
            parent.id in st'.rows && st'.rows[parent.id].status == Queued)
      && log' == log + ExpiryOutcomes(OpenCalls(log), sys.ulid, parent.id)
      && (forall c :: HasSpawn(log, c) && OutcomeCount(log, c) <= 1 ==> OutcomeCount(log', c) == 1)
      && (forall c :: !HasSpawn(log, c) ==> OutcomeCount(log', c) == OutcomeCount(log, c))
      && ChildrenClosed(st', parent.id)
      && (forall conv :: conv != parent.conv ==> LogOf(st', conv) == LogOf(st, conv))
  {
    var st := sys.st;
    ExpiryClosesChildren(sys, parent);
    if parent.id in st.rows { ExpiryRow(sys, parent, parent.id); }
    CancelEachEvolves(st, Children(st, parent.id), "parent wait expired");
    var log := LogOf(st, parent.conv);
    var open := OpenCalls(log);
    var out := ExpiryOutcomes(open, sys.ulid, parent.id);
    assert log + [] == log;
    ExpiryLogs(sys, parent, parent.conv);
    forall c
      ensures OutcomeCount(log + out, c) == OutcomeCount(log, c) + (if c in open then 1 else 0)
    {
      OutcomeCountAppend(log, out, c);
      ExpiryAnswersOnce(open, sys.ulid, parent.id, c);
    }
  }

  lemma ExpiryLogs(sys: Sys, parent: Submission, conv: ConversationId)
    requires WellFormed(sys.st)
    ensures
      var st, st' := sys.st, ExpireWait(sys, parent).st;
      var log := LogOf(st, parent.conv);
      && LogOf(st', parent.conv) == log + ExpiryOutcomes(OpenCalls(log), sys.ulid, parent.id)
      && forall c :: c != parent.conv ==> LogOf(st', c) == LogOf(st, c)
  {
    var log := LogOf(sys.st, parent.conv);
    CancelEachEvolves(sys.st, Children(sys.st, parent.id), "parent wait expired");
    assert log + [] == log;
  }

  // ---- what one wake hands over ----

  /** The parent's log after the spawn record, if that was missing and is known. */
  function Spawned(log: Log, child: Submission, ref: RecordId): Log {
    if HasSpawn(log, child.parentCallId) || ref == NONE then log
    else log + [Record(ref, child.parent, TaskSpawned(child.parentCallId, child.id))]
  }

  /** A wake of an open parent whose call is unanswered ends the parent's log with
      one new outcome of the call: it reports the child's payload and its answer.
      A spawn record that was missing precedes it. */
  lemma WakeDelivers(sys: Sys, child: Submission, payload: SettledPayload)
    requires child.parent in sys.st.rows && !sys.st.rows[child.parent].Terminal()
    requires sys.st.rows[child.parent].conv != child.conv
    requires !HasOutcome(LogOf(sys.st, sys.st.rows[child.parent].conv), child.parentCallId)
    ensures
      var conv := sys.st.rows[child.parent].conv;
      var log, log' := LogOf(sys.st, conv), LogOf(WakeParent(sys, child, payload).st, conv);
      && log' != []
      && log'[..|log'| - 1] == Spawned(log, child, ParentRef(LogOf(sys.st, child.conv)))
      && log'[|log'| - 1].id == sys.ulid && log'[|log'| - 1].sub == child.parent
      && Reports(log'[|log'| - 1].body, child, payload, LogOf(sys.st, child.conv))
  {
    var st, conv := sys.st, sys.st.rows[child.parent].conv;
    var sys1 := sys.(st := RepairSpawn(st, child));
    var log1 := Spawned(LogOf(st, conv), child, ParentRef(LogOf(st, child.conv)));
    RepairAppends(st, child);
    SpawnedIsUnanswered(LogOf(st, conv), child, ParentRef(LogOf(st, child.conv)));
    var rec := WakeOutcome(sys.ulid, child, payload, LogOf(st, child.conv));
    OutcomeReports(sys.ulid, child, payload, LogOf(st, child.conv));
    WakeAppends(sys, sys1, child, payload, rec);
    assert (log1 + [rec])[..|log1 + [rec]| - 1] == log1;
  }

  lemma RepairAppends(st: Store, child: Submission)
    requires child.parent in st.rows && st.rows[child.parent].conv != child.conv
    ensures var conv, st' := st.rows[child.parent].conv, RepairSpawn(st, child);
            LogOf(st', conv) == Spawned(LogOf(st, conv), child, ParentRef(LogOf(st, child.conv)))
            && LogOf(st', child.conv) == LogOf(st, child.conv)
  {
  }

  lemma SpawnedIsUnanswered(log: Log, child: Submission, ref: RecordId)
    requires !HasOutcome(log, child.parentCallId)
    ensures !HasOutcome(Spawned(log, child, ref), child.parentCallId)
  {
    var log1 := Spawned(log, child, ref);
    forall i | 0 <= i < |log1|
      ensures !(log1[i].body.ToolOutcome? && log1[i].body.callId == child.parentCallId)
    {
      if i < |log| { assert log1[i] == log[i]; }
    }
  }

  /** Unless the parent is settling or its call was answered, the parent's log now
      ends with a report of the child's payload and answer. */
  ghost predicate Handed(st: Store, child: Submission, payload: SettledPayload, st': Store) {
    child.parent in st.rows && !st.rows[child.parent].Terminal()
    && !HasOutcome(LogOf(st, st.rows[child.parent].conv), child.parentCallId) ==>
      var log := LogOf(st', st.rows[child.parent].conv);
      && log != [] && log[|log| - 1].sub == child.parent
      && Reports(log[|log| - 1].body, child, payload, LogOf(st, child.conv))
  }

  lemma WakeHands(sys: Sys, child: Submission, payload: SettledPayload)
    requires Wakes(sys.st, child)
    ensures Handed(sys.st, child, payload, WakeParent(sys, child, payload).st)
  {
    if child.parent in sys.st.rows && !sys.st.rows[child.parent].Terminal()
       && !HasOutcome(LogOf(sys.st, sys.st.rows[child.parent].conv), child.parentCallId) {
      WakeDelivers(sys, child, payload);
    }
  }

  lemma OutcomeHands(sys: Sys, child: Submission, payload: SettledPayload)
    requires child.parent in sys.st.rows
    ensures Handed(sys.st, child, payload, AppendOutcome(sys, child, payload).st)
  {
    OutcomeReports(sys.ulid, child, payload, LogOf(sys.st, child.conv));
  }

  lemma WakeAppends(sys: Sys, sys1: Sys, child: Submission, payload: SettledPayload, rec: Record)
    requires child.parent in sys.st.rows && !sys.st.rows[child.parent].Terminal()
    requires sys1 == sys.(st := RepairSpawn(sys.st, child))
    requires !HasOutcome(LogOf(sys1.st, sys.st.rows[child.parent].conv), child.parentCallId)
    requires rec == WakeOutcome(sys.ulid, child, payload, LogOf(sys1.st, child.conv))
    ensures var conv := sys.st.rows[child.parent].conv;
            LogOf(WakeParent(sys, child, payload).st, conv) == LogOf(sys1.st, conv) + [rec]
  {
  }

  // ---- what a backstop pass owes the parent's log ----

  /** The outcome a child's recorded payload stands for. */
  function Due(st: Store, kid: Submission): (due: Body)
    requires Recorded(LogOf(st, kid.conv), kid.id).Some?
    ensures due.ToolOutcome? && due.callId == kid.parentCallId
    ensures Reports(due, kid, Recorded(LogOf(st, kid.conv), kid.id).value, LogOf(st, kid.conv))
  {
    OutcomeReports(NONE, kid, Recorded(LogOf(st, kid.conv), kid.id).value, LogOf(st, kid.conv));
    WakeOutcome(NONE, kid, Recorded(LogOf(st, kid.conv), kid.id).value, LogOf(st, kid.conv)).body
  }

  ghost predicate Outcomes(dues: seq<Body>) {
    && (forall i :: 0 <= i < |dues| ==> dues[i].ToolOutcome?)
    && (forall i, j :: 0 <= i < j < |dues| ==> dues[i].callId != dues[j].callId)
  }

  /** The record one due outcome still owes the log. */
  function OwedOne(log: Log, due: Body, parent: SubmissionId, ulid: RecordId): Log
    requires due.ToolOutcome?
  {
    if HasOutcome(log, due.callId) then [] else [Record(ulid, parent, due)]
  }

  /** The records the due outcomes still owe the log, numbered from ulid. */
  function Owed(log: Log, dues: seq<Body>, parent: SubmissionId, ulid: RecordId): Log
    requires forall i :: 0 <= i < |dues| ==> dues[i].ToolOutcome?
    decreases |dues|
  {
    if dues == [] then []
    else
      var mine := OwedOne(log, dues[0], parent, ulid);
      mine + Owed(log, dues[1..], parent, ulid + |mine|)
  }

  predicate Names(dues: seq<Body>, c: CallId) {
    exists i :: 0 <= i < |dues| && dues[i].ToolOutcome? && dues[i].callId == c
  }

  lemma NamesSplits(dues: seq<Body>, c: CallId)
    requires dues != [] && Outcomes(dues)
    ensures Names(dues, c) <==> dues[0].callId == c || Names(dues[1..], c)
    ensures dues[0].callId == c ==> !Names(dues[1..], c)
    ensures Outcomes(dues[1..])
  {
    assert forall i :: 0 <= i < |dues[1..]| ==> dues[1..][i] == dues[i + 1];
    if Names(dues, c) {
      var i :| 0 <= i < |dues| && dues[i].ToolOutcome? && dues[i].callId == c;
      if i > 0 { assert dues[1..][i - 1] == dues[i]; }
    }
  }

  lemma OwedOneCounts(log: Log, due: Body, parent: SubmissionId, ulid: RecordId, c: CallId)
    requires due.ToolOutcome?
    ensures OutcomeCount(OwedOne(log, due, parent, ulid), c) == if !HasOutcome(log, c) && due.callId == c then 1 else 0
  {
    var mine := OwedOne(log, due, parent, ulid);
    if mine != [] {
      assert mine[..0] == [];
      assert OutcomeCount(mine[..0], c) == 0;
    }
  }

  /** Each due outcome the log lacks is owed once, and no other call gets any. */
  lemma {:induction false} OwedCounts(log: Log, dues: seq<Body>, parent: SubmissionId, ulid: RecordId, c: CallId)
    requires Outcomes(dues)
    ensures OutcomeCount(Owed(log, dues, parent, ulid), c) == if !HasOutcome(log, c) && Names(dues, c) then 1 else 0
    decreases |dues|
  {
    if dues != [] {
      var mine := OwedOne(log, dues[0], parent, ulid);
      NamesSplits(dues, c);
      OwedCounts(log, dues[1..], parent, ulid + |mine|, c);
      OutcomeCountAppend(mine, Owed(log, dues[1..], parent, ulid + |mine|), c);
      OwedOneCounts(log, dues[0], parent, ulid, c);
    }
  }

  /** Where the record of a due outcome the log lacks stands. */
  lemma {:induction false} OwedCarries(log: Log, dues: seq<Body>, parent: SubmissionId, ulid: RecordId, i: nat)
    returns (j: nat)
    requires Outcomes(dues) && i < |dues| && !HasOutcome(log, dues[i].callId)
    ensures j < |Owed(log, dues, parent, ulid)|
    ensures Owed(log, dues, parent, ulid)[j].body == dues[i] && Owed(log, dues, parent, ulid)[j].sub == parent
    decreases |dues|
  {
    var mine := OwedOne(log, dues[0], parent, ulid);
    if i == 0 {
      j := 0;
    } else {
      assert forall k :: 0 <= k < |dues[1..]| ==> dues[1..][k] == dues[k + 1];
      j := OwedCarries(log, dues[1..], parent, ulid + |mine|, i - 1);
      j := |mine| + j;
    }
  }

  // ---- a backstop pass ----

  /** A settled child of p, spawned and settled on record, in a conversation of its own. */
  ghost predicate Replayable(st: Store, p: SubmissionId, kid: Submission)
    requires p in st.rows
  {
    && kid.parent == p && kid.conv != st.rows[p].conv
    && HasSpawn(LogOf(st, st.rows[p].conv), kid.parentCallId)
    && Recorded(LogOf(st, kid.conv), kid.id).Some?
  }

  lemma OutcomeInEither(log: Log, done: Log, c: CallId)
    ensures HasOutcome(log + done, c) <==> HasOutcome(log, c) || HasOutcome(done, c)
  {
    if HasOutcome(log, c) {
      var i :| 0 <= i < |log| && log[i].body.ToolOutcome? && log[i].body.callId == c;
      assert (log + done)[i].body.callId == c;
    }
    if HasOutcome(done, c) {
      var i :| 0 <= i < |done| && done[i].body.ToolOutcome? && done[i].body.callId == c;
      assert (log + done)[|log| + i].body.callId == c;
    }
  }

  lemma SpawnStays(log: Log, done: Log, c: CallId)
    requires HasSpawn(log, c)
    ensures HasSpawn(log + done, c)
  {
    var i :| 0 <= i < |log| && log[i].body.TaskSpawned? && log[i].body.callId == c;
    assert (log + done)[i].body.callId == c;
  }

  /** From sys to sys' the pass appended more to the parent's log and requeued
      the parent if it was waiting; nothing else changed. */
  ghost predicate Woke(sys: Sys, p: SubmissionId, more: Log, sys': Sys)
    requires p in sys.st.rows
  {
    && sys'.st.rows == Apply(sys.st, p, Resume).rows && sys'.ulid == sys.ulid + |more|
    && LogOf(sys'.st, sys.st.rows[p].conv) == LogOf(sys.st, sys.st.rows[p].conv) + more
    && forall c :: c != sys.st.rows[p].conv ==> LogOf(sys'.st, c) == LogOf(sys.st, c)
  }

  lemma WokeLog(sys: Sys, p: SubmissionId, more: Log, sys': Sys)
    requires p in sys.st.rows && Woke(sys, p, more, sys')
    ensures p in sys'.st.rows && sys'.st.rows[p].conv == sys.st.rows[p].conv && sys'.ulid == sys.ulid + |more|
    ensures LogOf(sys'.st, sys'.st.rows[p].conv) == LogOf(sys.st, sys.st.rows[p].conv) + more
  {
  }

  lemma WokeTwice(sys: Sys, p: SubmissionId, more: Log, sys1: Sys, rest: Log, sys2: Sys, both: Log)
    requires p in sys.st.rows && Woke(sys, p, more, sys1) && Woke(sys1, p, rest, sys2) && both == more + rest
    ensures Woke(sys, p, both, sys2)
  {
    var log := LogOf(sys.st, sys.st.rows[p].conv);
    assert log + more + rest == log + (more + rest);
  }

  /** The parent can still be woken, and no child of it is unsettled. */
  ghost predicate Wakeable(st: Store, p: SubmissionId) {
    p in st.rows && !st.rows[p].Terminal() && AllSettled(st, Kids(st, p))
  }

  /** One replayed wake, with the payload when it is still wanted. */
  lemma ReplayOne(sys: Sys, p: SubmissionId, kid: Submission, payload: SettledPayload)
    requires Wakeable(sys.st, p) && Replayable(sys.st, p, kid)
    requires !HasOutcome(LogOf(sys.st, sys.st.rows[p].conv), kid.parentCallId) ==>
               payload == Recorded(LogOf(sys.st, kid.conv), kid.id).value
    ensures Woke(sys, p, OwedOne(LogOf(sys.st, sys.st.rows[p].conv), Due(sys.st, kid), p, sys.ulid),
                 WakeParent(sys, kid, payload))
  {
    assert RepairSpawn(sys.st, kid) == sys.st;
    assert LogOf(sys.st, sys.st.rows[p].conv) + [] == LogOf(sys.st, sys.st.rows[p].conv);
  }

  /** What a pass needs of the children still to come. */
  ghost predicate Coming(st: Store, p: SubmissionId, kids: seq<Submission>, dues: seq<Body>, open: seq<CallId>) {
    && Wakeable(st, p) && |dues| == |kids| && Outcomes(dues)
    && forall i {:trigger kids[i]} :: 0 <= i < |kids| ==>
         && Replayable(st, p, kids[i]) && dues[i] == Due(st, kids[i])
         && (kids[i].parentCallId in open <==> !HasOutcome(LogOf(st, st.rows[p].conv), kids[i].parentCallId))
  }

  lemma WakeableNext(sys: Sys, p: SubmissionId, more: Log, sys': Sys)
    requires Wakeable(sys.st, p) && Woke(sys, p, more, sys')
    ensures Wakeable(sys'.st, p) && sys'.st.rows[p].conv == sys.st.rows[p].conv
  {
    forall id | id in Kids(sys'.st, p)
      ensures sys'.st.rows[id].status == Settled
    {
      assert id in Kids(sys.st, p);
    }
  }

  lemma ComingNext(sys: Sys, p: SubmissionId, kids: seq<Submission>, dues: seq<Body>, open: seq<CallId>, sys': Sys)
    requires Coming(sys.st, p, kids, dues, open) && kids != []
    requires Woke(sys, p, OwedOne(LogOf(sys.st, sys.st.rows[p].conv), dues[0], p, sys.ulid), sys')
    ensures Coming(sys'.st, p, kids[1..], dues[1..], open)
  {
    var log := LogOf(sys.st, sys.st.rows[p].conv);
    var more := OwedOne(log, dues[0], p, sys.ulid);
    NamesSplits(dues, dues[0].callId);
    WakeableNext(sys, p, more, sys');
    forall i {:trigger kids[1..][i]} | 0 <= i < |kids[1..]|
      ensures kids[1..][i] == kids[i + 1] && dues[1..][i] == dues[i + 1]
      ensures Replayable(sys'.st, p, kids[i + 1])
      ensures HasOutcome(log + more, kids[i + 1].parentCallId) <==> HasOutcome(log, kids[i + 1].parentCallId)
    {
      assert Replayable(sys.st, p, kids[i + 1]);
      SpawnStays(log, more, kids[i + 1].parentCallId);
      OutcomeInEither(log, more, dues[i + 1].callId);
    }
  }

  /** An outcome of another call changes nothing that is owed. */
  lemma {:induction false} OwedIgnoresOthers(log: Log, more: Log, dues: seq<Body>, parent: SubmissionId, ulid: RecordId)
    requires Outcomes(dues)
    requires forall i :: 0 <= i < |dues| ==> !HasOutcome(more, dues[i].callId)
    ensures Owed(log + more, dues, parent, ulid) == Owed(log, dues, parent, ulid)
    decreases |dues|
  {
    if dues != [] {
      OutcomeInEither(log, more, dues[0].callId);
      NamesSplits(dues, dues[0].callId);
      assert forall i :: 0 <= i < |dues[1..]| ==> dues[1..][i] == dues[i + 1];
      var mine := OwedOne(log, dues[0], parent, ulid);
      assert OwedOne(log + more, dues[0], parent, ulid) == mine;
      OwedIgnoresOthers(log, more, dues[1..], parent, ulid + |mine|);
    }
  }

  lemma OwedSplits(log: Log, dues: seq<Body>, parent: SubmissionId, ulid: RecordId, log1: Log, ulid1: RecordId)
    requires Outcomes(dues) && dues != [] && Outcomes(dues[1..])
    requires var mine := OwedOne(log, dues[0], parent, ulid); log1 == log + mine && ulid1 == ulid + |mine|
    ensures Owed(log, dues, parent, ulid) == OwedOne(log, dues[0], parent, ulid) + Owed(log1, dues[1..], parent, ulid1)
  {
    var mine := OwedOne(log, dues[0], parent, ulid);
    forall i | 0 <= i < |dues[1..]|
      ensures !HasOutcome(mine, dues[1..][i].callId)
    {
      assert dues[1..][i] == dues[i + 1];
    }
    OwedIgnoresOthers(log, mine, dues[1..], parent, ulid1);
  }

  lemma OwedLast(log: Log, dues: seq<Body>, parent: SubmissionId, ulid: RecordId)
    requires Outcomes(dues) && |dues| == 1
    ensures Owed(log, dues, parent, ulid) == OwedOne(log, dues[0], parent, ulid)
  {
    assert dues[1..] == [];
  }

  /** The first child of a pass: its wake, with the payload the pass chooses. */
  lemma ReplayFirst(sys: Sys, p: SubmissionId, kids: seq<Submission>, dues: seq<Body>, open: seq<CallId>)
    returns (sys': Sys)
    requires Coming(sys.st, p, kids, dues, open) && kids != []
    ensures ReplayWakes(sys, kids, open) == ReplayWakes(sys', kids[1..], open)
    ensures Woke(sys, p, OwedOne(LogOf(sys.st, sys.st.rows[p].conv), dues[0], p, sys.ulid), sys')
  {
    var kid := kids[0];
    assert Replayable(sys.st, p, kid);
    var recorded := Recorded(LogOf(sys.st, kid.conv), kid.id);
    var payload := if kid.parentCallId in open then recorded.value else ZERO_PAYLOAD;
    ReplayOne(sys, p, kid, payload);
    sys' := WakeParent(sys, kid, payload);
  }

  /** A pass appends what is owed, in child order, and requeues the parent. */
  lemma {:induction false} ReplayAll(sys: Sys, p: SubmissionId, kids: seq<Submission>, dues: seq<Body>,
                                     open: seq<CallId>)
    requires Coming(sys.st, p, kids, dues, open) && kids != []
    ensures Woke(sys, p, Owed(LogOf(sys.st, sys.st.rows[p].conv), dues, p, sys.ulid), ReplayWakes(sys, kids, open))
    decreases |kids|
  {
    var sys1 := ReplayFirst(sys, p, kids, dues, open);
    if |kids| == 1 {
      OwedLast(LogOf(sys.st, sys.st.rows[p].conv), dues, p, sys.ulid);
    } else {
      ComingNext(sys, p, kids, dues, open, sys1);
      ReplayAll(sys1, p, kids[1..], dues[1..], open);
      WokeWithTheRest(sys, p, dues, sys1, ReplayWakes(sys1, kids[1..], open));
    }
  }

  lemma WokeWithTheRest(sys: Sys, p: SubmissionId, dues: seq<Body>, sys1: Sys, sys2: Sys)
    requires p in sys.st.rows && Outcomes(dues) && dues != [] && Outcomes(dues[1..])
    requires Woke(sys, p, OwedOne(LogOf(sys.st, sys.st.rows[p].conv), dues[0], p, sys.ulid), sys1)
    requires Woke(sys1, p, Owed(LogOf(sys1.st, sys1.st.rows[p].conv), dues[1..], p, sys1.ulid), sys2)
    ensures Woke(sys, p, Owed(LogOf(sys.st, sys.st.rows[p].conv), dues, p, sys.ulid), sys2)
  {
    var log, log1 := LogOf(sys.st, sys.st.rows[p].conv), LogOf(sys1.st, sys1.st.rows[p].conv);
    WokeLog(sys, p, OwedOne(log, dues[0], p, sys.ulid), sys1);
    OwedSplits(log, dues, p, sys.ulid, log1, sys1.ulid);
    WokeTwice(sys, p, OwedOne(log, dues[0], p, sys.ulid), sys1, Owed(log1, dues[1..], p, sys1.ulid), sys2,
              Owed(log, dues, p, sys.ulid));
  }

  /** The parent waits, has children, and each is settled, spawned and settled on
      record, under a call of its own. */
  ghost predicate BackstopReady(st: Store, parent: Submission) {
    && WellFormed(st) && parent.id in st.rows && st.rows[parent.id] == parent && parent.status == Waiting
    && AllSettled(st, Kids(st, parent.id)) && Kids(st, parent.id) != {}
    && (forall id :: id in Kids(st, parent.id) ==> Replayable(st, parent.id, st.rows[id]))
    && (forall id, id' | id in Kids(st, parent.id) && id' in Kids(st, parent.id) && id != id' ::
          st.rows[id].parentCallId != st.rows[id'].parentCallId)
  }

  lemma ChildrenAreDistinct(st: Store, parent: SubmissionId)
    requires WellFormed(st)
    ensures forall i, j :: 0 <= i < j < |Children(st, parent)| ==>
              Children(st, parent)[i].id != Children(st, parent)[j].id
  {
    var rows := Rows(st);
    assert rows[..|rows|] == rows;
    FilterKeepsIds((r: Submission) => r.parent == parent, rows);
  }

  lemma {:induction false} FilterKeepsIds(p: Submission -> bool, rows: seq<Submission>)
    requires forall i, j :: 0 <= i < j < |rows| ==> rows[i].id != rows[j].id
    ensures forall i, j :: 0 <= i < j < |Filter(p, rows)| ==> Filter(p, rows)[i].id != Filter(p, rows)[j].id
  {
    if rows != [] {
      var n := |rows| - 1;
      FilterKeepsIds(p, rows[..n]);
      var init := Filter(p, rows[..n]);
      FilterMembers(p, rows[..n]);
      forall i | 0 <= i < |init|
        ensures init[i].id != rows[n].id
      {
        assert init[i] in init;
        var k :| 0 <= k < n && rows[..n][k] == init[i];
        assert rows[k].id != rows[n].id;
      }
    }
  }

  /** The outcomes due from the children, in child order. */
  ghost function Dues(st: Store, parent: Submission): (dues: seq<Body>)
    requires BackstopReady(st, parent)
    ensures |dues| == |Children(st, parent.id)| && Outcomes(dues)
    ensures forall i :: 0 <= i < |dues| ==>
              && Replayable(st, parent.id, Children(st, parent.id)[i])
              && dues[i] == Due(st, Children(st, parent.id)[i])
  {
    var kids := Children(st, parent.id);
    ReadyKids(st, parent);
    seq(|kids|, i requires 0 <= i < |kids| => Due(st, kids[i]))
  }

  lemma ReadyKids(st: Store, parent: Submission)
    requires BackstopReady(st, parent)
    ensures var kids := Children(st, parent.id);
            && kids != []
            && (forall i {:trigger kids[i]} :: 0 <= i < |kids| ==>
                  && kids[i].id in Kids(st, parent.id) && st.rows[kids[i].id] == kids[i]
                  && Replayable(st, parent.id, kids[i]) && kids[i].status == Settled)
            && (forall i, j :: 0 <= i < j < |kids| ==> kids[i].parentCallId != kids[j].parentCallId)
  {
    var kids := Children(st, parent.id);
    ChildrenMembers(st, parent.id);
    ChildrenAreDistinct(st, parent.id);
    var id :| id in Kids(st, parent.id);
    assert st.rows[id] in kids;
    forall i {:trigger kids[i]} | 0 <= i < |kids|
      ensures kids[i].id in Kids(st, parent.id) && st.rows[kids[i].id] == kids[i]
    {
      assert kids[i] in kids;
    }
  }

  lemma BackstopStarts(sys: Sys, parent: Submission)
    requires BackstopReady(sys.st, parent)
    ensures var kids := Children(sys.st, parent.id);
            && kids != []
            && Coming(sys.st, parent.id, kids, Dues(sys.st, parent), OpenCalls(LogOf(sys.st, parent.conv)))
            && BackstopWake(sys, parent) == ReplayWakes(sys, kids, OpenCalls(LogOf(sys.st, parent.conv)))
  {
    ReadyKids(sys.st, parent);
  }

  /** One backstop pass over a waiting parent whose children are all settled on
      record requeues it and appends the outcomes still owed, in child order; no
      other row and no other log changes. */
  lemma BackstopClosesTheWake(sys: Sys, parent: Submission)
    requires BackstopReady(sys.st, parent)
    ensures Woke(sys, parent.id, Owed(LogOf(sys.st, parent.conv), Dues(sys.st, parent), parent.id, sys.ulid),
                 BackstopWake(sys, parent))
  {
    BackstopStarts(sys, parent);
    ReplayAll(sys, parent.id, Children(sys.st, parent.id), Dues(sys.st, parent),
              OpenCalls(LogOf(sys.st, parent.conv)));
  }

  /** While some child is unsettled the pass does nothing. */
  lemma BackstopWaitsForAll(sys: Sys, parent: Submission, id: SubmissionId)
    requires WellFormed(sys.st) && id in Kids(sys.st, parent.id) && sys.st.rows[id].status != Settled
    ensures BackstopWake(sys, parent) == sys
  {
    var i := ChildIndex(sys.st, parent.id, id);
    assert Children(sys.st, parent.id)[i].status != Settled;
  }

  /** The pass answers every child call that was open, and no other call; a child
      call that had at most one outcome has exactly one. */
  lemma BackstopAnswersOnce(sys: Sys, parent: Submission, c: CallId)
    requires BackstopReady(sys.st, parent)
    ensures
      var log, log' := LogOf(sys.st, parent.conv), LogOf(BackstopWake(sys, parent).st, parent.conv);
      OutcomeCount(log', c)
      == OutcomeCount(log, c) + if !HasOutcome(log, c) && Names(Dues(sys.st, parent), c) then 1 else 0
    ensures Names(Dues(sys.st, parent), c)
       <==> exists id :: id in Kids(sys.st, parent.id) && sys.st.rows[id].parentCallId == c
  {
    var log, dues := LogOf(sys.st, parent.conv), Dues(sys.st, parent);
    BackstopClosesTheWake(sys, parent);
    OutcomeCountAppend(log, Owed(log, dues, parent.id, sys.ulid), c);
    OwedCounts(log, dues, parent.id, sys.ulid, c);
    DuesNameTheKids(sys.st, parent, c);
  }

  lemma DuesNameTheKids(st: Store, parent: Submission, c: CallId)
    requires BackstopReady(st, parent)
    ensures Names(Dues(st, parent), c) <==> exists id :: id in Kids(st, parent.id) && st.rows[id].parentCallId == c
  {
    var dues := Dues(st, parent);
    var kids := Children(st, parent.id);
    ReadyKids(st, parent);
    if Names(dues, c) {
      var i :| 0 <= i < |dues| && dues[i].ToolOutcome? && dues[i].callId == c;
      assert kids[i].parentCallId == c && kids[i].id in Kids(st, parent.id);
    }
    forall id | id in Kids(st, parent.id) && st.rows[id].parentCallId == c
      ensures Names(dues, c)
    {
      var i := ChildIndex(st, parent.id, id);
      assert dues[i].callId == c;
    }
  }

  /** What an open child call receives reports the child's recorded payload and its
      answer. */
  lemma BackstopCarriesTheRecordedPayload(sys: Sys, parent: Submission, id: SubmissionId) returns (j: nat)
    requires BackstopReady(sys.st, parent) && id in Kids(sys.st, parent.id)
    requires !HasOutcome(LogOf(sys.st, parent.conv), sys.st.rows[id].parentCallId)
    ensures Recorded(LogOf(sys.st, sys.st.rows[id].conv), sys.st.rows[id].id).Some?
    ensures |LogOf(sys.st, parent.conv)| <= j < |LogOf(BackstopWake(sys, parent).st, parent.conv)|
    ensures
      var kid := sys.st.rows[id];
      Reports(LogOf(BackstopWake(sys, parent).st, parent.conv)[j].body, kid,
              Recorded(LogOf(sys.st, kid.conv), kid.id).value, LogOf(sys.st, kid.conv))
  {
    var log, dues := LogOf(sys.st, parent.conv), Dues(sys.st, parent);
    var i := ChildIndex(sys.st, parent.id, id);
    assert dues[i] == Due(sys.st, sys.st.rows[id]);
    BackstopClosesTheWake(sys, parent);
    j := OwedCarries(log, dues, parent.id, sys.ulid, i);
    j := |log| + j;
  }

  lemma ChildIndex(st: Store, parent: SubmissionId, id: SubmissionId) returns (i: nat)
    requires WellFormed(st) && id in Kids(st, parent)
    ensures i < |Children(st, parent)| && Children(st, parent)[i] == st.rows[id]
  {
    ChildrenMembers(st, parent);
    assert st.rows[id] in Children(st, parent);
    i :| 0 <= i < |Children(st, parent)| && Children(st, parent)[i] == st.rows[id];
  }

  /** The parent is past waiting and every child has its spawn and outcome. */
  ghost predicate Woken(st: Store, parent: SubmissionId, kids: seq<Submission>) {
    && parent in st.rows && st.rows[parent].status != Waiting
    && forall i {:trigger kids[i]} :: 0 <= i < |kids| ==>
         kids[i].parent == parent && HasSpawn(LogOf(st, st.rows[parent].conv), kids[i].parentCallId)
         && HasOutcome(LogOf(st, st.rows[parent].conv), kids[i].parentCallId)
  }

  lemma {:induction false} WokenReplayIsNoop(sys: Sys, parent: SubmissionId, kids: seq<Submission>, open: seq<CallId>)
    requires Woken(sys.st, parent, kids)
    ensures ReplayWakes(sys, kids, open) == sys
    decreases |kids|
  {
    if kids != [] {
      assert kids[0].parent == parent;
      assert forall payload :: WakeParent(sys, kids[0], payload) == sys;
      assert Woken(sys.st, parent, kids[1..]) by {
        assert forall i :: 0 <= i < |kids[1..]| ==> kids[1..][i] == kids[i + 1];
      }
      WokenReplayIsNoop(sys, parent, kids[1..], open);
    }
  }

  /** A pass over a parent already woken changes nothing. */
  lemma BackstopAfterWakeIsNoop(sys: Sys, parent: Submission)
    requires WellFormed(sys.st) && Woken(sys.st, parent.id, Children(sys.st, parent.id))
    ensures BackstopWake(sys, parent) == sys
  {
    WokenReplayIsNoop(sys, parent.id, Children(sys.st, parent.id), OpenCalls(LogOf(sys.st, parent.conv)));
  }

  lemma {:induction false} OutcomeCountPositive(log: Log, c: CallId)
    requires HasOutcome(log, c)
    ensures OutcomeCount(log, c) > 0
  {
  }

  lemma BackstopRows(sys: Sys, parent: Submission)
    requires BackstopReady(sys.st, parent)
    ensures var st' := BackstopWake(sys, parent).st;
            && WellFormed(st')
            && st'.rows == sys.st.rows[parent.id := parent.(status := Queued, waitUntil := ZERO_TIME)]
  {
    BackstopClosesTheWake(sys, parent);
    BackstopKeepsOrder(sys, parent);
    WokeRows(sys.st, parent, BackstopWake(sys, parent).st);
  }

  lemma WokeRows(st: Store, parent: Submission, st': Store)
    requires WellFormed(st) && parent.id in st.rows && st.rows[parent.id] == parent && parent.status == Waiting
    requires st'.rows == Apply(st, parent.id, Resume).rows && st'.order == st.order
    ensures WellFormed(st') && st'.rows == st.rows[parent.id := parent.(status := Queued, waitUntil := ZERO_TIME)]
  {
  }

  lemma BackstopLeavesWoken(sys: Sys, parent: Submission)
    requires BackstopReady(sys.st, parent) && parent.parent != parent.id
    ensures WellFormed(BackstopWake(sys, parent).st)
    ensures Woken(BackstopWake(sys, parent).st, parent.id, Children(BackstopWake(sys, parent).st, parent.id))
  {
    BackstopRows(sys, parent);
    var st' := BackstopWake(sys, parent).st;
    var kids' := Children(st', parent.id);
    ChildrenMembers(st', parent.id);
    forall i {:trigger kids'[i]} | 0 <= i < |kids'|
      ensures kids'[i].parent == parent.id && HasSpawn(LogOf(st', parent.conv), kids'[i].parentCallId)
      ensures HasOutcome(LogOf(st', parent.conv), kids'[i].parentCallId)
    {
      assert kids'[i] in kids';
      assert kids'[i].id != parent.id && kids'[i].id in Kids(sys.st, parent.id);
      BackstopAnswersTheKid(sys, parent, kids'[i].id);
    }
  }

  /** So a second pass right after the first changes nothing. */
  lemma BackstopIsIdempotent(sys: Sys, parent: Submission)
    requires BackstopReady(sys.st, parent) && parent.parent != parent.id
    ensures WellFormed(BackstopWake(sys, parent).st)
    ensures BackstopWake(BackstopWake(sys, parent), parent) == BackstopWake(sys, parent)
  {
    BackstopLeavesWoken(sys, parent);
    BackstopRows(sys, parent);
    BackstopAfterWakeIsNoop(BackstopWake(sys, parent), parent);
  }

  lemma BackstopAnswersTheKid(sys: Sys, parent: Submission, id: SubmissionId)
    requires BackstopReady(sys.st, parent) && id in Kids(sys.st, parent.id)
    ensures HasSpawn(LogOf(BackstopWake(sys, parent).st, parent.conv), sys.st.rows[id].parentCallId)
    ensures HasOutcome(LogOf(BackstopWake(sys, parent).st, parent.conv), sys.st.rows[id].parentCallId)
  {
    var log, c := LogOf(sys.st, parent.conv), sys.st.rows[id].parentCallId;
    assert Replayable(sys.st, parent.id, sys.st.rows[id]);
    BackstopAnswersOnce(sys, parent, c);
    if HasOutcome(log, c) { OutcomeCountPositive(log, c); }
    BackstopClosesTheWake(sys, parent);
    SpawnStays(log, Owed(log, Dues(sys.st, parent), parent.id, sys.ulid), c);
  }

  lemma {:induction false} ReplayKeepsOrder(sys: Sys, kids: seq<Submission>, open: seq<CallId>)
    ensures ReplayWakes(sys, kids, open).st.order == sys.st.order
    ensures ReplayWakes(sys, kids, open).st.rows.Keys == sys.st.rows.Keys
    decreases |kids|
  {
    if kids != [] {
      var recorded := Recorded(LogOf(sys.st, kids[0].conv), kids[0].id);
      var payload := if kids[0].parentCallId in open && recorded.Some? then recorded.value else ZERO_PAYLOAD;
      WakeFrame(sys, kids[0], payload);
      ReplayKeepsOrder(WakeParent(sys, kids[0], payload), kids[1..], open);
    }
  }

  lemma BackstopKeepsOrder(sys: Sys, parent: Submission)
    requires WellFormed(sys.st)
    ensures BackstopWake(sys, parent).st.order == sys.st.order
  {
    ReplayKeepsOrder(sys, Children(sys.st, parent.id), OpenCalls(LogOf(sys.st, parent.conv)));
  }
}
