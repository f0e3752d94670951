/** Settlement and wake as a protocol: any number of settling runs, startup
    finalizers, cascades, reclaims, backstop wakes and other callers interleave
    their store calls one at a time, any of them may stop at any point, and the
    process may crash between any two calls. */
module Settlement {
  import opened Records
  import opened Submissions
  import opened StoreModel
  import opened Handoff
  import C = Calls

  // ---- actors ----

  /** Settling: settle of a run that reserved. Interrupted: finalizeInterrupted
      at startup. Cancelled: settleCancelledChild. Backstop: a replayed wake. */
  datatype Mode = Settling | Interrupted | Cancelled | Backstop

  /** The next store call of an actor. */
  datatype Pc =
    | ReadSettled
    | AppendSettled
    | WakeGet
    | WakeSpawnRead
    | WakeSpawnRef
    | WakeSpawnAppend(spawnId: RecordId)
    | WakeContent
    | WakeOutcomeRead(isError: bool, content: Text)
    | WakeOutcomeAppend(isError: bool, content: Text)
    | WakeList
    | WakeResume(listed: set<SubmissionId>)
    | Finalizing

  datatype Actor = Actor(mode: Mode, child: SubmissionId, effective: SettledPayload, finalized: bool, pc: Pc)
  {
    predicate Authoring() { pc.ReadSettled? || pc.AppendSettled? }
    predicate Waking() { !Authoring() && !pc.Finalizing? }
    /** Its child is settled already, so its wake can be the one that requeues. */
    predicate Deciding() { finalized || mode.Cancelled? || mode.Backstop? }
    /** May still author the settled record or finalize. */
    predicate Owner() { !finalized && (mode.Settling? || mode.Interrupted? || (mode.Cancelled? && Authoring())) }
  }

  /** The wake is over: finalize next, or stop. */
  function EndWake(a: Actor): Option<Actor> {
    if a.finalized || a.mode.Cancelled? || a.mode.Backstop? then None else Some(a.(pc := Finalizing))
  }

  function AfterRecord(a: Actor, r: Submission): Option<Actor> {
    if r.parent == NONE then EndWake(a) else Some(a.(pc := WakeGet))
  }

  /** The call's effect on the store, when it has one; newId is the ULID it mints. */
  function Effect(st: Store, a: Actor, newId: RecordId): Option<C.Call>
    requires a.child in st.rows
  {
    var r := st.rows[a.child];
    match a.pc
    case AppendSettled => Some(C.Append(r.conv, [Record(newId, a.child, SubmissionSettled(a.effective))]))
    case WakeSpawnAppend(spawnId) => Some(C.Append(ParentConv(st, r), [SpawnOf(spawnId, r)]))
    case WakeOutcomeAppend(isError, content) =>
      Some(C.Append(ParentConv(st, r),
                    [Record(newId, r.parent, ToolOutcome(r.parentCallId, "task", isError, content))]))
    case WakeResume(_) => Some(C.Do(r.parent, Resume))
    case Finalizing => Some(C.Do(a.child, Finalize))
    case _ => None
  }

  /** Where the actor goes after the call, with what it read; None when it stops. */
  function Advance(st: Store, a: Actor): Option<Actor>
    requires a.child in st.rows
  {
    var r := st.rows[a.child];
    var parentLog := LogOf(st, ParentConv(st, r));
    match a.pc
    case ReadSettled =>
      (match Recorded(LogOf(st, r.conv), a.child)
       case Some(p) => AfterRecord(a.(effective := p), r)
       case None => Some(a.(pc := AppendSettled)))
    case AppendSettled => AfterRecord(a, r)
    case WakeGet =>
      if r.parent !in st.rows then None
      else if st.rows[r.parent].Terminal() then EndWake(a)
      else Some(a.(pc := WakeSpawnRead))
    case WakeSpawnRead => Some(a.(pc := if HasSpawn(parentLog, r.parentCallId) then WakeContent else WakeSpawnRef))
    case WakeSpawnRef =>
      var spawnId := ParentRef(LogOf(st, r.conv));
      Some(a.(pc := if spawnId == NONE then WakeContent else WakeSpawnAppend(spawnId)))
    case WakeSpawnAppend(_) => Some(a.(pc := WakeContent))
    case WakeContent =>
      var outcome := WakeOutcome(NONE, r, a.effective, LogOf(st, r.conv)).body;
      Some(a.(pc := WakeOutcomeRead(outcome.isError, outcome.content)))
    case WakeOutcomeRead(isError, content) =>
      Some(a.(pc := if HasOutcome(parentLog, r.parentCallId) then WakeList else WakeOutcomeAppend(isError, content)))
    case WakeOutcomeAppend(_, _) => Some(a.(pc := WakeList))
    case WakeList =>
      var kids := Kids(st, r.parent);
      if AllSettled(st, kids - {a.child}) then Some(a.(pc := WakeResume(kids))) else EndWake(a)
    case WakeResume(_) => EndWake(a)
    case Finalizing =>
      if r.parent == NONE then None else Some(a.(finalized := true, pc := WakeGet))
  }

  // ---- the protocol ----

  /** stuck: rows the startup scan found terminalizing. The rest is history:
      voided, rows a cancel closed while their parent was open; through, rows
      finalized; late, parents that parked after the last wake: every child was
      settled and no deciding wake in flight; lost, parents left with every child
      settled and no deciding wake in flight, because the last one died or because
      a cancel by another party closed the last child. Whatever starts a deciding
      wake of the parent (a finalization, a reclaim, a backstop) clears both. */
  datatype State = State(
    w: C.World,
    acts: map<nat, Actor>,
    stuck: set<SubmissionId>,
    voided: set<SubmissionId>,
    through: set<SubmissionId>,
    late: set<SubmissionId>,
    lost: set<SubmissionId>)

  const INITIAL := State(C.INITIAL, map[], {}, {}, {}, {}, {})

  datatype Event =
    | Other(call: C.Call)  // any caller that does not settle
    | Reserve(id: SubmissionId, attempt: AttemptId, payload: SettledPayload, k: nat)
    | CascadeCancel(id: SubmissionId, reason: Text, k: nat)
    | ReclaimFlagged(id: SubmissionId, attempt: AttemptId, k: nat)
    | BeginFinalize(id: SubmissionId, k: nat)
    | BeginBackstop(id: SubmissionId, payload: SettledPayload, k: nat)
    | Step(k: nat, newId: RecordId)
    | Abort(k: nat)
    | Crash

  /** Reservation, finalization and settled records belong to the actors. */
  predicate Allowed(call: C.Call) {
    match call
    case Do(_, op) => !op.Reserve? && !op.Finalize?
    case Append(_, recs) => forall i :: 0 <= i < |recs| ==> !recs[i].body.SubmissionSettled?
    case _ => true
  }

  predicate Enabled(s: State, e: Event) {
    var st := s.w.st;
    match e
    case Other(call) => Allowed(call)
    case Reserve(id, attempt, _, k) => k !in s.acts && Applies(st, id, RowOp.Reserve(attempt))
    case CascadeCancel(id, reason, k) =>
      k !in s.acts && Applies(st, id, Cancel(reason)) && st.rows[id].parent in st.rows
      && st.rows[st.rows[id].parent].status == Settled
    case ReclaimFlagged(id, attempt, k) =>
      k !in s.acts && id in st.rows && st.rows[id].Owned(attempt) && st.rows[id].cancelRequested
    case BeginFinalize(id, k) => k !in s.acts && id in s.stuck
    case BeginBackstop(id, _, k) =>
      k !in s.acts && id in st.rows && st.rows[id].status == Settled && st.rows[id].parent != NONE
    case Step(k, _) => k in s.acts && s.acts[k].child in st.rows
    case Abort(k) => k in s.acts
    case Crash => true
  }

  function ParentOf(st: Store, id: SubmissionId): SubmissionId {
    if id in st.rows then st.rows[id].parent else NONE
  }

  /** The store calls an event makes. */
  function CallsOf(s: State, e: Event): seq<C.Call> {
    var st := s.w.st;
    if !Enabled(s, e) then []
    else match e
      case Other(call) => [call]
      case Reserve(id, attempt, _, _) => [C.Do(id, RowOp.Reserve(attempt))]
      case CascadeCancel(id, reason, _) => [C.Do(id, Cancel(reason))]
      case ReclaimFlagged(id, attempt, _) =>
        [C.Do(id, Release(attempt, "")), C.Do(id, Cancel("cancelled: parent settled"))]
      case Step(k, newId) =>
        (match Effect(st, s.acts[k], newId)
         case Some(call) => [call]
         case None => [])
      case _ => []
  }

  function After(w: C.World, calls: seq<C.Call>): C.World
    decreases |calls|
  {
    if calls == [] then w else After(C.Next(w, calls[0]), calls[1..])
  }

  /** The rows an event closes by a cancel while their parent was open. */
  function Voids(s: State, e: Event): set<SubmissionId> {
    var st := s.w.st;
    match e
    case Other(call) =>
      if Closes(s.w, call) then {call.id} else {}
    case ReclaimFlagged(id, _, _) =>
      if ParentOf(st, id) in st.rows && st.rows[ParentOf(st, id)].status == Settled then {} else {id}
    case _ => {}
  }

  /** Some deciding wake of a child of p is in flight. */
  predicate InFlight(acts: map<nat, Actor>, st: Store, p: SubmissionId) {
    exists k :: k in acts && acts[k].Deciding() && ParentOf(st, acts[k].child) == p
  }

  /** Every child of p is settled and nobody will wake it. */
  predicate Unattended(acts: map<nat, Actor>, st: Store, p: SubmissionId) {
    AllSettled(st, Kids(st, p)) && !InFlight(acts, st, p)
  }

  /** A cancel by another party that closes a row outright. */
  predicate Closes(w: C.World, call: C.Call) {
    call.Do? && call.op.Cancel? && C.Hits(w, call, call.id) && w.st.rows[call.id].status != Running
  }

  predicate Parks(w: C.World, call: C.Call) {
    call.Do? && call.op.Park? && C.Hits(w, call, call.id)
  }

  function Next(s: State, e: Event): State {
    var st := s.w.st;
    if !Enabled(s, e) then s
    else
      var s' := s.(w := After(s.w, CallsOf(s, e)), voided := s.voided + Voids(s, e));
      match e
      case Other(call) =>
        if Parks(s.w, call) then
          s'.(late := if Unattended(s.acts, st, call.id) then s.late + {call.id} else s.late - {call.id},
              lost := s.lost - {call.id})
        else if Closes(s.w, call) && Unattended(s.acts, s'.w.st, ParentOf(st, call.id)) then
          s'.(lost := s.lost + {ParentOf(st, call.id)})
        else s'
      case Reserve(id, _, payload, k) =>
        s'.(acts := s.acts[k := Actor(Settling, id, payload, false, ReadSettled)])
      case CascadeCancel(id, _, k) =>
        if st.rows[id].status == Running then s'
        else s'.(acts := s.acts[k := Actor(Cancelled, id, CANCELLED, false, ReadSettled)])
      case ReclaimFlagged(id, _, k) =>
        s'.(acts := s.acts[k := Actor(Cancelled, id, CANCELLED, false, ReadSettled)],
            late := s.late - {ParentOf(st, id)}, lost := s.lost - {ParentOf(st, id)})
      case BeginFinalize(id, k) =>
        s'.(acts := s.acts[k := Actor(Interrupted, id, INDETERMINATE, false, ReadSettled)], stuck := s.stuck - {id})
      case BeginBackstop(id, payload, k) =>
        s'.(acts := s.acts[k := Actor(Backstop, id, payload, false, WakeGet)],
            late := s.late - {ParentOf(st, id)}, lost := s.lost - {ParentOf(st, id)})
      case Step(k, _) =>
        var a := s.acts[k];
        var next := Advance(st, a);
        s'.(acts := if next.Some? then s.acts[k := next.value] else s.acts - {k},
            through := if a.pc.Finalizing? then s.through + {a.child} else s.through,
            late := if a.pc.Finalizing? then s.late - {ParentOf(st, a.child)} else s.late,
            lost := if a.pc.Finalizing? then s.lost - {ParentOf(st, a.child)} else s.lost)
      case Abort(k) =>
        s'.(acts := s.acts - {k},
            lost := if s.acts[k].Deciding() && Unattended(s.acts - {k}, st, ParentOf(st, s.acts[k].child))
                    then s.lost + {ParentOf(st, s.acts[k].child)} else s.lost)
      case Crash =>
        s'.(acts := map[],
            stuck := (set id | id in st.rows && st.rows[id].status == Terminalizing),
            lost := s.lost + (set k | k in s.acts && s.acts[k].Deciding()
                                      && AllSettled(st, Kids(st, ParentOf(st, s.acts[k].child))) ::
                                ParentOf(st, s.acts[k].child)))
  }

  function Run(es: seq<Event>): State {
    if es == [] then INITIAL else Next(Run(es[..|es| - 1]), es[|es| - 1])
  }

  lemma RunSnoc(es: seq<Event>, e: Event)
    ensures Run(es + [e]) == Next(Run(es), e)
  {
    assert (es + [e])[..|es|] == es;
  }

  /** Every run is a history of store calls, so what Calls proves of every
      history (fencing, head of line, the budget) holds of every run. */
  function History(es: seq<Event>): seq<C.Call> {
    if es == [] then [] else History(es[..|es| - 1]) + CallsOf(Run(es[..|es| - 1]), es[|es| - 1])
  }

  lemma {:induction false} AfterRun(calls: seq<C.Call>, more: seq<C.Call>)
    ensures C.Run(calls + more) == After(C.Run(calls), more)
    decreases |more|
  {
    if more == [] {
      assert calls + more == calls;
    } else {
      assert calls + more == (calls + [more[0]]) + more[1..];
      assert (calls + [more[0]])[..|calls|] == calls;
      AfterRun(calls + [more[0]], more[1..]);
    }
  }

  lemma NextWorld(s: State, e: Event)
    ensures Next(s, e).w == After(s.w, CallsOf(s, e))
  {
    match e {
      case Other(_) =>
      case Step(_, _) =>
      case _ =>
    }
  }

  lemma NextWorldOne(s: State, e: Event, call: C.Call)
    requires CallsOf(s, e) == [call]
    ensures Next(s, e).w == C.Next(s.w, call)
  {
    NextWorld(s, e);
    assert [call][1..] == [];
    assert After(C.Next(s.w, call), []) == C.Next(s.w, call);
  }

  lemma {:induction false} RunsAreHistories(es: seq<Event>)
    ensures C.Run(History(es)) == Run(es).w
  {
    if es != [] {
      var before := es[..|es| - 1];
      RunsAreHistories(before);
      AfterRun(History(before), CallsOf(Run(before), es[|es| - 1]));
      NextWorld(Run(before), es[|es| - 1]);
    }
  }
}
