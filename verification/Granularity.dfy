/** The two granularities agree: an actor of the protocol left to itself does
    exactly what the whole function does. */
module Granularity {
  import opened Records
  import opened Submissions
  import opened StoreModel
  import opened Handoff
  import opened CoordinatorSpec
  import opened Settlement
  import C = Calls

  function Effected(st: Store, call: C.Call): Store {
    match call
    case Append(conv, recs) => AppendTo(st, conv, recs)
    case Do(id, op) => Apply(st, id, op)
    case _ => st
  }

  predicate Mints(pc: Pc) { pc.AppendSettled? || pc.WakeOutcomeAppend? }

  /** One step of an actor, with the ULID it mints if it mints one. */
  function Solo(sys: Sys, a: Actor): (Sys, Option<Actor>)
    requires a.child in sys.st.rows
  {
    var st' := match Effect(sys.st, a, sys.ulid)
               case Some(call) => Effected(sys.st, call)
               case None => sys.st;
    (Sys(st', if Mints(a.pc) then sys.ulid + 1 else sys.ulid), Advance(sys.st, a))
  }

  /** A step alone is the protocol's step of that actor. */
  lemma SoloIsAStep(s: State, k: nat, ulid: RecordId)
    requires Enabled(s, Step(k, ulid))
    ensures var (sys', a') := Solo(Sys(s.w.st, ulid), s.acts[k]);
            var s' := Next(s, Step(k, ulid));
            && s'.w.st == sys'.st
            && (a'.Some? ==> k in s'.acts && s'.acts[k] == a'.value) && (a'.None? ==> k !in s'.acts)
  {
    match Effect(s.w.st, s.acts[k], ulid) {
      case Some(call) => NextWorldOne(s, Step(k, ulid), call);
      case None => NextWorld(s, Step(k, ulid));
    }
  }

  function StepsLeft(a: Actor): nat {
    (if a.finalized && !a.pc.Finalizing? then 0 else 20) +
    match a.pc
    case ReadSettled => 12
    case AppendSettled => 11
    case WakeGet => 10
    case WakeSpawnRead => 9
    case WakeSpawnRef => 8
    case WakeSpawnAppend(_) => 7
    case WakeContent => 6
    case WakeOutcomeRead(_, _) => 5
    case WakeOutcomeAppend(_, _) => 4
    case WakeList => 3
    case WakeResume(_) => 2
    case Finalizing => 1
  }

  lemma SoloAdvances(sys: Sys, a: Actor)
    requires a.child in sys.st.rows && Solo(sys, a).1.Some?
    ensures var (sys', a') := Solo(sys, a);
            a'.value.child == a.child && a.child in sys'.st.rows && StepsLeft(a'.value) < StepsLeft(a)
  {
  }

  /** The actor runs on alone until its wake is over. */
  function RunWake(sys: Sys, a: Actor): (Sys, Option<Actor>)
    requires a.child in sys.st.rows
    decreases StepsLeft(a)
  {
    if !a.Waking() then (sys, Some(a))
    else
      var (sys', a') := Solo(sys, a);
      if a'.None? then (sys', None) else SoloAdvances(sys, a); RunWake(sys', a'.value)
  }

  /** The actor runs on alone until it stops. */
  function RunAlone(sys: Sys, a: Actor): Sys
    requires a.child in sys.st.rows
    decreases StepsLeft(a)
  {
    var (sys', a') := Solo(sys, a);
    if a'.None? then sys' else SoloAdvances(sys, a); RunAlone(sys', a'.value)
  }

  lemma {:induction false} AloneThroughTheWake(sys: Sys, a: Actor)
    requires a.child in sys.st.rows && a.Waking()
    ensures var (sys', a') := RunWake(sys, a);
            RunAlone(sys, a)
            == if a'.Some? && a'.value.child in sys'.st.rows then RunAlone(sys', a'.value) else sys'
    ensures RunWake(sys, a).1.Some? ==> RunWake(sys, a).1.value.child == a.child && a.child in RunWake(sys, a).0.st.rows
    decreases StepsLeft(a)
  {
    var (sys', a') := Solo(sys, a);
    if a'.Some? {
      SoloAdvances(sys, a);
      if a'.value.Waking() { AloneThroughTheWake(sys', a'.value); }
    }
  }

  // ---- the wake, backwards from its last call ----

  /** A row of the store, with its own conversation. */
  predicate OwnConversation(st: Store, id: SubmissionId) {
    && id in st.rows && st.rows[id].id == id && st.rows[id].parent != NONE
    && (st.rows[id].parent in st.rows ==> st.rows[st.rows[id].parent].conv != st.rows[id].conv)
  }

  function Requeued(sys: Sys, id: SubmissionId): Sys
    requires id in sys.st.rows
  {
    var r := sys.st.rows[id];
    if AllSettled(sys.st, Kids(sys.st, r.parent) - {id}) then sys.(st := Apply(sys.st, r.parent, Resume)) else sys
  }

  lemma FromList(sys: Sys, a: Actor)
    requires a.child in sys.st.rows && a.pc.WakeList?
    ensures RunWake(sys, a) == (Requeued(sys, a.child), EndWake(a))
  {
    var (sys', a') := Solo(sys, a);
    if AllSettled(sys.st, Kids(sys.st, sys.st.rows[a.child].parent) - {a.child}) {
      SoloAdvances(sys, a);
      assert a'.value.pc.WakeResume?;
      var (sys2, a2) := Solo(sys', a'.value);
      assert a2 == EndWake(a);
      assert RunWake(sys', a'.value) == (sys2, a2);
    }
  }

  /** The outcome with the content computed for the payload, unless one is there. */
  lemma FromOutcomeRead(sys: Sys, a: Actor)
    requires OwnConversation(sys.st, a.child) && sys.st.rows[a.child].parent in sys.st.rows && a.pc.WakeOutcomeRead?
    requires var r := sys.st.rows[a.child];
             var o := WakeOutcome(NONE, r, a.effective, LogOf(sys.st, r.conv)).body;
             a.pc.isError == o.isError && a.pc.content == o.content
    ensures RunWake(sys, a)
         == (Requeued(AppendOutcome(sys, sys.st.rows[a.child], a.effective), a.child), EndWake(a))
  {
    var r := sys.st.rows[a.child];
    var (sys', a') := Solo(sys, a);
    SoloAdvances(sys, a);
    if HasOutcome(LogOf(sys.st, ParentConv(sys.st, r)), r.parentCallId) {
      FromList(sys', a'.value);
    } else {
      var (sys2, a2) := Solo(sys', a'.value);
      SoloAdvances(sys', a'.value);
      assert sys2 == AppendOutcome(sys, r, a.effective);
      FromList(sys2, a2.value);
    }
  }

  lemma FromContent(sys: Sys, a: Actor)
    requires OwnConversation(sys.st, a.child) && sys.st.rows[a.child].parent in sys.st.rows && a.pc.WakeContent?
    ensures RunWake(sys, a)
         == (Requeued(AppendOutcome(sys, sys.st.rows[a.child], a.effective), a.child), EndWake(a))
  {
    var (sys', a') := Solo(sys, a);
    SoloAdvances(sys, a);
    FromOutcomeRead(sys', a'.value);
  }

  lemma FromSpawnRef(sys: Sys, a: Actor)
    requires OwnConversation(sys.st, a.child) && sys.st.rows[a.child].parent in sys.st.rows && a.pc.WakeSpawnRef?
    requires !HasSpawn(LogOf(sys.st, ParentConv(sys.st, sys.st.rows[a.child])), sys.st.rows[a.child].parentCallId)
    ensures var sys1 := sys.(st := RepairSpawn(sys.st, sys.st.rows[a.child]));
            && sys1.st.rows == sys.st.rows
            && RunWake(sys, a)
               == (Requeued(AppendOutcome(sys1, sys.st.rows[a.child], a.effective), a.child), EndWake(a))
  {
    var (sys2, a2) := Solo(sys, a);
    SoloAdvances(sys, a);
    assert RunWake(sys, a) == RunWake(sys2, a2.value);
    if a2.value.pc.WakeContent? {
      FromContent(sys2, a2.value);
    } else {
      var (sys3, a3) := Solo(sys2, a2.value);
      SoloAdvances(sys2, a2.value);
      assert RunWake(sys2, a2.value) == RunWake(sys3, a3.value);
      assert sys3 == sys.(st := RepairSpawn(sys.st, sys.st.rows[a.child]));
      FromContent(sys3, a3.value);
    }
  }

  lemma FromSpawnRead(sys: Sys, a: Actor)
    requires OwnConversation(sys.st, a.child) && sys.st.rows[a.child].parent in sys.st.rows && a.pc.WakeSpawnRead?
    ensures var sys1 := sys.(st := RepairSpawn(sys.st, sys.st.rows[a.child]));
            && sys1.st.rows == sys.st.rows
            && RunWake(sys, a)
               == (Requeued(AppendOutcome(sys1, sys.st.rows[a.child], a.effective), a.child), EndWake(a))
  {
    var (sys', a') := Solo(sys, a);
    SoloAdvances(sys, a);
    if a'.value.pc.WakeContent? {
      FromContent(sys', a'.value);
    } else {
      FromSpawnRef(sys', a'.value);
    }
  }

  /** A wake left to itself is WakeParent: the store calls of wakeParent, one after
      the other, have its effect as a whole. */
  lemma WakeAloneIsWakeParent(sys: Sys, a: Actor)
    requires OwnConversation(sys.st, a.child) && a.pc.WakeGet?
    ensures RunWake(sys, a).0 == WakeParent(sys, sys.st.rows[a.child], a.effective)
    ensures sys.st.rows[a.child].parent in sys.st.rows ==> RunWake(sys, a).1 == EndWake(a)
    ensures sys.st.rows[a.child].parent !in sys.st.rows ==> RunWake(sys, a).1 == None
  {
    var r := sys.st.rows[a.child];
    if r.parent in sys.st.rows {
      var (sys', a') := Solo(sys, a);
      if !sys.st.rows[r.parent].Terminal() {
        SoloAdvances(sys, a);
        FromSpawnRead(sys', a'.value);
      }
    }
  }

  // ---- settlement ----

  lemma {:induction false} WakeKeepsChild(sys: Sys, a: Actor)
    requires a.child in sys.st.rows
    ensures RunWake(sys, a).1.Some? ==> RunWake(sys, a).1.value.child == a.child
    ensures a.child in RunWake(sys, a).0.st.rows
    decreases StepsLeft(a)
  {
    if a.Waking() {
      var (sys', a') := Solo(sys, a);
      if a'.Some? {
        SoloAdvances(sys, a);
        WakeKeepsChild(sys', a'.value);
      }
    }
  }

  /** A settling actor from the end of its wake: the finalization, the wake again. */
  function Finish(sys: Sys, a: Actor): Sys
    requires a.child in sys.st.rows
  {
    var sys1 := sys.(st := Apply(sys.st, a.child, Finalize));
    if sys.st.rows[a.child].parent == NONE then sys1 else WakeParent(sys1, sys.st.rows[a.child], a.effective)
  }

  /** A wake sees of its child only what no call changes. */
  lemma WakeSeesIdentity(sys: Sys, r: Submission, r': Submission, payload: SettledPayload)
    requires SameIdentity(r, r')
    ensures WakeParent(sys, r, payload) == WakeParent(sys, r', payload)
  {
    var conv := if r.parent in sys.st.rows then sys.st.rows[r.parent].conv else NONE;
    assert r.parent in sys.st.rows ==> RepairSpawn(sys.st, r) == RepairSpawn(sys.st, r');
  }

  lemma FinishAlone(sys: Sys, a: Actor)
    requires a.child in sys.st.rows && sys.st.rows[a.child].id == a.child && a.pc.Finalizing?
    requires sys.st.rows[a.child].parent != NONE ==> OwnConversation(sys.st, a.child)
    ensures RunAlone(sys, a) == Finish(sys, a)
  {
    var r := sys.st.rows[a.child];
    var (sys1, a1) := Solo(sys, a);
    if r.parent != NONE {
      SoloAdvances(sys, a);
      if Applies(sys.st, a.child, Finalize) { TransitionEvolves(r, Finalize); }
      assert OwnConversation(sys1.st, a.child);
      WakeAloneIsWakeParent(sys1, a1.value);
      AloneThroughTheWake(sys1, a1.value);
      WakeSeesIdentity(sys1, r, sys1.st.rows[a.child], a.effective);
    }
  }

  lemma RecordAlone(sys: Sys, a: Actor)
    requires a.child in sys.st.rows && sys.st.rows[a.child].id == a.child && a.pc.ReadSettled?
    requires !a.finalized && (a.mode.Settling? || a.mode.Interrupted?)
    ensures var r := sys.st.rows[a.child];
            var effective := EffectivePayload(sys.st, r, a.effective);
            && a.child in RecordOnly(sys, r, a.effective).st.rows
            && RunAlone(sys, a)
               == RunAlone(RecordOnly(sys, r, a.effective),
                           a.(effective := effective, pc := if r.parent == NONE then Finalizing else WakeGet))
  {
    var (sys1, a1) := Solo(sys, a);
    SoloAdvances(sys, a);
    if a1.value.pc.AppendSettled? {
      var (sys2, a2) := Solo(sys1, a1.value);
      SoloAdvances(sys1, a1.value);
      assert RunAlone(sys1, a1.value) == RunAlone(sys2, a2.value);
    }
  }

  /** A settling actor left to itself, from its reservation on, has the effect of
      the whole settlement: record, wake, finalization, wake again. */
  lemma SettlementAloneIsComplete(sys: Sys, a: Actor)
    requires a.child in sys.st.rows && sys.st.rows[a.child].id == a.child
    requires sys.st.rows[a.child].status == Terminalizing
    requires sys.st.rows[a.child].parent != NONE ==> OwnConversation(sys.st, a.child)
    requires a.pc.ReadSettled? && !a.finalized && (a.mode.Settling? || a.mode.Interrupted?)
    ensures RunAlone(sys, a) == Complete(sys, sys.st.rows[a.child], a.effective)
  {
    var r := sys.st.rows[a.child];
    var effective := EffectivePayload(sys.st, r, a.effective);
    var sys0 := RecordOnly(sys, r, a.effective);
    var b := a.(effective := effective, pc := if r.parent == NONE then Finalizing else WakeGet);
    RecordAlone(sys, a);
    if r.parent == NONE {
      FinishAlone(sys0, b);
    } else {
      WakeThenFinish(sys0, b);
      if r.parent in sys.st.rows { FinishIsComplete(sys, r, a.effective, b.(pc := Finalizing)); }
    }
  }

  lemma FinishIsComplete(sys: Sys, r: Submission, payload: SettledPayload, b: Actor)
    requires r.id in sys.st.rows && sys.st.rows[r.id] == r && r.status == Terminalizing
    requires r.parent != NONE && r.parent in sys.st.rows && OwnConversation(sys.st, r.id)
    requires b.child == r.id && b.effective == EffectivePayload(sys.st, r, payload)
    ensures b.child in SettledRecordOnce(sys, r, payload).st.rows
    ensures Finish(SettledRecordOnce(sys, r, payload), b) == Complete(sys, r, payload)
  {
    RecordOnceRow(sys, r, payload);
    FinishWith(SettledRecordOnce(sys, r, payload), b, r);
  }

  lemma RecordOnceRow(sys: Sys, r: Submission, payload: SettledPayload)
    requires r.id in sys.st.rows && sys.st.rows[r.id] == r && r.Terminal()
    ensures var st' := SettledRecordOnce(sys, r, payload).st;
            r.id in st'.rows && SameIdentity(st'.rows[r.id], r) && st'.rows[r.id].Terminal()
  {
    WakeFrame(RecordOnly(sys, r, payload), r, EffectivePayload(sys.st, r, payload));
  }

  /** Finish names the row as it is now; any version of it will do. */
  lemma FinishWith(sys: Sys, b: Actor, r: Submission)
    requires b.child in sys.st.rows && b.child == r.id && sys.st.rows[b.child].Terminal()
    requires SameIdentity(sys.st.rows[b.child], r) && r.parent != NONE
    ensures Finish(sys, b) == FinalizeAndWake(sys, r, b.effective)
  {
    WakeSeesIdentity(sys.(st := Apply(sys.st, b.child, Finalize)), sys.st.rows[b.child], r, b.effective);
  }

  lemma WakeThenFinish(sys: Sys, a: Actor)
    requires OwnConversation(sys.st, a.child) && a.pc.WakeGet?
    requires !a.finalized && (a.mode.Settling? || a.mode.Interrupted?)
    ensures var sys' := WakeParent(sys, sys.st.rows[a.child], a.effective);
            && a.child in sys'.st.rows && SameIdentity(sys.st.rows[a.child], sys'.st.rows[a.child])
            && RunAlone(sys, a)
               == if sys.st.rows[a.child].parent in sys.st.rows then Finish(sys', a.(pc := Finalizing)) else sys'
  {
    var r := sys.st.rows[a.child];
    var sys' := WakeParent(sys, r, a.effective);
    WakeFrame(sys, r, a.effective);
    WakeAloneIsWakeParent(sys, a);
    AloneThroughTheWake(sys, a);
    if r.parent in sys.st.rows {
      assert OwnConversation(sys'.st, a.child);
      FinishAlone(sys', a.(pc := Finalizing));
    }
  }
}
