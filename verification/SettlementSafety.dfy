/** Safety of settlement and of the wake over every run of the protocol. */
module SettlementSafety {
  import opened Records
  import opened Submissions
  import opened StoreModel
  import opened Handoff
  import opened Settlement
  import opened Reducer
  import C = Calls

  // ---- changes that settle nothing ----

  /** No terminal row moves and no settled record lands. */
  ghost predicate Quiet(st: Store, st': Store) {
    && C.StoreEvolves(st, st')
    && (forall id :: id in st.rows && st.rows[id].Terminal() ==> st'.rows[id].status == st.rows[id].status)
    && (forall conv, i :: |LogOf(st, conv)| <= i < |LogOf(st', conv)| ==>
          !LogOf(st', conv)[i].body.SubmissionSettled?)
  }

  lemma QuietCall(w: C.World, call: C.Call)
    requires Allowed(call) || (call.Do? && call.op.Reserve?)
    ensures Quiet(w.st, C.Next(w, call).st)
  {
    C.NextEvolves(w, call);
  }

  lemma {:induction false} NothingSettledIn(more: Log, id: SubmissionId)
    requires forall i :: 0 <= i < |more| ==> !more[i].body.SubmissionSettled?
    ensures Recorded(more, id) == None && SettledCount(more, id) == 0
  {
    if more != [] {
      NothingSettledIn(more[1..], id);
    }
  }

  lemma QuietRecords(st: Store, st': Store, conv: ConversationId, id: SubmissionId)
    requires Quiet(st, st')
    ensures LogOf(st, conv) <= LogOf(st', conv)
    ensures Recorded(LogOf(st', conv), id) == Recorded(LogOf(st, conv), id)
    ensures SettledCount(LogOf(st', conv), id) == SettledCount(LogOf(st, conv), id)
  {
    var log, log' := LogOf(st, conv), LogOf(st', conv);
    assert log <= log';
    var more := log'[|log|..];
    assert log' == log + more;
    NothingSettledIn(more, id);
    RecordedAppend(log, more, id);
  }

  lemma AnsweredStays(st: Store, st': Store, id: SubmissionId)
    requires C.StoreEvolves(st, st') && id in st.rows && Answered(st, id)
    ensures Answered(st', id)
  {
    var r := st.rows[id];
    assert Evolves(r, st'.rows[id]);
    if r.parent != NONE {
      assert Evolves(st.rows[r.parent], st'.rows[r.parent]);
      OutcomeStays(st, st', ParentConv(st, r), r.parentCallId);
    }
  }

  lemma OutcomeStays(st: Store, st': Store, conv: ConversationId, callId: CallId)
    requires C.StoreEvolves(st, st')
    ensures HasOutcome(LogOf(st, conv), callId) ==> HasOutcome(LogOf(st', conv), callId)
  {
    if HasOutcome(LogOf(st, conv), callId) {
      var log, log' := LogOf(st, conv), LogOf(st', conv);
      var i :| 0 <= i < |log| && log[i].body.ToolOutcome? && log[i].body.callId == callId;
      assert log <= log';
      assert log'[i] == log[i];
    }
  }

  // ---- what every actor knows ----

  ghost predicate ModeOk(a: Actor, status: Status) {
    match a.mode
    case Settling => status == (if a.finalized then Settled else Terminalizing)
    case Interrupted => status == (if a.finalized then Settled else Terminalizing)
    case Cancelled => status == Settled && !a.finalized && !a.pc.Finalizing?
    case Backstop => status == Settled && !a.finalized && a.Waking()
  }

  /** The text was the answer of the conversation when it held n records. */
  ghost predicate AnswerAt(log: Log, n: nat, answer: Text) {
    n <= |log| && IsAnswer(ActivePath(log[..n]), answer)
  }

  ghost predicate HadAnswer(log: Log, answer: Text) {
    exists n: nat :: AnswerAt(log, n, answer)
  }

  /** The content tells the payload, and an answer the child's conversation had. */
  ghost predicate Carries(payload: SettledPayload, childLog: Log, isError: bool, content: Text) {
    isError == (payload.status == Failed)
    && exists answer :: HadAnswer(childLog, answer) && Tells(content, payload, answer)
  }

  lemma CarriesStays(payload: SettledPayload, log: Log, log': Log, isError: bool, content: Text)
    requires Carries(payload, log, isError, content) && log <= log'
    ensures Carries(payload, log', isError, content)
  {
    var answer :| HadAnswer(log, answer) && Tells(content, payload, answer);
    var n: nat :| AnswerAt(log, n, answer);
    assert log'[..n] == log[..n];
    assert AnswerAt(log', n, answer);
  }

  lemma OutcomeCarries(child: Submission, payload: SettledPayload, childLog: Log)
    ensures var body := WakeOutcome(NONE, child, payload, childLog).body;
            Carries(payload, childLog, body.isError, body.content)
  {
    OutcomeReports(NONE, child, payload, childLog);
    var body := WakeOutcome(NONE, child, payload, childLog).body;
    var answer :| IsAnswer(ActivePath(childLog), answer) && Tells(body.content, payload, answer);
    assert childLog[..|childLog|] == childLog;
    assert AnswerAt(childLog, |childLog|, answer);
  }

  ghost predicate WakeOk(st: Store, a: Actor)
    requires a.child in st.rows
  {
    var r := st.rows[a.child];
    && (a.Waking() ==> r.parent != NONE)
    && (a.Waking() && !a.pc.WakeGet? ==> r.parent in st.rows)
    && (a.pc.WakeOutcomeRead? || a.pc.WakeOutcomeAppend? ==>
          Carries(a.effective, LogOf(st, r.conv), a.pc.isError, a.pc.content))
    && (a.pc.WakeList? || a.pc.WakeResume? ==> HasOutcome(LogOf(st, ParentConv(st, r)), r.parentCallId))
    && (a.pc.WakeResume? ==> a.child in a.pc.listed)
    && (a.pc.WakeResume? ==> forall k :: k in a.pc.listed ==>
          k in st.rows && st.rows[k].parent == r.parent && (k == a.child || st.rows[k].status == Settled))
  }

  ghost predicate ActorOk(st: Store, a: Actor) {
    && a.child in st.rows
    && ModeOk(a, st.rows[a.child].status)
    && (a.finalized ==> a.Waking())
    && (a.pc.AppendSettled? ==> Recorded(LogOf(st, st.rows[a.child].conv), a.child) == None)
    && (!a.Authoring() && !a.mode.Backstop? ==>
          Recorded(LogOf(st, st.rows[a.child].conv), a.child) == Some(a.effective))
    && WakeOk(st, a)
    && (a.pc.Finalizing? || a.finalized ==> Answered(st, a.child))
  }

  lemma WakeOkStays(st: Store, st': Store, a: Actor)
    requires C.StoreEvolves(st, st') && a.child in st.rows && WakeOk(st, a)
    ensures WakeOk(st', a)
  {
    var r := st.rows[a.child];
    assert Evolves(r, st'.rows[a.child]);
    OutcomeStays(st, st', ParentConv(st, r), r.parentCallId);
    if a.pc.WakeOutcomeRead? || a.pc.WakeOutcomeAppend? {
      CarriesStays(a.effective, LogOf(st, r.conv), LogOf(st', r.conv), a.pc.isError, a.pc.content);
    }
    if a.Waking() && !a.pc.WakeGet? {
      assert Evolves(st.rows[r.parent], st'.rows[r.parent]);
    }
    if a.pc.WakeResume? {
      forall k | k in a.pc.listed
        ensures k in st'.rows && st'.rows[k].parent == r.parent && (k == a.child || st'.rows[k].status == Settled)
      {
        assert Evolves(st.rows[k], st'.rows[k]);
      }
    }
  }

  lemma QuietActor(st: Store, st': Store, a: Actor)
    requires Quiet(st, st') && ActorOk(st, a)
    ensures ActorOk(st', a)
  {
    assert Evolves(st.rows[a.child], st'.rows[a.child]);
    QuietRecords(st, st', st.rows[a.child].conv, a.child);
    WakeOkStays(st, st', a);
    if a.pc.Finalizing? || a.finalized {
      AnsweredStays(st, st', a.child);
    }
  }

  // ---- the invariant ----

  /** At most one actor may still author or finalize a row. */
  ghost predicate OneOwner(acts: map<nat, Actor>) {
    forall k, k' | k in acts && k' in acts && acts[k].Owner() && acts[k'].Owner() ::
      acts[k].child == acts[k'].child ==> k == k'
  }

  /** A row the startup scan named waits for its finalizer alone. */
  ghost predicate StuckOk(s: State) {
    forall id :: id in s.stuck ==>
      && id in s.w.st.rows && s.w.st.rows[id].status == Terminalizing
      && forall k :: k in s.acts && s.acts[k].Owner() ==> s.acts[k].child != id
  }

  ghost predicate CountsOk(st: Store) {
    forall id :: id in st.rows ==>
      SettledCount(LogOf(st, st.rows[id].conv), id) <= (if st.rows[id].Open() then 0 else 1)
  }

  /** Settled records name admitted rows, in the conversation of the row. */
  ghost predicate NoStrays(st: Store) {
    forall conv, i :: 0 <= i < |LogOf(st, conv)| && LogOf(st, conv)[i].body.SubmissionSettled? ==>
      LogOf(st, conv)[i].sub in st.rows && st.rows[LogOf(st, conv)[i].sub].conv == conv
  }

  ghost predicate ThroughOk(s: State) {
    forall id :: id in s.through ==>
      && id in s.w.st.rows && s.w.st.rows[id].status == Settled
      && SettledCount(LogOf(s.w.st, s.w.st.rows[id].conv), id) == 1
  }

  /** A settled child is answered, unless a cancel closed it under an open parent. */
  ghost predicate SettledAreAnswered(st: Store, voided: set<SubmissionId>) {
    forall id :: id in st.rows && st.rows[id].status == Settled && id !in voided ==> Answered(st, id)
  }

  ghost predicate ActorsOk(s: State) {
    forall k :: k in s.acts ==> ActorOk(s.w.st, s.acts[k])
  }

  ghost predicate Inv(s: State) {
    && ActorsOk(s) && OneOwner(s.acts) && StuckOk(s) && CountsOk(s.w.st) && NoStrays(s.w.st)
    && ThroughOk(s) && SettledAreAnswered(s.w.st, s.voided)
  }

  // ---- what a quiet change keeps ----

  lemma QuietKeepsCounts(st: Store, st': Store)
    requires Quiet(st, st') && CountsOk(st) && NoStrays(st)
    ensures NoStrays(st')
    ensures CountsOk(st')
  {
    forall conv, i | 0 <= i < |LogOf(st', conv)| && LogOf(st', conv)[i].body.SubmissionSettled?
      ensures LogOf(st', conv)[i].sub in st'.rows && st'.rows[LogOf(st', conv)[i].sub].conv == conv
    {
      QuietRecords(st, st', conv, NONE);
      assert i < |LogOf(st, conv)|;
      assert LogOf(st', conv)[i] == LogOf(st, conv)[i];
      assert Evolves(st.rows[LogOf(st, conv)[i].sub], st'.rows[LogOf(st, conv)[i].sub]);
    }
    forall id | id in st'.rows
      ensures SettledCount(LogOf(st', st'.rows[id].conv), id) <= (if st'.rows[id].Open() then 0 else 1)
    {
      QuietRecords(st, st', st'.rows[id].conv, id);
      if id in st.rows {
        assert Evolves(st.rows[id], st'.rows[id]);
      } else {
        NoRecordOfStranger(st, st'.rows[id].conv, id);
      }
    }
  }

  lemma NoRecordOfStranger(st: Store, conv: ConversationId, id: SubmissionId)
    requires NoStrays(st) && id !in st.rows
    ensures SettledCount(LogOf(st, conv), id) == 0
  {
    var log := LogOf(st, conv);
    forall i | 0 <= i < |log|
      ensures !IsSettledOf(log[i], id)
    {
    }
  }

  lemma QuietKeepsThrough(s: State, s': State)
    requires Quiet(s.w.st, s'.w.st) && ThroughOk(s) && s'.through == s.through
    ensures ThroughOk(s')
  {
    forall id | id in s'.through
      ensures id in s'.w.st.rows && s'.w.st.rows[id].status == Settled
           && SettledCount(LogOf(s'.w.st, s'.w.st.rows[id].conv), id) == 1
    {
      assert Evolves(s.w.st.rows[id], s'.w.st.rows[id]);
      QuietRecords(s.w.st, s'.w.st, s.w.st.rows[id].conv, id);
    }
  }

  /** The rows a quiet change settles are answered or voided. */
  ghost predicate NewlySettledOk(st: Store, st': Store, voided: set<SubmissionId>) {
    forall id :: id in st'.rows && st'.rows[id].status == Settled && id !in voided ==>
      (id in st.rows && st.rows[id].status == Settled) || Answered(st', id)
  }

  lemma QuietKeepsAnswers(st: Store, st': Store, voided: set<SubmissionId>, voided': set<SubmissionId>)
    requires Quiet(st, st') && SettledAreAnswered(st, voided) && voided <= voided'
    requires NewlySettledOk(st, st', voided')
    ensures SettledAreAnswered(st', voided')
  {
    forall id | id in st'.rows && st'.rows[id].status == Settled && id !in voided'
      ensures Answered(st', id)
    {
      if id in st.rows && st.rows[id].status == Settled {
        AnsweredStays(st, st', id);
      }
    }
  }

  lemma QuietKeepsActors(s: State, s': State)
    requires Quiet(s.w.st, s'.w.st) && ActorsOk(s)
    requires forall k :: k in s'.acts ==> (k in s.acts && s'.acts[k] == s.acts[k]) || ActorOk(s'.w.st, s'.acts[k])
    ensures ActorsOk(s')
  {
    forall k | k in s'.acts
      ensures ActorOk(s'.w.st, s'.acts[k])
    {
      if k in s.acts && s'.acts[k] == s.acts[k] {
        QuietActor(s.w.st, s'.w.st, s.acts[k]);
      }
    }
  }

  lemma QuietKeepsInv(s: State, s': State)
    requires Inv(s) && Quiet(s.w.st, s'.w.st)
    requires s'.through == s.through && s.voided <= s'.voided
    requires NewlySettledOk(s.w.st, s'.w.st, s'.voided)
    requires forall k :: k in s'.acts ==> (k in s.acts && s'.acts[k] == s.acts[k]) || ActorOk(s'.w.st, s'.acts[k])
    requires OneOwner(s'.acts) && StuckOk(s')
    ensures Inv(s')
  {
    QuietKeepsCounts(s.w.st, s'.w.st);
    QuietKeepsThrough(s, s');
    QuietKeepsAnswers(s.w.st, s'.w.st, s.voided, s'.voided);
    QuietKeepsActors(s, s');
  }

  // ---- each event keeps the invariant ----

  lemma OpenRowsAreNotOwned(s: State, id: SubmissionId)
    requires ActorsOk(s) && id in s.w.st.rows && s.w.st.rows[id].Open()
    ensures forall k :: k in s.acts && s.acts[k].Owner() ==> s.acts[k].child != id
    ensures StuckOk(s) ==> id !in s.stuck
  {
    forall k | k in s.acts && s.acts[k].Owner()
      ensures s.acts[k].child != id
    {
      assert ActorOk(s.w.st, s.acts[k]);
    }
  }

  lemma StuckStays(s: State, s': State)
    requires StuckOk(s) && s'.stuck <= s.stuck && Quiet(s.w.st, s'.w.st)
    requires forall k :: k in s'.acts && s'.acts[k].Owner() ==>
      (k in s.acts && s.acts[k].Owner() && s.acts[k].child == s'.acts[k].child) || s'.acts[k].child !in s'.stuck
    ensures StuckOk(s')
  {
  }

  lemma AddActor(s: State, s': State, k: nat, a: Actor)
    requires OneOwner(s.acts) && StuckOk(s) && Quiet(s.w.st, s'.w.st)
    requires k !in s.acts && s'.acts == s.acts[k := a] && s'.stuck <= s.stuck
    requires a.Owner() ==>
               a.child !in s'.stuck && forall j :: j in s.acts && s.acts[j].Owner() ==> s.acts[j].child != a.child
    ensures OneOwner(s'.acts) && StuckOk(s')
  {
    StuckStays(s, s');
  }

  lemma AddActorKeepsInv(s: State, s': State, k: nat, a: Actor)
    requires Inv(s) && Quiet(s.w.st, s'.w.st)
    requires s'.through == s.through && s.voided <= s'.voided
    requires NewlySettledOk(s.w.st, s'.w.st, s'.voided)
    requires k !in s.acts && s'.acts == s.acts[k := a] && s'.stuck <= s.stuck
    requires a.Owner() ==>
               a.child !in s'.stuck && forall j :: j in s.acts && s.acts[j].Owner() ==> s.acts[j].child != a.child
    requires ActorOk(s'.w.st, a)
    ensures Inv(s')
  {
    AddActor(s, s', k, a);
    QuietKeepsInv(s, s');
  }

  /** A call by another party settles a row only by a cancel, which voids it. */
  lemma CallSettlesByCancel(s: State, call: C.Call)
    requires Allowed(call)
    ensures NewlySettledOk(s.w.st, C.Next(s.w, call).st, s.voided + Voids(s, Other(call)))
  {
  }

  lemma OtherKeepsInv(s: State, call: C.Call)
    requires Inv(s) && Allowed(call)
    ensures Inv(Next(s, Other(call)))
  {
    var s' := Next(s, Other(call));
    OtherLeavesActors(s, call);
    QuietCall(s.w, call);
    CallSettlesByCancel(s, call);
    StuckStays(s, s');
    QuietKeepsInv(s, s');
  }

  lemma OtherLeavesActors(s: State, call: C.Call)
    requires Allowed(call)
    ensures var s' := Next(s, Other(call));
            && s'.w == C.Next(s.w, call) && s'.acts == s.acts && s'.stuck == s.stuck && s'.through == s.through
            && s'.voided == s.voided + Voids(s, Other(call))
  {
    NextWorldOne(s, Other(call), call);
  }

  lemma ReserveKeepsInv(s: State, e: Event)
    requires Inv(s) && e.Reserve? && Enabled(s, e)
    ensures Inv(Next(s, e))
  {
    var s' := Next(s, e);
    var call := C.Do(e.id, RowOp.Reserve(e.attempt));
    NextWorldOne(s, e, call);
    QuietCall(s.w, call);
    OpenRowsAreNotOwned(s, e.id);
    ReserverOk(s, e);
    AddActorKeepsInv(s, s', e.k, s'.acts[e.k]);
  }

  lemma ReserverOk(s: State, e: Event)
    requires e.Reserve? && Enabled(s, e)
    ensures var a := Actor(Settling, e.id, e.payload, false, ReadSettled);
            && Next(s, e).acts == s.acts[e.k := a] && ActorOk(Next(s, e).w.st, a)
            && NewlySettledOk(s.w.st, Next(s, e).w.st, Next(s, e).voided)
  {
    NextWorldOne(s, e, C.Do(e.id, RowOp.Reserve(e.attempt)));
  }

  lemma CascadeCancelKeepsInv(s: State, e: Event)
    requires Inv(s) && e.CascadeCancel? && Enabled(s, e)
    ensures Inv(Next(s, e))
  {
    var s' := Next(s, e);
    var call := C.Do(e.id, Cancel(e.reason));
    NextWorldOne(s, e, call);
    QuietCall(s.w, call);
    OpenRowsAreNotOwned(s, e.id);
    assert NewlySettledOk(s.w.st, s'.w.st, s'.voided);
    if s.w.st.rows[e.id].status == Running {
      StuckStays(s, s');
      QuietKeepsInv(s, s');
    } else {
      AddActorKeepsInv(s, s', e.k, s'.acts[e.k]);
    }
  }

  lemma ReclaimWorld(s: State, e: Event)
    requires e.ReclaimFlagged? && Enabled(s, e)
    ensures Next(s, e).w == C.Next(C.Next(s.w, C.Do(e.id, Release(e.attempt, ""))),
                                   C.Do(e.id, Cancel("cancelled: parent settled")))
  {
    var c1, c2 := C.Do(e.id, Release(e.attempt, "")), C.Do(e.id, Cancel("cancelled: parent settled"));
    NextWorld(s, e);
    assert CallsOf(s, e) == [c1, c2];
    assert [c1, c2][1..] == [c2] && [c2][1..] == [];
    assert After(C.Next(s.w, c1), [c2]) == After(C.Next(C.Next(s.w, c1), c2), []);
  }

  /** Release then cancel: the store after a reclaim of a flagged row. */
  lemma ReclaimStore(s: State, e: Event)
    requires e.ReclaimFlagged? && Enabled(s, e)
    ensures Quiet(s.w.st, Next(s, e).w.st)
    ensures NewlySettledOk(s.w.st, Next(s, e).w.st, s.voided + Voids(s, e))
    ensures Next(s, e).w.st.rows[e.id].status == Settled
  {
    ReclaimWorld(s, e);
    var r := s.w.st.rows[e.id];
    var st' := Next(s, e).w.st;
    var r' := Transition(Transition(r, Release(e.attempt, "")).value, Cancel("cancelled: parent settled")).value;
    assert st' == s.w.st.(rows := s.w.st.rows[e.id := r']);
    assert Evolves(r, r') && r'.status == Settled;
  }

  lemma ReclaimKeepsInv(s: State, e: Event)
    requires Inv(s) && e.ReclaimFlagged? && Enabled(s, e)
    ensures Inv(Next(s, e))
  {
    var s' := Next(s, e);
    ReclaimStore(s, e);
    OpenRowsAreNotOwned(s, e.id);
    AddActorKeepsInv(s, s', e.k, s'.acts[e.k]);
  }

  lemma QuietRefl(st: Store)
    ensures Quiet(st, st)
  {
  }

  lemma BeginKeepsInv(s: State, e: Event)
    requires Inv(s) && (e.BeginFinalize? || e.BeginBackstop?) && Enabled(s, e)
    ensures Inv(Next(s, e))
  {
    var s' := Next(s, e);
    QuietRefl(s.w.st);
    AddActorKeepsInv(s, s', e.k, s'.acts[e.k]);
  }

  lemma EndKeepsInv(s: State, e: Event)
    requires Inv(s) && (e.Abort? || e.Crash?) && Enabled(s, e)
    ensures Inv(Next(s, e))
  {
    QuietRefl(s.w.st);
    QuietKeepsInv(s, Next(s, e));
  }

  // ---- an actor's own steps ----

  lemma AdvanceKeepsOwner(st: Store, a: Actor)
    requires a.child in st.rows && Advance(st, a).Some?
    ensures Advance(st, a).value.child == a.child
    ensures Advance(st, a).value.Owner() ==> a.Owner()
  {
  }

  lemma ReadStepOk(st: Store, a: Actor)
    requires ActorOk(st, a) && a.pc.ReadSettled? && Advance(st, a).Some?
    ensures ActorOk(st, Advance(st, a).value)
  {
  }

  lemma WakeReadStepOk(st: Store, a: Actor)
    requires ActorOk(st, a) && Advance(st, a).Some?
    requires a.pc.WakeGet? || a.pc.WakeSpawnRead? || a.pc.WakeSpawnRef? || a.pc.WakeContent? || a.pc.WakeOutcomeRead?
    ensures ActorOk(st, Advance(st, a).value)
  {
    if a.pc.WakeContent? { OutcomeCarries(st.rows[a.child], a.effective, LogOf(st, st.rows[a.child].conv)); }
  }

  lemma WakeListStepOk(st: Store, a: Actor)
    requires ActorOk(st, a) && Advance(st, a).Some? && a.pc.WakeList?
    ensures ActorOk(st, Advance(st, a).value)
  {
    var kids := Kids(st, st.rows[a.child].parent);
    assert forall id :: id in kids && id != a.child ==> id in kids - {a.child};
  }

  lemma WakeWriteStepOk(w: C.World, a: Actor, newId: RecordId)
    requires ActorOk(w.st, a) && Advance(w.st, a).Some?
    requires a.pc.WakeSpawnAppend? || a.pc.WakeOutcomeAppend? || a.pc.WakeResume?
    ensures ActorOk(C.Next(w, Effect(w.st, a, newId).value).st, Advance(w.st, a).value)
  {
    var call := Effect(w.st, a, newId).value;
    var st' := C.Next(w, call).st;
    QuietCall(w, call);
    QuietActor(w.st, st', a);
    if a.pc.WakeOutcomeAppend? { OutcomeLands(w, a, newId); }
    WrittenStepOk(w.st, st', a);
  }

  /** The outcome an actor appends is then in the parent's log. */
  lemma OutcomeLands(w: C.World, a: Actor, newId: RecordId)
    requires a.child in w.st.rows && a.pc.WakeOutcomeAppend?
    ensures var r := w.st.rows[a.child];
            HasOutcome(LogOf(C.Next(w, Effect(w.st, a, newId).value).st, ParentConv(w.st, r)), r.parentCallId)
  {
    var r := w.st.rows[a.child];
    var log' := LogOf(C.Next(w, Effect(w.st, a, newId).value).st, ParentConv(w.st, r));
    assert log'[|log'| - 1].body.callId == r.parentCallId;
  }

  lemma WrittenStepOk(st: Store, st': Store, a: Actor)
    requires C.StoreEvolves(st, st') && ActorOk(st, a) && ActorOk(st', a) && Advance(st, a).Some?
    requires a.pc.WakeSpawnAppend? || a.pc.WakeOutcomeAppend? || a.pc.WakeResume?
    requires a.pc.WakeOutcomeAppend? ==>
               HasOutcome(LogOf(st', ParentConv(st, st.rows[a.child])), st.rows[a.child].parentCallId)
    ensures ActorOk(st', Advance(st, a).value)
  {
    match a.pc {
      case WakeSpawnAppend(_) => assert ActorOk(st', a.(pc := WakeContent));
      case WakeOutcomeAppend(_, _) => AnsweredStepOk(st, st', a);
      case WakeResume(_) => FinishedStepOk(st', a);
    }
  }

  lemma AnsweredStepOk(st: Store, st': Store, a: Actor)
    requires C.StoreEvolves(st, st') && ActorOk(st, a) && ActorOk(st', a) && a.pc.WakeOutcomeAppend?
    requires HasOutcome(LogOf(st', ParentConv(st, st.rows[a.child])), st.rows[a.child].parentCallId)
    ensures ActorOk(st', a.(pc := WakeList))
  {
    var parent := st.rows[a.child].parent;
    assert Evolves(st.rows[a.child], st'.rows[a.child]) && Evolves(st.rows[parent], st'.rows[parent]);
  }

  lemma FinishedStepOk(st: Store, a: Actor)
    requires ActorOk(st, a) && a.pc.WakeResume? && EndWake(a).Some?
    ensures ActorOk(st, EndWake(a).value)
  {
  }

  /** The steps that settle nothing. */
  lemma QuietStepKeepsInv(s: State, e: Event)
    requires Inv(s) && e.Step? && Enabled(s, e)
    requires !s.acts[e.k].pc.AppendSettled? && !s.acts[e.k].pc.Finalizing?
    ensures Inv(Next(s, e))
  {
    var s' := Next(s, e);
    QuietStepStore(s, e);
    if Advance(s.w.st, s.acts[e.k]).Some? { QuietStepActor(s, e); }
    QuietStepOwners(s, e);
    QuietKeepsInv(s, s');
  }

  lemma QuietStepOwners(s: State, e: Event)
    requires OneOwner(s.acts) && StuckOk(s) && e.Step? && Enabled(s, e) && Quiet(s.w.st, Next(s, e).w.st)
    ensures OneOwner(Next(s, e).acts) && StuckOk(Next(s, e))
  {
    if Advance(s.w.st, s.acts[e.k]).Some? { AdvanceKeepsOwner(s.w.st, s.acts[e.k]); }
    StuckStays(s, Next(s, e));
  }

  lemma QuietStepStore(s: State, e: Event)
    requires e.Step? && Enabled(s, e)
    requires !s.acts[e.k].pc.AppendSettled? && !s.acts[e.k].pc.Finalizing?
    ensures Quiet(s.w.st, Next(s, e).w.st)
    ensures NewlySettledOk(s.w.st, Next(s, e).w.st, s.voided)
    ensures match Effect(s.w.st, s.acts[e.k], e.newId)
            case Some(call) => Next(s, e).w == C.Next(s.w, call)
            case None => Next(s, e).w == s.w
  {
    match Effect(s.w.st, s.acts[e.k], e.newId) {
      case Some(call) =>
        NextWorldOne(s, e, call);
        QuietCall(s.w, call);
      case None =>
        NextWorld(s, e);
    }
  }

  lemma QuietStepActor(s: State, e: Event)
    requires e.Step? && Enabled(s, e) && ActorOk(s.w.st, s.acts[e.k])
    requires !s.acts[e.k].pc.AppendSettled? && !s.acts[e.k].pc.Finalizing?
    requires Advance(s.w.st, s.acts[e.k]).Some?
    ensures ActorOk(Next(s, e).w.st, Advance(s.w.st, s.acts[e.k]).value)
  {
    var a := s.acts[e.k];
    QuietStepStore(s, e);
    match a.pc {
      case ReadSettled => ReadStepOk(s.w.st, a);
      case WakeList => WakeListStepOk(s.w.st, a);
      case WakeSpawnAppend(_) => WakeWriteStepOk(s.w, a, e.newId);
      case WakeOutcomeAppend(_, _) => WakeWriteStepOk(s.w, a, e.newId);
      case WakeResume(_) => WakeWriteStepOk(s.w, a, e.newId);
      case _ => WakeReadStepOk(s.w.st, a);
    }
  }

  // ---- the settled record ----

  /** The store with one settled record more. */
  lemma AppendedRecords(st: Store, conv: ConversationId, rec: Record, other: ConversationId, id: SubmissionId)
    requires rec.body.SubmissionSettled?
    ensures var st' := AppendTo(st, conv, [rec]);
            C.StoreEvolves(st, st')
            && (other != conv || id != rec.sub ==>
                  Recorded(LogOf(st', other), id) == Recorded(LogOf(st, other), id)
                  && SettledCount(LogOf(st', other), id) == SettledCount(LogOf(st, other), id))
            && (other == conv && id == rec.sub ==>
                  SettledCount(LogOf(st', conv), id) == SettledCount(LogOf(st, conv), id) + 1
                  && (Recorded(LogOf(st, conv), id) == None ==>
                        Recorded(LogOf(st', conv), id) == Some(rec.body.payload)))
  {
    RecordedAppend(LogOf(st, conv), [rec], id);
    assert [rec][1..] == [];
    assert SettledCount([], id) == 0;
  }

  /** An actor on another row, or one that relies on no record, is unaffected. */
  lemma AppendKeepsActor(st: Store, conv: ConversationId, rec: Record, b: Actor)
    requires ActorOk(st, b) && rec.body.SubmissionSettled? && (b.child != rec.sub || b.mode.Backstop?)
    ensures ActorOk(AppendTo(st, conv, [rec]), b)
  {
    AppendedRecords(st, conv, rec, st.rows[b.child].conv, b.child);
    var st' := AppendTo(st, conv, [rec]);
    WakeOkStays(st, st', b);
    if b.pc.Finalizing? || b.finalized {
      AnsweredStays(st, st', b.child);
    }
  }

  /** Every other actor on the row of an author only replays a wake. */
  lemma OthersOnlyReplay(s: State, k: nat, j: nat)
    requires Inv(s) && k in s.acts && j in s.acts && j != k && s.acts[j].child == s.acts[k].child
    requires s.acts[k].pc.AppendSettled?
    ensures s.acts[j].mode.Backstop?
  {
    assert ActorOk(s.w.st, s.acts[k]) && ActorOk(s.w.st, s.acts[j]);
  }

  lemma AppendStepActor(st: Store, a: Actor, newId: RecordId)
    requires ActorOk(st, a) && a.pc.AppendSettled? && Advance(st, a).Some?
    ensures ActorOk(AppendTo(st, st.rows[a.child].conv, [Record(newId, a.child, SubmissionSettled(a.effective))]),
                    Advance(st, a).value)
  {
    var rec := Record(newId, a.child, SubmissionSettled(a.effective));
    AppendedRecords(st, st.rows[a.child].conv, rec, st.rows[a.child].conv, a.child);
  }

  lemma AppendKeepsStoreInv(st: Store, a: Actor, newId: RecordId, voided: set<SubmissionId>)
    requires ActorOk(st, a) && a.pc.AppendSettled? && CountsOk(st) && NoStrays(st) && SettledAreAnswered(st, voided)
    ensures var st' := AppendTo(st, st.rows[a.child].conv, [Record(newId, a.child, SubmissionSettled(a.effective))]);
            CountsOk(st') && NoStrays(st') && SettledAreAnswered(st', voided)
  {
    var rec := Record(newId, a.child, SubmissionSettled(a.effective));
    var conv := st.rows[a.child].conv;
    var st' := AppendTo(st, conv, [rec]);
    forall id | id in st'.rows
      ensures SettledCount(LogOf(st', st'.rows[id].conv), id) <= (if st'.rows[id].Open() then 0 else 1)
    {
      AppendedRecords(st, conv, rec, st.rows[id].conv, id);
    }
    forall c, i | 0 <= i < |LogOf(st', c)| && LogOf(st', c)[i].body.SubmissionSettled?
      ensures LogOf(st', c)[i].sub in st'.rows && st'.rows[LogOf(st', c)[i].sub].conv == c
    {
      if i < |LogOf(st, c)| {
        assert LogOf(st', c)[i] == LogOf(st, c)[i];
      } else {
        assert c == conv && LogOf(st', c)[i] == rec;
      }
    }
    assert C.StoreEvolves(st, st');
    forall id | id in st'.rows && st'.rows[id].status == Settled && id !in voided
      ensures Answered(st', id)
    {
      AnsweredStays(st, st', id);
    }
  }

  /** A step keeps one owner per row: the actor keeps its row and gains no claim to it. */
  lemma StepKeepsOwners(s: State, e: Event)
    requires e.Step? && Enabled(s, e) && OneOwner(s.acts)
    ensures OneOwner(Next(s, e).acts)
    ensures forall j :: j in Next(s, e).acts && Next(s, e).acts[j].Owner() ==>
      j in s.acts && s.acts[j].Owner() && s.acts[j].child == Next(s, e).acts[j].child
  {
    var a := s.acts[e.k];
    if Advance(s.w.st, a).Some? { AdvanceKeepsOwner(s.w.st, a); }
  }

  lemma AppendStepActors(s: State, e: Event)
    requires Inv(s) && e.Step? && Enabled(s, e) && s.acts[e.k].pc.AppendSettled?
    ensures var a := s.acts[e.k];
            var st' := AppendTo(s.w.st, s.w.st.rows[a.child].conv,
                                [Record(e.newId, a.child, SubmissionSettled(a.effective))]);
            forall j :: j in Next(s, e).acts ==> ActorOk(st', Next(s, e).acts[j])
  {
    var a := s.acts[e.k];
    var rec := Record(e.newId, a.child, SubmissionSettled(a.effective));
    forall j | j in Next(s, e).acts
      ensures ActorOk(AppendTo(s.w.st, s.w.st.rows[a.child].conv, [rec]), Next(s, e).acts[j])
    {
      if j == e.k {
        AppendStepActor(s.w.st, a, e.newId);
      } else {
        if s.acts[j].child == a.child { OthersOnlyReplay(s, e.k, j); }
        AppendKeepsActor(s.w.st, s.w.st.rows[a.child].conv, rec, s.acts[j]);
      }
    }
  }

  lemma AppendKeepsThrough(st: Store, a: Actor, newId: RecordId, id: SubmissionId)
    requires ActorOk(st, a) && a.pc.AppendSettled? && id in st.rows
    requires SettledCount(LogOf(st, st.rows[id].conv), id) == 1
    ensures var st' := AppendTo(st, st.rows[a.child].conv, [Record(newId, a.child, SubmissionSettled(a.effective))]);
            SettledCount(LogOf(st', st.rows[id].conv), id) == 1
  {
    var rec := Record(newId, a.child, SubmissionSettled(a.effective));
    AppendedRecords(st, st.rows[a.child].conv, rec, st.rows[id].conv, id);
    assert SettledCount(LogOf(st, st.rows[a.child].conv), a.child) == 0;
  }

  lemma AppendStepKeepsInv(s: State, e: Event)
    requires Inv(s) && e.Step? && Enabled(s, e) && s.acts[e.k].pc.AppendSettled?
    ensures Inv(Next(s, e))
  {
    var st, a, s' := s.w.st, s.acts[e.k], Next(s, e);
    var rec := Record(e.newId, a.child, SubmissionSettled(a.effective));
    NextWorldOne(s, e, C.Append(st.rows[a.child].conv, [rec]));
    assert s'.w.st == AppendTo(st, st.rows[a.child].conv, [rec]);
    AppendKeepsStoreInv(st, a, e.newId, s.voided);
    AppendStepActors(s, e);
    StepKeepsOwners(s, e);
    forall id | id in s'.through
      ensures SettledCount(LogOf(s'.w.st, s'.w.st.rows[id].conv), id) == 1
    {
      AppendKeepsThrough(st, a, e.newId, id);
    }
  }

  // ---- finalization ----

  lemma FinalizeStore(s: State, e: Event)
    requires e.Step? && Enabled(s, e) && s.acts[e.k].pc.Finalizing? && ActorOk(s.w.st, s.acts[e.k])
    ensures var st, st', id := s.w.st, Next(s, e).w.st, s.acts[e.k].child;
            && C.StoreEvolves(st, st') && st'.logs == st.logs && st'.order == st.order
            && st.rows[id].status == Terminalizing
            && st'.rows == st.rows[id := st.rows[id].(status := Settled)]
  {
    var id := s.acts[e.k].child;
    NextWorldOne(s, e, C.Do(id, Finalize));
    C.NextEvolves(s.w, C.Do(id, Finalize));
  }

  lemma FinalizeKeepsActor(st: Store, st': Store, id: SubmissionId, b: Actor)
    requires C.StoreEvolves(st, st') && st'.logs == st.logs
    requires id in st.rows && st'.rows == st.rows[id := st.rows[id].(status := Settled)]
    requires ActorOk(st, b) && b.child != id
    ensures ActorOk(st', b)
  {
    WakeOkStays(st, st', b);
    if b.pc.Finalizing? || b.finalized {
      AnsweredStays(st, st', b.child);
    }
  }

  lemma NoOtherOnTerminalizing(s: State, k: nat, j: nat)
    requires Inv(s) && k in s.acts && j in s.acts && j != k && s.acts[k].pc.Finalizing?
    ensures s.acts[j].child != s.acts[k].child
  {
    assert ActorOk(s.w.st, s.acts[k]) && ActorOk(s.w.st, s.acts[j]);
  }

  lemma FinalizeStepActor(s: State, e: Event)
    requires e.Step? && Enabled(s, e) && s.acts[e.k].pc.Finalizing? && ActorOk(s.w.st, s.acts[e.k])
    requires Advance(s.w.st, s.acts[e.k]).Some?
    ensures ActorOk(Next(s, e).w.st, Advance(s.w.st, s.acts[e.k]).value)
  {
    FinalizeStore(s, e);
    AnsweredStays(s.w.st, Next(s, e).w.st, s.acts[e.k].child);
  }

  lemma FinalizeKeepsAnswers(st: Store, st': Store, id: SubmissionId, voided: set<SubmissionId>)
    requires C.StoreEvolves(st, st')
    requires id in st.rows && st'.rows == st.rows[id := st.rows[id].(status := Settled)]
    requires SettledAreAnswered(st, voided) && Answered(st, id)
    ensures SettledAreAnswered(st', voided)
  {
    forall x | x in st'.rows && st'.rows[x].status == Settled && x !in voided
      ensures Answered(st', x)
    {
      AnsweredStays(st, st', x);
    }
  }

  lemma FinalizeKeepsCounts(st: Store, st': Store, id: SubmissionId)
    requires id in st.rows && st'.rows == st.rows[id := st.rows[id].(status := Settled)] && st.rows[id].Terminal()
    requires st'.logs == st.logs && CountsOk(st) && NoStrays(st)
    ensures CountsOk(st') && NoStrays(st')
  {
    assert forall conv :: LogOf(st', conv) == LogOf(st, conv);
  }

  lemma FinalizeStepActors(s: State, e: Event)
    requires Inv(s) && e.Step? && Enabled(s, e) && s.acts[e.k].pc.Finalizing?
    ensures ActorsOk(Next(s, e))
  {
    var a, s' := s.acts[e.k], Next(s, e);
    assert ActorOk(s.w.st, a);
    FinalizeStore(s, e);
    forall j | j in s'.acts
      ensures ActorOk(s'.w.st, s'.acts[j])
    {
      if j == e.k {
        FinalizeStepActor(s, e);
      } else {
        NoOtherOnTerminalizing(s, e.k, j);
        FinalizeKeepsActor(s.w.st, s'.w.st, a.child, s.acts[j]);
      }
    }
  }

  lemma FinalizeKeepsThrough(s: State, e: Event)
    requires e.Step? && Enabled(s, e) && s.acts[e.k].pc.Finalizing? && ActorOk(s.w.st, s.acts[e.k])
    requires ThroughOk(s) && CountsOk(s.w.st)
    ensures ThroughOk(Next(s, e))
  {
    FinalizeStore(s, e);
    assert forall conv :: LogOf(Next(s, e).w.st, conv) == LogOf(s.w.st, conv);
  }

  lemma FinalizeKeepsStuck(s: State, e: Event)
    requires e.Step? && Enabled(s, e) && s.acts[e.k].pc.Finalizing? && ActorOk(s.w.st, s.acts[e.k])
    requires StuckOk(s) && OneOwner(s.acts)
    ensures StuckOk(Next(s, e)) && OneOwner(Next(s, e).acts)
  {
    FinalizeStore(s, e);
    StepKeepsOwners(s, e);
    assert s.acts[e.k].Owner();
  }

  lemma FinalizeStepKeepsInv(s: State, e: Event)
    requires Inv(s) && e.Step? && Enabled(s, e) && s.acts[e.k].pc.Finalizing?
    ensures Inv(Next(s, e))
  {
    FinalizeStepActors(s, e);
    var a, s' := s.acts[e.k], Next(s, e);
    assert ActorOk(s.w.st, a);
    FinalizeStore(s, e);
    FinalizeKeepsAnswers(s.w.st, s'.w.st, a.child, s.voided);
    FinalizeKeepsCounts(s.w.st, s'.w.st, a.child);
    FinalizeKeepsThrough(s, e);
    FinalizeKeepsStuck(s, e);
  }

  // ---- every run ----

  lemma NextKeepsInv(s: State, e: Event)
    requires Inv(s)
    ensures Inv(Next(s, e))
  {
    if Enabled(s, e) {
      match e {
        case Other(call) => OtherKeepsInv(s, call);
        case Reserve(_, _, _, _) => ReserveKeepsInv(s, e);
        case CascadeCancel(_, _, _) => CascadeCancelKeepsInv(s, e);
        case ReclaimFlagged(_, _, _) => ReclaimKeepsInv(s, e);
        case BeginFinalize(_, _) => BeginKeepsInv(s, e);
        case BeginBackstop(_, _, _) => BeginKeepsInv(s, e);
        case Step(k, _) =>
          if s.acts[k].pc.AppendSettled? {
            AppendStepKeepsInv(s, e);
          } else if s.acts[k].pc.Finalizing? {
            FinalizeStepKeepsInv(s, e);
          } else {
            QuietStepKeepsInv(s, e);
          }
        case Abort(_) => EndKeepsInv(s, e);
        case Crash => EndKeepsInv(s, e);
      }
    }
  }

  lemma {:induction false} RunKeepsInv(es: seq<Event>)
    ensures Inv(Run(es))
  {
    if es == [] {
      assert Run(es) == INITIAL;
    } else {
      var before := es[..|es| - 1];
      RunKeepsInv(before);
      NextKeepsInv(Run(before), es[|es| - 1]);
    }
  }
}
