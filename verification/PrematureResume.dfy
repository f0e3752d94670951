/** Two runs in which a wake requeues its parent although the call of a child has
    no outcome. In one the wake listed the children, the parent admitted one more
    and parked, and only then came the wake's resume. In the other the expiry of
    the parent's wait cancelled a queued child just before the wake's listing, and
    the wake's resume came before the expiry wrote the child's outcome. */
module PrematureResume {
  import opened Records
  import opened Submissions
  import opened StoreModel
  import opened Handoff
  import opened Settlement
  import opened SettlementTheorems
  import C = Calls

  const DONE := SettledPayload(Succeeded, "", NoCode, "done")

  /** Rows 1 (the parent), 2 and 3 (its children), each in its own conversation. */
  function Row(id: SubmissionId, parent: SubmissionId): Submission {
    Submission(id, id, id, Queued, "", 0, NONE, NONE, ZERO_TIME, "", 1, parent, id, 0, false, ZERO_TIME, false)
  }

  /** A queued row alone in its session is listed by a scan. */
  lemma ScanLists(w: C.World, id: SubmissionId)
    requires WellFormed(w.st) && id in w.st.rows && w.st.rows[id].status == Queued
    requires forall x :: x in w.st.rows && x != id ==> w.st.rows[x].session != w.st.rows[id].session
    ensures id in C.Next(w, C.Scan).listed
  {
    var rows := Rows(w.st);
    var i :| 0 <= i < |w.st.order| && w.st.order[i] == id;
    assert rows[i] == w.st.rows[id];
    assert SqlRunnable(rows, i);
    assert rows[i] in SelectRunnable(rows, |w.st.order|);
  }

  /** One call by a party that does not settle and cancels nothing. */
  lemma Call(es: seq<Event>, call: C.Call) returns (es': seq<Event>)
    requires Allowed(call) && !(call.Do? && call.op.Cancel?)
    ensures es' == es + [Other(call)]
    ensures Run(es').w == C.Next(Run(es).w, call)
    ensures Run(es').acts == Run(es).acts && Run(es').voided == Run(es).voided
  {
    es' := es + [Other(call)];
    RunSnoc(es, Other(call));
    NextWorldOne(Run(es), Other(call), call);
  }

  /** Admitted, scanned and claimed, a fresh row runs. */
  lemma AdmitAndScan(w: C.World, row: Submission)
    requires C.Inv(w) && Fresh(row) && row.id !in w.st.rows
    requires forall x :: x in w.st.rows ==> w.st.rows[x].session != row.session
    ensures var w' := C.Next(C.Next(w, C.Admit(row)), C.Scan);
            && w'.st == AdmitRow(w.st, row) && w'.used == w.used && row.id in w'.listed
  {
    var w1 := C.Next(w, C.Admit(row));
    AdmitWellFormed(w.st, row);
    ScanLists(w1, row.id);
  }

  lemma Listed(es: seq<Event>, row: Submission) returns (es': seq<Event>)
    requires Fresh(row) && row.id !in Run(es).w.st.rows
    requires forall x :: x in Run(es).w.st.rows ==> Run(es).w.st.rows[x].session != row.session
    ensures var s, s' := Run(es), Run(es');
            && s'.w.st == AdmitRow(s.w.st, row) && s'.w.used == s.w.used && row.id in s'.w.listed
            && s'.acts == s.acts && s'.voided == s.voided
  {
    assert C.Inv(Run(es).w) by {
      C.RunKeepsInv(History(es));
      RunsAreHistories(es);
    }
    AdmitAndScan(Run(es).w, row);
    es' := Call(es, C.Admit(row));
    es' := Call(es', C.Scan);
  }

  lemma Start(es: seq<Event>, row: Submission, attempt: AttemptId) returns (es': seq<Event>)
    requires Fresh(row) && attempt != NONE && attempt !in Run(es).w.used && row.id !in Run(es).w.st.rows
    requires forall x :: x in Run(es).w.st.rows ==> Run(es).w.st.rows[x].session != row.session
    ensures var s, s' := Run(es), Run(es');
            && s'.w.st.rows == s.w.st.rows[row.id := Transition(row, Claim(attempt, 1, 10)).value]
            && s'.w.st.logs == s.w.st.logs && s'.w.used == s.w.used + {attempt}
            && s'.acts == s.acts && s'.voided == s.voided
  {
    es' := Listed(es, row);
    ClaimListed(Run(es').w, row, attempt);
    es' := Call(es', C.Do(row.id, Claim(attempt, 1, 10)));
  }

  lemma ClaimListed(w: C.World, row: Submission, attempt: AttemptId)
    requires row.id in w.st.rows && w.st.rows[row.id] == row && row.status == Queued && row.id in w.listed
    requires attempt != NONE && attempt !in w.used
    ensures var w' := C.Next(w, C.Do(row.id, Claim(attempt, 1, 10)));
            && w'.st == w.st.(rows := w.st.rows[row.id := Transition(row, Claim(attempt, 1, 10)).value])
            && w'.used == w.used + {attempt}
  {
  }

  /** The states of the run: the two rows, the two logs, and the settling actor. */
  ghost predicate At(es: seq<Event>, log1: Log, log2: Log, pc: Pc) {
    var s := Run(es);
    && s.w.st.rows == map[1 := Transition(Row(1, NONE), Claim(1, 1, 10)).value,
                          2 := Transition(Row(2, 1), Claim(2, 1, 10)).value.(status := Terminalizing)]
    && s.w.used == {1, 2} && LogOf(s.w.st, 1) == log1 && LogOf(s.w.st, 2) == log2
    && s.acts == map[0 := Actor(Settling, 2, DONE, false, pc)] && s.voided == {}
  }

  /** One step of the actor that reads. */
  lemma Read(es: seq<Event>, log1: Log, log2: Log, pc: Pc, pc': Pc) returns (es': seq<Event>)
    requires At(es, log1, log2, pc) && Effect(Run(es).w.st, Run(es).acts[0], 0).None?
    requires Advance(Run(es).w.st, Run(es).acts[0]) == Some(Actor(Settling, 2, DONE, false, pc'))
    ensures es' == es + [Step(0, 0)] && At(es', log1, log2, pc')
  {
    es' := es + [Step(0, 0)];
    RunSnoc(es, Step(0, 0));
    NextWorld(Run(es), Step(0, 0));
  }

  /** One step of the actor that appends a record to log 1 or 2. */
  lemma Write(es: seq<Event>, log1: Log, log2: Log, pc: Pc, pc': Pc, conv: ConversationId, rec: Record)
    returns (es': seq<Event>)
    requires At(es, log1, log2, pc) && Effect(Run(es).w.st, Run(es).acts[0], rec.id) == Some(C.Append(conv, [rec]))
    requires Advance(Run(es).w.st, Run(es).acts[0]) == Some(Actor(Settling, 2, DONE, false, pc'))
    ensures es' == es + [Step(0, rec.id)]
    ensures At(es', if conv == 1 then log1 + [rec] else log1, if conv == 2 then log2 + [rec] else log2, pc')
  {
    es' := es + [Step(0, rec.id)];
    RunSnoc(es, Step(0, rec.id));
    NextWorldOne(Run(es), Step(0, rec.id), C.Append(conv, [rec]));
  }

  /** The parent runs, its first child reserves its settlement. */
  lemma Opening() returns (es: seq<Event>)
    ensures At(es, [], [], ReadSettled)
  {
    assert Run([]) == Settlement.INITIAL;
    es := Start([], Row(1, NONE), 1);
    es := Start(es, Row(2, 1), 2);
    var reserve := Event.Reserve(2, 2, DONE, 0);
    RunSnoc(es, reserve);
    NextWorldOne(Run(es), reserve, C.Do(2, RowOp.Reserve(2)));
    es := es + [reserve];
  }

  const SETTLED := Record(5, 2, SubmissionSettled(DONE))

  const OUTCOME := Record(6, 1, ToolOutcome(2, "task", false, "done"))

  /** The settled record lands and the wake finds the parent running. */
  lemma SettledLands() returns (es: seq<Event>)
    ensures At(es, [], [SETTLED], WakeSpawnRead)
  {
    es := Opening();
    es := Read(es, [], [], ReadSettled, AppendSettled);
    es := Write(es, [], [], AppendSettled, WakeGet, 2, SETTLED);
    assert [] + [SETTLED] == [SETTLED];
    es := Read(es, [], [SETTLED], WakeGet, WakeSpawnRead);
  }

  /** No spawn record to repair from. */
  lemma SpawnSkipped() returns (es: seq<Event>)
    ensures At(es, [], [SETTLED], WakeContent)
  {
    es := SettledLands();
    es := Read(es, [], [SETTLED], WakeSpawnRead, WakeSpawnRef);
    assert [SETTLED][1..] == [];
    assert ParentRef([SETTLED]) == NONE;
    es := Read(es, [], [SETTLED], WakeSpawnRef, WakeContent);
  }

  /** The child's wake goes as far as listing the children. */
  lemma WakeUpToTheList() returns (es: seq<Event>)
    ensures At(es, [OUTCOME], [SETTLED], WakeList)
  {
    es := SpawnSkipped();
    assert WakeOutcome(NONE, Run(es).w.st.rows[2], DONE, [SETTLED]).body == ToolOutcome(2, "task", false, "done");
    es := Read(es, [], [SETTLED], WakeContent, WakeOutcomeRead(false, "done"));
    es := Read(es, [], [SETTLED], WakeOutcomeRead(false, "done"), WakeOutcomeAppend(false, "done"));
    es := Write(es, [], [SETTLED], WakeOutcomeAppend(false, "done"), WakeList, 1, OUTCOME);
    assert [] + [OUTCOME] == [OUTCOME];
  }

  /** The parent waits, its third row is as given, and the wake of child 2 goes on. */
  ghost predicate Parked(es: seq<Event>, third: Submission, voided: set<SubmissionId>, pc: Pc) {
    var s := Run(es);
    && s.acts == map[0 := Actor(Settling, 2, DONE, false, pc)] && s.voided == voided
    && s.w.st.rows.Keys == {1, 2, 3} && s.w.st.rows[3] == third && s.w.st.rows[2].parent == 1
    && s.w.st.rows[1].status == Waiting && s.w.st.rows[1].conv == 1 && s.w.st.rows[1].parent == NONE
    && LogOf(s.w.st, 1) == [OUTCOME]
  }

  /** The parent admits one more child and parks. */
  lemma AdmitsAndParks(es: seq<Event>, pc: Pc, until: int) returns (es': seq<Event>)
    requires At(es, [OUTCOME], [SETTLED], pc)
    ensures Parked(es', Row(3, 1), {}, pc)
  {
    es' := Call(es, C.Admit(Row(3, 1)));
    es' := Call(es', C.Do(1, Park(1, until)));
  }

  /** It does so when the wake holds its list. */
  lemma RaceOn() returns (es: seq<Event>)
    ensures Parked(es, Row(3, 1), {}, WakeResume({2}))
  {
    es := WakeUpToTheList();
    assert Kids(Run(es).w.st, 1) == {2};
    es := Read(es, [OUTCOME], [SETTLED], WakeList, WakeResume({2}));
    es := AdmitsAndParks(es, WakeResume({2}), ZERO_TIME);
  }

  /** The resume succeeds although child 3 is queued and its call unanswered. */
  lemma PrematureResumeHappens() returns (es: seq<Event>)
    ensures Resumes(Run(es), 0) && Run(es).voided == {}
    ensures var st := Run(es + [Step(0, 0)]).w.st;
            && 1 in st.rows && st.rows[1].status == Queued
            && 3 in Kids(st, 1) && st.rows[3].status == Queued
            && !HasOutcome(LogOf(st, st.rows[1].conv), st.rows[3].parentCallId)
  {
    es := RaceOn();
    RunSnoc(es, Step(0, 0));
    NextWorldOne(Run(es), Step(0, 0), C.Do(1, Resume));
  }

  // ---- the expiry closes a child ----

  const CANCELLED_ROW := Row(3, 1).(status := Settled, lastError := "parent wait expired")

  /** The wait's expiry cancels the child under its open parent. */
  lemma ExpiryCancels(es: seq<Event>, pc: Pc) returns (es': seq<Event>)
    requires Parked(es, Row(3, 1), {}, pc)
    ensures Parked(es', CANCELLED_ROW, {3}, pc)
  {
    var call := C.Do(3, Cancel("parent wait expired"));
    es' := es + [Other(call)];
    RunSnoc(es, Other(call));
    NextWorldOne(Run(es), Other(call), call);
  }

  /** The parent admits child 3 and parks until time 20; the wait lapses, and the
      expiry cancels the child before the wake lists it. */
  lemma ExpiryBegins() returns (es: seq<Event>)
    ensures Parked(es, CANCELLED_ROW, {3}, WakeList)
  {
    es := WakeUpToTheList();
    es := AdmitsAndParks(es, WakeList, 20);
    es := ExpiryCancels(es, WakeList);
  }

  lemma WakeLists(es: seq<Event>)
    requires Parked(es, CANCELLED_ROW, {3}, WakeList)
    ensures Parked(es + [Step(0, 0)], CANCELLED_ROW, {3}, WakeResume({2, 3}))
  {
    RunSnoc(es, Step(0, 0));
    assert Kids(Run(es).w.st, 1) == {2, 3};
    NextWorld(Run(es), Step(0, 0));
  }

  /** The resume succeeds although child 3, which the wake listed, is closed and its
      call unanswered. */
  lemma CancelledChildIsUnanswered() returns (es: seq<Event>)
    ensures Resumes(Run(es), 0) && Run(es).acts[0].pc.listed == {2, 3} && Run(es).voided == {3}
    ensures var st := Run(es + [Step(0, 0)]).w.st;
            && 1 in st.rows && st.rows[1].status == Queued
            && 3 in Kids(st, 1) && st.rows[3].status == Settled
            && !HasOutcome(LogOf(st, st.rows[1].conv), st.rows[3].parentCallId)
  {
    es := ExpiryBegins();
    WakeLists(es);
    es := es + [Step(0, 0)];
    RunSnoc(es, Step(0, 0));
    NextWorldOne(Run(es), Step(0, 0), C.Do(1, Resume));
  }
}
