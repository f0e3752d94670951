/** The pieces of the settlement hand-off from a child to its parent. */
module Handoff {
  import opened Records
  import opened Submissions
  import opened StoreModel
  import opened Reducer

  /** What a crash during settlement settles with. */
  const INDETERMINATE :=
    SettledPayload(Failed, "process crashed during settlement; run outcome unknown", Indeterminate, "")

  const CANCELLED := SettledPayload(Failed, "cancelled: parent settled", CancelledByParent, "")

  function CodeText(code: SettledErrorCode): Text {
    match code
    case NoCode => ""
    case RunFailed => "run_failed"
    case AttemptBudget => "attempt_budget_exhausted"
    case TimedOut => "timeout_exceeded"
    case Indeterminate => "settlement_indeterminate"
    case ResultInvalid => "result_schema_invalid"
    case CancelledByParent => "cancelled_by_parent"
  }

  /** The text of the last completed assistant message of the path. */
  function FinalText(path: Log): Text {
    if path == [] then ""
    else if path[|path| - 1].body.MessageCompleted? then path[|path| - 1].body.text
    else FinalText(path[..|path| - 1])
  }

  function Coded(code: SettledErrorCode): Text { "(code: " + CodeText(code) + ")" }

  const PARTIAL: Text := "\n\nPartial output before failure:\n"

  /** The content of the parent's outcome. */
  function Content(payload: SettledPayload, text: Text): Text {
    if payload.status == Succeeded then
      if payload.result != "" then payload.result else text
    else
      var base := if payload.code == NoCode then payload.error
                  else (if payload.error == "" then "error " else payload.error + " ") + Coded(payload.code);
      if text == "" then base else base + PARTIAL + text
  }

  // ---- what the content tells ----

  /** The text is that of a completed assistant message no other one follows, or ""
      when the path has none. */
  ghost predicate IsAnswer(path: Log, text: Text) {
    if exists i :: 0 <= i < |path| && path[i].body.MessageCompleted?
    then exists i :: 0 <= i < |path| && path[i].body == MessageCompleted(text)
                     && forall j :: i < j < |path| ==> !path[j].body.MessageCompleted?
    else text == ""
  }

  predicate Occurs(part: Text, whole: Text) {
    exists i :: 0 <= i <= |whole| && part <= whole[i..]
  }

  predicate EndsWith(whole: Text, part: Text) {
    |part| <= |whole| && whole[|whole| - |part|..] == part
  }

  /** A success tells the structured result, or else the answer; a failure tells the
      error, its code and the partial answer. */
  predicate Tells(content: Text, payload: SettledPayload, answer: Text) {
    && (payload.status == Succeeded && payload.result != "" ==> content == payload.result)
    && (payload.status == Succeeded && payload.result == "" ==> content == answer)
    && (payload.status == Failed ==>
          && payload.error <= content && EndsWith(content, answer)
          && (payload.code != NoCode ==> Occurs("(code: " + CodeText(payload.code) + ")", content))
          && (payload.code == NoCode && answer == "" ==> content == payload.error))
  }

  lemma ContentTells(payload: SettledPayload, answer: Text)
    ensures Tells(Content(payload, answer), payload, answer)
  {
    if payload.status == Failed {
      var coded := Coded(payload.code);
      var head := if payload.error == "" then "error " else payload.error + " ";
      var tail := if answer == "" then "" else PARTIAL + answer;
      if payload.code == NoCode {
        Pieces("", payload.error, tail, answer);
      } else {
        assert payload.error <= head;
        Pieces(head, coded, tail, answer);
      }
    }
  }

  /** The parts of a text made of three. */
  lemma Pieces(head: Text, mid: Text, tail: Text, answer: Text)
    requires tail == if answer == "" then "" else PARTIAL + answer
    ensures var whole := if answer == "" then head + mid else head + mid + PARTIAL + answer;
            whole == head + mid + tail && Occurs(mid, whole) && EndsWith(whole, answer) && head + mid <= whole
  {
    var whole := head + mid + tail;
    assert whole[|head|..] == mid + tail;
    if answer != "" { assert head + mid + (PARTIAL + answer) == head + mid + PARTIAL + answer; }
  }

  /** Each code has a text of its own. */
  lemma CodeTextsDiffer(a: SettledErrorCode, b: SettledErrorCode)
    ensures CodeText(a) == CodeText(b) ==> a == b
    ensures CodeText(a) == "" <==> a == NoCode
  {
  }

  lemma {:induction false} FinalTextIsTheAnswer(path: Log)
    ensures IsAnswer(path, FinalText(path))
  {
    if path != [] {
      var n := |path| - 1;
      if path[n].body.MessageCompleted? {
        assert path[n].body == MessageCompleted(FinalText(path));
      } else {
        FinalTextIsTheAnswer(path[..n]);
        if i :| 0 <= i < |path| && path[i].body.MessageCompleted? {
          assert path[..n][i].body.MessageCompleted?;
          var j :| 0 <= j < n && path[..n][j].body == MessageCompleted(FinalText(path))
                   && forall k :: j < k < n ==> !path[..n][k].body.MessageCompleted?;
          assert path[j].body == MessageCompleted(FinalText(path));
          assert forall k :: j < k < n ==> path[..n][k] == path[k];
        }
      }
    }
  }

  /** The outcome body a child's settlement with the payload stands for, read from the
      active path of its log. */
  ghost predicate Reports(body: Body, child: Submission, payload: SettledPayload, childLog: Log) {
    && body.ToolOutcome?
    && body == ToolOutcome(child.parentCallId, "task", payload.status == Failed, body.content)
    && exists answer :: IsAnswer(ActivePath(childLog), answer) && Tells(body.content, payload, answer)
  }

  lemma OutcomeReports(id: RecordId, child: Submission, payload: SettledPayload, childLog: Log)
    ensures var rec := WakeOutcome(id, child, payload, childLog);
            rec.id == id && rec.sub == child.parent && rec.body.ToolOutcome?
            && Reports(rec.body, child, payload, childLog)
  {
    FinalTextIsTheAnswer(ActivePath(childLog));
    ContentTells(payload, FinalText(ActivePath(childLog)));
  }

  function WakeOutcome(id: RecordId, child: Submission, payload: SettledPayload, childLog: Log): Record {
    Record(id, child.parent,
           ToolOutcome(child.parentCallId, "task", payload.status != Succeeded,
                       Content(payload, FinalText(ActivePath(childLog)))))
  }

  function SpawnOf(id: RecordId, child: Submission): Record {
    Record(id, child.parent, TaskSpawned(child.parentCallId, child.id))
  }

  /** The spawn record id the child conversation was created with. */
  function ParentRef(childLog: Log): RecordId {
    if childLog == [] then NONE
    else match childLog[0].body
      case ConversationCreated(Some(id)) => id
      case ConversationCreated(None) => NONE
      case _ => ParentRef(childLog[1..])
  }

  /** It is the one of the first conversation_created record, if any. */
  lemma {:induction false} ParentRefIsTheFirst(childLog: Log, i: nat)
    requires i < |childLog| && childLog[i].body.ConversationCreated?
    requires forall j :: 0 <= j < i ==> !childLog[j].body.ConversationCreated?
    ensures ParentRef(childLog)
         == if childLog[i].body.spawnRecord.Some? then childLog[i].body.spawnRecord.value else NONE
  {
    if i > 0 { ParentRefIsTheFirst(childLog[1..], i - 1); }
  }

  /** The ids of the children of a submission. */
  function Kids(st: Store, parent: SubmissionId): set<SubmissionId> {
    set id | id in st.rows && st.rows[id].parent == parent
  }

  predicate AllSettled(st: Store, ids: set<SubmissionId>) {
    forall id :: id in ids ==> id in st.rows && st.rows[id].status == Settled
  }

  function ParentConv(st: Store, child: Submission): ConversationId {
    if child.parent in st.rows then st.rows[child.parent].conv else NONE
  }

  /** The child's call has its outcome in the parent's log, or the parent is
      past needing one. */
  predicate Answered(st: Store, id: SubmissionId)
    requires id in st.rows
  {
    var r := st.rows[id];
    r.parent == NONE
    || (r.parent in st.rows
        && (st.rows[r.parent].Terminal() || HasOutcome(LogOf(st, ParentConv(st, r)), r.parentCallId)))
  }
}
