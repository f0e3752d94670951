/** Reconciliation of tool calls that a crash left without an outcome. */
module Dangling {
  import opened Records
  import opened Submissions
  import opened StoreModel
  import opened Reducer
  import MemoryStore

  const DANGLING_MESSAGE: Text :=
    "Tool call was interrupted before a result was recorded (the run was recovered). "
    + "Re-issue the tool call if it is still needed."

  datatype Call = Call(callId: CallId, tool: Text)

  /** The calls of the path, in order. */
  function CallsOf(path: Log): seq<Call> {
    if path == [] then []
    else
      var rec := path[|path| - 1];
      CallsOf(path[..|path| - 1]) + (if rec.body.ToolCall? then [Call(rec.body.callId, rec.body.tool)] else [])
  }

  /** The calls that no later outcome of the path answers. */
  function Pending(path: Log): set<CallId> {
    if path == [] then {}
    else
      var rec := path[|path| - 1];
      match rec.body
      case ToolCall(callId, _) => Pending(path[..|path| - 1]) + {callId}
      case ToolOutcome(callId, _, _, _) => Pending(path[..|path| - 1]) - {callId}
      case _ => Pending(path[..|path| - 1])
  }

  /** A spawned call whose child row exists and is unsettled. */
  predicate LiveSpawn(rec: Record, rows: map<SubmissionId, Submission>, callId: CallId) {
    && rec.body.TaskSpawned? && rec.body.callId == callId
    && rec.body.child in rows && rows[rec.body.child].status != Settled
  }

  /** The record names a child for the call that may yet settle and answer it. */
  predicate AwaitsChild(rec: Record, rows: map<SubmissionId, Submission>, callId: CallId) {
    exists id :: id in rows && rec.body == TaskSpawned(callId, id)
                 && rows[id].status in {Queued, Running, Waiting, Terminalizing}
  }

  predicate Exempt(path: Log, rows: map<SubmissionId, Submission>, callId: CallId) {
    exists i :: 0 <= i < |path| && LiveSpawn(path[i], rows, callId)
  }

  function Unanswered(path: Log, rows: map<SubmissionId, Submission>): set<CallId> {
    set c | c in Pending(path) && !Exempt(path, rows, c)
  }

  /** One error outcome for each of the calls that is open, in order. */
  function OutcomesFor(calls: seq<Call>, open: set<CallId>, next: RecordId, sub: SubmissionId): Log {
    var chosen := Filter((c: Call) => c.callId in open, calls);
    seq(|chosen|, i requires 0 <= i < |chosen| =>
      Record(next + i, sub, ToolOutcome(chosen[i].callId, chosen[i].tool, true, DANGLING_MESSAGE)))
  }

  /** The error outcomes for the unanswered calls, in call order. */
  function Synthesized(path: Log, rows: map<SubmissionId, Submission>, next: RecordId, sub: SubmissionId): Log {
    OutcomesFor(CallsOf(path), Unanswered(path, rows), next, sub)
  }

  /** The first walk: the calls in order, and those without an outcome. */
  method ScanCalls(path: Log) returns (order: seq<Call>, pending: set<CallId>)
    ensures order == CallsOf(path) && pending == Pending(path)
  {
    order, pending := [], {};
    for n := 0 to |path|
      invariant order == CallsOf(path[..n]) && pending == Pending(path[..n])
    {
      assert path[..n + 1][..n] == path[..n];
      match path[n].body {
        case ToolCall(callId, tool) =>
          order := order + [Call(callId, tool)];
          pending := pending + {callId};
        case ToolOutcome(callId, _, _, _) =>
          pending := pending - {callId};
        case _ =>
      }
    }
    assert path[..|path|] == path;
  }

  /** The second walk: spawned calls with a live child are left open. */
  method SubtractLiveSpawns(store: MemoryStore.MemoryStore, path: Log, calls: set<CallId>)
    returns (pending: set<CallId>)
    ensures pending == set c | c in calls && !Exempt(path, store.subs, c)
  {
    pending := calls;
    for n := 0 to |path|
      invariant pending == set c | c in calls && !Exempt(path[..n], store.subs, c)
    {
      assert path[..n + 1] == path[..n] + [path[n]];
      ExemptAppend(path[..n], path[n], store.subs);
      if path[n].body.TaskSpawned? && path[n].body.callId in pending {
        var child := store.GetSubmission(path[n].body.child);
        if child.Ok? && child.value.status != Settled {
          pending := pending - {path[n].body.callId};
        }
      }
    }
    assert path[..|path|] == path;
  }

  lemma ExemptAppend(path: Log, rec: Record, rows: map<SubmissionId, Submission>)
    ensures forall c :: Exempt(path + [rec], rows, c) <==> Exempt(path, rows, c) || LiveSpawn(rec, rows, c)
  {
    forall c
      ensures Exempt(path + [rec], rows, c) <==> Exempt(path, rows, c) || LiveSpawn(rec, rows, c)
    {
      if Exempt(path, rows, c) {
        var i :| 0 <= i < |path| && LiveSpawn(path[i], rows, c);
        assert LiveSpawn((path + [rec])[i], rows, c);
      }
      if LiveSpawn(rec, rows, c) {
        assert LiveSpawn((path + [rec])[|path|], rows, c);
      }
    }
  }

  /** The run appends the outcomes; next is the ULID source. */
  method ReconcileDanglingToolCalls(store: MemoryStore.MemoryStore, conv: ConversationId, sub: SubmissionId,
                                    next: RecordId) returns (next': RecordId)
    requires store.Valid() && Distinct(LogOf(store.View(), conv))
    modifies store
    ensures store.Valid()
    ensures var out := Synthesized(ActivePath(old(LogOf(store.View(), conv))), old(store.subs), next, sub);
            store.View() == (if out == [] then old(store.View()) else AppendTo(old(store.View()), conv, out))
            && next' == next + |out|
    ensures next != NONE && (forall i :: 0 <= i < |old(LogOf(store.View(), conv))| ==>
                               old(LogOf(store.View(), conv))[i].id < next) ==>
              Distinct(LogOf(store.View(), conv)) && WalkEnds(Reduce(LogOf(store.View(), conv)))
  {
    var recs := store.ReadRecords(conv, NONE);
    var path := ActivePathOf(recs);
    var order, calls := ScanCalls(path);
    var pending := SubtractLiveSpawns(store, path, calls);
    DistinctWalkEnds(recs);
    if next != NONE && forall i :: 0 <= i < |recs| ==> recs[i].id < next {
      SynthesizedAreMinted(recs, store.subs, next, sub);
    }
    assert pending == Unanswered(path, store.subs);
    if pending == {} {
      NothingOpen(order, pending, next, sub);
      return next;
    }
    var synthesized := AuthorOutcomes(order, pending, next, sub);
    assert synthesized != [] by {
      var c :| c in pending;
      SynthesizedAnswers(path, store.subs, next, sub, c);
    }
    store.AppendRecords(conv, synthesized);
    return next + |synthesized|;
  }

  lemma {:induction false} NothingOpen(calls: seq<Call>, open: set<CallId>, next: RecordId, sub: SubmissionId)
    requires open == {}
    ensures OutcomesFor(calls, open, next, sub) == []
  {
    if calls != [] {
      NothingOpen(calls[..|calls| - 1], open, next, sub);
    }
  }

  method AuthorOutcomes(order: seq<Call>, pending: set<CallId>, next: RecordId, sub: SubmissionId)
    returns (synthesized: Log)
    ensures synthesized == OutcomesFor(order, pending, next, sub)
    ensures forall i :: 0 <= i < |synthesized| ==> synthesized[i].id == next + i && synthesized[i].sub == sub
  {
    synthesized := [];
    for n := 0 to |order|
      invariant synthesized == OutcomesFor(order[..n], pending, next, sub)
    {
      assert order[..n + 1][..n] == order[..n];
      if order[n].callId in pending {
        synthesized := synthesized
          + [Record(next + |synthesized|, sub, ToolOutcome(order[n].callId, order[n].tool, true, DANGLING_MESSAGE))];
      }
    }
    assert order[..|order|] == order;
  }

  /** A pending call occurs among the calls of the path. */
  lemma {:induction false} PendingCalls(path: Log, callId: CallId)
    requires callId in Pending(path)
    ensures exists tool :: Call(callId, tool) in CallsOf(path)
  {
    var n := |path| - 1;
    if path[n].body.ToolCall? && path[n].body.callId == callId {
      assert Call(callId, path[n].body.tool) in CallsOf(path);
    } else {
      PendingCalls(path[..n], callId);
    }
  }

  /** Some outcome after position i answers the call. */
  predicate AnsweredAfter(path: Log, i: nat, callId: CallId) {
    exists j :: i < j < |path| && path[j].body.ToolOutcome? && path[j].body.callId == callId
  }

  /** The synthesized records are error outcomes of the run's submission under ids
      of their own, so the log stays one whose path can be walked. */
  lemma SynthesizedAreMinted(log: Log, rows: map<SubmissionId, Submission>, next: RecordId, sub: SubmissionId)
    requires Distinct(log) && next != NONE && forall i :: 0 <= i < |log| ==> log[i].id < next
    ensures
      var out := Synthesized(ActivePath(log), rows, next, sub);
      && Distinct(log + out) && WalkEnds(Reduce(log + out))
      && (forall i :: 0 <= i < |log + out| ==> (log + out)[i].id < next + |out|)
      && forall i :: 0 <= i < |out| ==>
           out[i].sub == sub && out[i].body.ToolOutcome? && out[i].body.isError && out[i].body.content != ""
  {
    var out := Synthesized(ActivePath(log), rows, next, sub);
    MintedStayDistinct(log, out, next);
    DistinctWalkEnds(log + out);
  }

  /** Every call of the path is answered later or is pending. */
  lemma {:induction false} CallIsAnsweredOrPending(path: Log, i: nat)
    requires i < |path| && path[i].body.ToolCall?
    ensures AnsweredAfter(path, i, path[i].body.callId) || path[i].body.callId in Pending(path)
    decreases |path|
  {
    var n := |path| - 1;
    if i < n {
      CallIsAnsweredOrPending(path[..n], i);
      if AnsweredAfter(path[..n], i, path[i].body.callId) {
        var j :| i < j < n && path[..n][j].body.ToolOutcome? && path[..n][j].body.callId == path[i].body.callId;
        assert path[j].body.ToolOutcome?;
      }
    }
  }

  /** Outcomes at the end of a path take their calls out of Pending. */
  lemma {:induction false} OutcomesClearPending(path: Log, out: Log)
    requires forall i :: 0 <= i < |out| ==> out[i].body.ToolOutcome?
    ensures Pending(path + out) == set c | c in Pending(path) && !HasOutcome(out, c)
    decreases |out|
  {
    if out == [] {
      assert path + out == path;
    } else {
      var n := |out| - 1;
      OutcomesClearPending(path, out[..n]);
      assert (path + out)[..|path + out| - 1] == path + out[..n];
      forall c
        ensures HasOutcome(out, c) <==> HasOutcome(out[..n], c) || out[n].body.callId == c
      {
      }
    }
  }

  lemma SynthesizedAnswers(path: Log, rows: map<SubmissionId, Submission>, next: RecordId, sub: SubmissionId,
                           c: CallId)
    ensures HasOutcome(Synthesized(path, rows, next, sub), c) <==> c in Unanswered(path, rows)
  {
    var out := Synthesized(path, rows, next, sub);
    var p := (c: Call) => c.callId in Unanswered(path, rows);
    var chosen := Filter(p, CallsOf(path));
    FilterMembers(p, CallsOf(path));
    if c in Unanswered(path, rows) {
      PendingCalls(path, c);
      var tool :| Call(c, tool) in CallsOf(path);
      assert Call(c, tool) in chosen;
      var i :| 0 <= i < |chosen| && chosen[i] == Call(c, tool);
      assert out[i].body.callId == c;
    }
    if HasOutcome(out, c) {
      var i :| 0 <= i < |out| && out[i].body.ToolOutcome? && out[i].body.callId == c;
      assert chosen[i] in chosen;
    }
  }

  /** Afterwards every call of the new active path is followed by an outcome
      with its id or is a spawned call with a live child; what was on the path
      is an unchanged prefix. */
  lemma ReconciliationIsComplete(log: Log, rows: map<SubmissionId, Submission>, next: RecordId, sub: SubmissionId)
    ensures
      var path := ActivePath(log);
      var out := Synthesized(path, rows, next, sub);
      var path' := ActivePath(log + out);
      && path' == path + out
      && forall i :: 0 <= i < |path'| && path'[i].body.ToolCall? ==>
           AnsweredAfter(path', i, path'[i].body.callId)
           || exists j :: 0 <= j < |path'| && AwaitsChild(path'[j], rows, path'[i].body.callId)
  {
    var path := ActivePath(log);
    var out := Synthesized(path, rows, next, sub);
    OrdinaryRecordsExtendThePath(log, out);
    OutcomesClearPending(path, out);
    var path' := path + out;
    forall i | 0 <= i < |path'| && path'[i].body.ToolCall?
      ensures AnsweredAfter(path', i, path'[i].body.callId)
           || exists j :: 0 <= j < |path'| && AwaitsChild(path'[j], rows, path'[i].body.callId)
    {
      var c := path'[i].body.callId;
      CallIsAnsweredOrPending(path', i);
      SynthesizedAnswers(path, rows, next, sub, c);
      if c in Pending(path') {
        assert Exempt(path, rows, c);
        var j :| 0 <= j < |path| && LiveSpawn(path[j], rows, c);
        assert AwaitsChild(path'[j], rows, c);
      }
    }
  }

  /** A spawned call whose child may still settle is left to the child's wake. */
  lemma LiveChildIsLeftOpen(path: Log, rows: map<SubmissionId, Submission>, next: RecordId, sub: SubmissionId, i: nat,
                            c: CallId)
    requires i < |path| && AwaitsChild(path[i], rows, c)
    ensures !HasOutcome(Synthesized(path, rows, next, sub), c)
  {
    assert LiveSpawn(path[i], rows, c);
    SynthesizedAnswers(path, rows, next, sub, c);
  }

  /** A second run over unchanged child rows appends nothing. */
  lemma ReconciliationIsIdempotent(log: Log, rows: map<SubmissionId, Submission>, next: RecordId, sub: SubmissionId,
                                   next': RecordId, sub': SubmissionId)
    ensures Synthesized(ActivePath(log + Synthesized(ActivePath(log), rows, next, sub)), rows, next', sub') == []
  {
    var path := ActivePath(log);
    var out := Synthesized(path, rows, next, sub);
    OrdinaryRecordsExtendThePath(log, out);
    OutcomesClearPending(path, out);
    forall c | c in Pending(path + out)
      ensures Exempt(path + out, rows, c)
    {
      SynthesizedAnswers(path, rows, next, sub, c);
      var j :| 0 <= j < |path| && LiveSpawn(path[j], rows, c);
      assert LiveSpawn((path + out)[j], rows, c);
    }
    NothingOpen(CallsOf(path + out), Unanswered(path + out, rows), next', sub');
  }

  /** A call is pending exactly when one of its occurrences has no later outcome. */
  lemma {:induction false} PendingIffUnanswered(path: Log, c: CallId)
    ensures c in Pending(path) <==>
      exists i :: 0 <= i < |path| && path[i].body.ToolCall? && path[i].body.callId == c && !AnsweredAfter(path, i, c)
  {
    if i :| 0 <= i < |path| && path[i].body.ToolCall? && path[i].body.callId == c && !AnsweredAfter(path, i, c) {
      CallIsAnsweredOrPending(path, i);
    }
    if c in Pending(path) {
      PendingIsUnanswered(path, c);
    }
  }

  lemma {:induction false} PendingIsUnanswered(path: Log, c: CallId)
    requires c in Pending(path)
    ensures exists i :: 0 <= i < |path| && path[i].body.ToolCall? && path[i].body.callId == c
                     && !AnsweredAfter(path, i, c)
  {
    var n := |path| - 1;
    if path[n].body.ToolCall? && path[n].body.callId == c {
      assert !AnsweredAfter(path, n, c);
    } else {
      PendingIsUnanswered(path[..n], c);
      var i :| 0 <= i < n && path[..n][i].body.ToolCall? && path[..n][i].body.callId == c
               && !AnsweredAfter(path[..n], i, c);
      assert path[i].body.ToolCall? && path[i].body.callId == c;
      forall j | i < j < |path|
        ensures !(path[j].body.ToolOutcome? && path[j].body.callId == c)
      {
        if j < n { assert path[..n][j] == path[j]; }
      }
    }
  }

  predicate IsChosen(rec: Record, p: Call -> bool) {
    rec.body.ToolCall? && p(Call(rec.body.callId, rec.body.tool))
  }

  lemma CallsSnoc(path: Log, rec: Record)
    ensures CallsOf(path + [rec])
         == CallsOf(path) + if rec.body.ToolCall? then [Call(rec.body.callId, rec.body.tool)] else []
  {
    assert (path + [rec])[..|path|] == path;
  }

  /** The calls of the path at these positions. */
  ghost predicate CallsAt(path: Log, at: seq<nat>, calls: seq<Call>) {
    Rising(at, |path|) && |at| == |calls|
    && forall k :: 0 <= k < |at| ==>
         path[at[k]].body.ToolCall? && calls[k] == Call(path[at[k]].body.callId, path[at[k]].body.tool)
  }

  lemma CallsAtSnoc(path: Log, at: seq<nat>, calls: seq<Call>, rec: Record)
    requires CallsAt(path, at, calls)
    ensures CallsAt(path + [rec], at, calls)
    ensures rec.body.ToolCall? ==>
              CallsAt(path + [rec], at + [|path|], calls + [Call(rec.body.callId, rec.body.tool)])
  {
    RisingSnoc(at, |path|);
  }

  lemma ChosenSnoc(path: Log, rec: Record, p: Call -> bool)
    ensures Filter(p, CallsOf(path + [rec]))
         == Filter(p, CallsOf(path)) + if IsChosen(rec, p) then [Call(rec.body.callId, rec.body.tool)] else []
  {
    CallsSnoc(path, rec);
    if rec.body.ToolCall? {
      FilterSnoc(p, CallsOf(path), Call(rec.body.callId, rec.body.tool));
    } else {
      assert CallsOf(path) + [] == CallsOf(path);
    }
  }

  /** Where the elements of a filtered list of calls stand on the path. */
  lemma {:induction false} ChosenPositions(path: Log, p: Call -> bool) returns (at: seq<nat>)
    ensures CallsAt(path, at, Filter(p, CallsOf(path)))
    ensures forall i :: i in at <==> 0 <= i < |path| && IsChosen(path[i], p)
  {
    if path == [] {
      at := [];
    } else {
      var n := |path| - 1;
      var init := path[..n];
      at := ChosenPositions(init, p);
      assert path == init + [path[n]];
      ChosenSnoc(init, path[n], p);
      CallsAtSnoc(init, at, Filter(p, CallsOf(init)), path[n]);
      RisingSnoc(at, n);
      assert forall i :: 0 <= i < n ==> init[i] == path[i];
      if IsChosen(path[n], p) { at := at + [n]; }
    }
  }

  /** Synthesized outcomes follow the order of their calls: one for each occurrence
      of a call that is open. */
  lemma SynthesizedFollowCallOrder(path: Log, rows: map<SubmissionId, Submission>, next: RecordId,
                                   sub: SubmissionId) returns (at: seq<nat>)
    ensures Rising(at, |path|) && |at| == |Synthesized(path, rows, next, sub)|
    ensures forall k :: 0 <= k < |at| ==>
      path[at[k]].body.ToolCall?
      && path[at[k]].body.callId == Synthesized(path, rows, next, sub)[k].body.callId
      && path[at[k]].body.tool == Synthesized(path, rows, next, sub)[k].body.tool
    ensures forall i :: i in at <==>
      0 <= i < |path| && path[i].body.ToolCall? && path[i].body.callId in Unanswered(path, rows)
  {
    at := ChosenPositions(path, (c: Call) => c.callId in Unanswered(path, rows));
  }
}
