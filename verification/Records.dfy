/** The canonical record log of one conversation: the records the harness
    authors, with their payloads as datatypes. */
module Records {
  datatype Option<+T> = None | Some(value: T)

  // Identifiers are abstract numbers. 0 stands for the empty string, which the
  // source uses for "no id"; a record id doubles as a stream offset, so its
  // order is the order of the ULIDs.
  type RecordId = nat
  type ConversationId = nat
  type SubmissionId = nat
  type CallId = nat
  type AttemptId = nat
  type Text = string

  const NONE: nat := 0

  datatype SettledStatus = Succeeded | Failed

  datatype SettledErrorCode =
    | NoCode | RunFailed | AttemptBudget | TimedOut | Indeterminate | ResultInvalid | CancelledByParent

  datatype SettledPayload = SettledPayload(
    status: SettledStatus, error: Text, code: SettledErrorCode, result: Text)

  datatype Body =
    | ConversationCreated(spawnRecord: Option<RecordId>)  // the ParentRef, if any
    | UserMessage(text: Text)
    | Signal(text: Text)
    | MessageStarted(messageType: Text)
    | TextDelta(text: Text)
    | ThinkingDelta(text: Text)
    | ToolCall(callId: CallId, tool: Text)
    | ToolOutcome(callId: CallId, tool: Text, isError: bool, content: Text)
    | MessageCompleted(text: Text)
    | Compaction(summary: Text, firstKept: RecordId, startIdx: int, endIdx: int)
    | SubmissionSettled(payload: SettledPayload)
    | TaskSpawned(callId: CallId, child: SubmissionId)

  datatype Record = Record(id: RecordId, sub: SubmissionId, body: Body)

  type Log = seq<Record>

  /** The elements of s that satisfy p, in order. */
  function Filter<T(!new)>(p: T -> bool, s: seq<T>): seq<T> {
    if s == [] then []
    else Filter(p, s[..|s| - 1]) + if p(s[|s| - 1]) then [s[|s| - 1]] else []
  }

  lemma {:induction false} FilterMembers<T(!new)>(p: T -> bool, s: seq<T>)
    ensures forall x :: x in Filter(p, s) <==> x in s && p(x)
  {
    if s != [] {
      FilterMembers(p, s[..|s| - 1]);
      assert s == s[..|s| - 1] + [s[|s| - 1]];
    }
  }

  /** Increasing positions below n. */
  ghost predicate Rising(at: seq<nat>, n: nat) {
    && (forall k :: 0 <= k < |at| ==> at[k] < n)
    && (forall j, k :: 0 <= j < k < |at| ==> at[j] < at[k])
  }

  lemma RisingSnoc(at: seq<nat>, n: nat)
    requires Rising(at, n)
    ensures Rising(at, n + 1) && Rising(at + [n], n + 1)
    ensures n !in at && forall i :: i in at + [n] <==> i in at || i == n
  {
  }

  /** out lists the elements of s at the positions at. */
  ghost predicate ListedAt<T(!new)>(s: seq<T>, at: seq<nat>, out: seq<T>) {
    Rising(at, |s|) && |out| == |at| && forall k :: 0 <= k < |at| ==> out[k] == s[at[k]]
  }

  lemma ListedSnoc<T(!new)>(s: seq<T>, at: seq<nat>, out: seq<T>, x: T)
    requires ListedAt(s, at, out)
    ensures ListedAt(s + [x], at, out) && ListedAt(s + [x], at + [|s|], out + [x])
  {
    RisingSnoc(at, |s|);
  }

  /** A filtered list holds the elements that satisfy p in their order, each as often
      as it occurs. */
  lemma {:induction false} FilterKeepsOrder<T(!new)>(p: T -> bool, s: seq<T>) returns (at: seq<nat>)
    ensures ListedAt(s, at, Filter(p, s))
    ensures forall i :: i in at <==> 0 <= i < |s| && p(s[i])
  {
    if s == [] {
      at := [];
    } else {
      var n := |s| - 1;
      var init := s[..n];
      at := FilterKeepsOrder(p, init);
      assert s == init + [s[n]];
      ListedSnoc(init, at, Filter(p, init), s[n]);
      RisingSnoc(at, n);
      assert forall i :: 0 <= i < n ==> init[i] == s[i];
      if p(s[n]) { at := at + [n]; }
    }
  }

  lemma FilterNext<T(!new)>(p: T -> bool, s: seq<T>, n: nat)
    requires n < |s|
    ensures Filter(p, s[..n + 1]) == Filter(p, s[..n]) + if p(s[n]) then [s[n]] else []
  {
    assert s[..n + 1] == s[..n] + [s[n]];
    FilterSnoc(p, s[..n], s[n]);
  }

  lemma FilterSnoc<T(!new)>(p: T -> bool, s: seq<T>, x: T)
    ensures Filter(p, s + [x]) == Filter(p, s) + if p(x) then [x] else []
  {
    assert (s + [x])[..|s|] == s;
  }

  lemma {:induction false} FilterAppend<T(!new)>(p: T -> bool, s: seq<T>, t: seq<T>)
    ensures Filter(p, s + t) == Filter(p, s) + Filter(p, t)
    decreases |t|
  {
    if t == [] {
      assert s + t == s;
    } else {
      var n := |t| - 1;
      var last := if p(t[n]) then [t[n]] else [];
      assert (s + t)[..|s + t| - 1] == s + t[..n] && (s + t)[|s + t| - 1] == t[n];
      assert Filter(p, s + t) == Filter(p, s + t[..n]) + last;
      assert Filter(p, t) == Filter(p, t[..n]) + last;
      FilterAppend(p, s, t[..n]);
      assert Filter(p, s) + Filter(p, t[..n]) + last == Filter(p, s) + (Filter(p, t[..n]) + last);
    }
  }

  /** Whether some record of the log answers the call. */
  predicate HasOutcome(log: Log, callId: CallId) {
    exists i :: 0 <= i < |log| && log[i].body.ToolOutcome? && log[i].body.callId == callId
  }

  /** Whether some record of the log names the spawned call. */
  predicate HasSpawn(log: Log, callId: CallId) {
    exists i :: 0 <= i < |log| && log[i].body.TaskSpawned? && log[i].body.callId == callId
  }

  predicate IsSettledOf(rec: Record, sub: SubmissionId) {
    rec.body.SubmissionSettled? && rec.sub == sub
  }

  /** The payload of the first submission_settled record of the submission. */
  function Recorded(log: Log, sub: SubmissionId): (p: Option<SettledPayload>)
    ensures p.Some? <==> exists i :: 0 <= i < |log| && IsSettledOf(log[i], sub)
    ensures p.Some? ==> exists i :: 0 <= i < |log| && IsSettledOf(log[i], sub) && log[i].body.payload == p.value
  {
    if log == [] then None
    else if IsSettledOf(log[0], sub) then Some(log[0].body.payload)
    else
      assert log == [log[0]] + log[1..];
      Recorded(log[1..], sub)
  }

  /** How many submission_settled records the submission has. */
  function SettledCount(log: Log, sub: SubmissionId): (n: nat)
    ensures n == 0 <==> Recorded(log, sub).None?
  {
    if log == [] then 0
    else SettledCount(log[1..], sub) + (if IsSettledOf(log[0], sub) then 1 else 0)
  }

  lemma {:induction false} RecordedAppend(log: Log, more: Log, sub: SubmissionId)
    ensures Recorded(log, sub).Some? ==> Recorded(log + more, sub) == Recorded(log, sub)
    ensures Recorded(log, sub).None? ==> Recorded(log + more, sub) == Recorded(more, sub)
    ensures SettledCount(log + more, sub) == SettledCount(log, sub) + SettledCount(more, sub)
  {
    if log == [] {
      assert log + more == more;
    } else {
      assert (log + more)[1..] == log[1..] + more;
      RecordedAppend(log[1..], more, sub);
    }
  }
}
