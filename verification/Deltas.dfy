/** Authoring canonical records from agent events: streamed fragments are
    batched, everything else is authored at once. */
module Deltas {
  import opened Records

  type Bodies = seq<Body>

  datatype DeltaKind = TextKind | ThinkingKind

  datatype SpawnData = SpawnData(callId: CallId, child: SubmissionId)

  datatype Event =
    | TextDeltaEvent(text: Text)
    | ThinkingDeltaEvent(text: Text)
    | TurnEvent
    | ToolUpdateEvent
    | InjectedEvent(text: Text)
    | MessageStartEvent(assistant: bool, messageType: Text)
    | ToolCallStartEvent(callId: CallId, tool: Text)
    // spawn is Some for a suspended call that carries its spawn payload
    | ToolCallEndEvent(callId: CallId, tool: Text, isError: bool, content: Text, spawn: Option<SpawnData>)
    | MessageEndEvent(assistant: bool, text: Text)

  /** An event, and whether the buffer has aged past the flush interval. */
  datatype Timed = Timed(event: Event, stale: bool)

  function Delta(kind: DeltaKind, text: Text): Body {
    match kind
    case TextKind => TextDelta(text)
    case ThinkingKind => ThinkingDelta(text)
  }

  predicate IsDelta(body: Body) { body.TextDelta? || body.ThinkingDelta? }

  predicate SameKind(a: Body, b: Body) {
    (a.TextDelta? && b.TextDelta?) || (a.ThinkingDelta? && b.ThinkingDelta?)
  }

  predicate Spawned(log: Bodies, callId: CallId) {
    exists i :: 0 <= i < |log| && log[i].TaskSpawned? && log[i].callId == callId
  }

  // ---- the reference: every event authored at once ----

  /** What an event authors when nothing is batched. */
  function Direct(log: Bodies, ev: Event): Bodies {
    match ev
    case TextDeltaEvent(text) => [TextDelta(text)]
    case ThinkingDeltaEvent(text) => [ThinkingDelta(text)]
    case TurnEvent => []
    case ToolUpdateEvent => []
    case InjectedEvent(text) => [UserMessage(text)]
    case MessageStartEvent(assistant, messageType) => if assistant then [MessageStarted(messageType)] else []
    case ToolCallStartEvent(callId, tool) => [ToolCall(callId, tool)]
    case ToolCallEndEvent(callId, tool, isError, content, spawn) =>
      if spawn.None? then [ToolOutcome(callId, tool, isError, content)]
      else if Spawned(log, spawn.value.callId) then []
      else [TaskSpawned(spawn.value.callId, spawn.value.child)]
    case MessageEndEvent(assistant, text) => if assistant then [MessageCompleted(text)] else []
  }

  function DirectAll(log: Bodies, evs: seq<Timed>): Bodies {
    if evs == [] then log
    else
      var before := DirectAll(log, evs[..|evs| - 1]);
      before + Direct(before, evs[|evs| - 1].event)
  }

  // ---- logs up to batching ----

  function Push(log: Bodies, body: Body): Bodies {
    if !IsDelta(body) then log + [body]
    else if body.text == "" then log
    else if log != [] && SameKind(log[|log| - 1], body) then
      log[..|log| - 1] + [if body.TextDelta? then TextDelta(log[|log| - 1].text + body.text)
                          else ThinkingDelta(log[|log| - 1].text + body.text)]
    else log + [body]
  }

  /** The log with adjacent deltas of one kind merged and empty ones dropped. */
  function Merge(log: Bodies): Bodies {
    if log == [] then [] else Push(Merge(log[..|log| - 1]), log[|log| - 1])
  }

  lemma MergePush(log: Bodies, body: Body)
    ensures Merge(log + [body]) == Push(Merge(log), body)
  {
    assert (log + [body])[..|log|] == log;
  }

  /** Two fragments of one kind count as their concatenation. */
  lemma PushTwice(log: Bodies, kind: DeltaKind, a: Text, b: Text)
    ensures Push(Push(log, Delta(kind, a)), Delta(kind, b)) == Push(log, Delta(kind, a + b))
  {
    if a == "" {
      assert a + b == b;
    } else if b == "" {
      assert a + b == a;
    } else {
      var one := Push(log, Delta(kind, a));
      assert SameKind(one[|one| - 1], Delta(kind, b));
      if log != [] && SameKind(log[|log| - 1], Delta(kind, a)) {
        var last := log[|log| - 1].text;
        assert last + a + b == last + (a + b);
      }
    }
  }

  lemma PushKeepsSpawns(log: Bodies, body: Body, c: CallId)
    ensures Spawned(Push(log, body), c) <==> Spawned(log, c) || (body.TaskSpawned? && body.callId == c)
  {
    var log' := Push(log, body);
    if Spawned(log, c) {
      var i :| 0 <= i < |log| && log[i].TaskSpawned? && log[i].callId == c;
      assert log'[i] == log[i];
    }
    if body.TaskSpawned? {
      assert log'[|log|] == body;
    }
  }

  lemma {:induction false} MergeKeepsSpawns(log: Bodies, c: CallId)
    ensures Spawned(Merge(log), c) <==> Spawned(log, c)
  {
    if log != [] {
      var n := |log| - 1;
      MergeKeepsSpawns(log[..n], c);
      PushKeepsSpawns(Merge(log[..n]), log[n], c);
      if Spawned(log[..n], c) {
        var i :| 0 <= i < n && log[..n][i].TaskSpawned? && log[..n][i].callId == c;
        assert log[i].callId == c;
      }
      if Spawned(log, c) {
        var i :| 0 <= i < |log| && log[i].TaskSpawned? && log[i].callId == c;
        if i < n { assert log[..n][i].callId == c; }
      }
    }
  }

  // ---- the batching run ----

  datatype Batch = Batch(kind: DeltaKind, buf: Text, log: Bodies, pendingSpawns: nat)

  function Flush(b: Batch): Batch {
    if b.buf == "" then b else b.(buf := "", log := b.log + [Delta(b.kind, b.buf)])
  }

  function Buffer(b: Batch, kind: DeltaKind, text: Text, limit: int, stale: bool): Batch {
    var b1 := if b.buf != "" && b.kind != kind then Flush(b) else b;
    var b2 := b1.(kind := if b1.buf == "" then kind else b1.kind, buf := b1.buf + text);
    if |b2.buf| >= limit || stale then Flush(b2) else b2
  }

  /** A suspended call that carries its spawn payload: no outcome is authored. */
  predicate Suspends(ev: Event) { ev.ToolCallEndEvent? && ev.spawn.Some? }

  /** The events that leave the buffer alone. */
  predicate Silent(ev: Event) {
    ev.TurnEvent? || ev.ToolUpdateEvent? || (ev.MessageStartEvent? && !ev.assistant)
  }

  function Consume(b: Batch, limit: int, t: Timed): Batch {
    if t.event.TextDeltaEvent? then Buffer(b, TextKind, t.event.text, limit, t.stale)
    else if t.event.ThinkingDeltaEvent? then Buffer(b, ThinkingKind, t.event.text, limit, t.stale)
    else if Silent(t.event) then b
    else
      var b1 := Flush(b);
      b1.(log := b1.log + Direct(b1.log, t.event),
          pendingSpawns := b1.pendingSpawns + (if Suspends(t.event) then 1 else 0))
  }

  function ConsumeAll(b: Batch, limit: int, evs: seq<Timed>): Batch {
    if evs == [] then b else Consume(ConsumeAll(b, limit, evs[..|evs| - 1]), limit, evs[|evs| - 1])
  }

  /** What readers will have seen once the buffer is flushed. */
  function Shown(b: Batch): Bodies {
    Push(Merge(b.log), Delta(b.kind, b.buf))
  }

  lemma FlushShows(b: Batch)
    ensures Shown(Flush(b)) == Shown(b) == Merge(Flush(b).log)
  {
    if b.buf != "" { MergePush(b.log, Delta(b.kind, b.buf)); }
  }

  lemma BufferShows(b: Batch, kind: DeltaKind, text: Text, limit: int, stale: bool)
    ensures Shown(Buffer(b, kind, text, limit, stale)) == Push(Shown(b), Delta(kind, text))
  {
    var b1 := if b.buf != "" && b.kind != kind then Flush(b) else b;
    FlushShows(b);
    var b2 := b1.(kind := if b1.buf == "" then kind else b1.kind, buf := b1.buf + text);
    assert b2.kind == kind;
    PushTwice(Merge(b1.log), kind, b1.buf, text);
    FlushShows(b2);
  }

  lemma MergeAppendOne(log: Bodies, more: Bodies)
    requires |more| <= 1
    ensures Merge(log + more) == if more == [] then Merge(log) else Push(Merge(log), more[0])
  {
    if more == [] { assert log + more == log; } else { assert more == [more[0]]; MergePush(log, more[0]); }
  }

  /** One event shows what it would have authored directly. */
  lemma ConsumeShows(b: Batch, limit: int, t: Timed, direct: Bodies)
    requires Shown(b) == Merge(direct)
    ensures Shown(Consume(b, limit, t)) == Merge(direct + Direct(direct, t.event))
  {
    if t.event.TextDeltaEvent? {
      BufferShows(b, TextKind, t.event.text, limit, t.stale);
      MergePush(direct, TextDelta(t.event.text));
    } else if t.event.ThinkingDeltaEvent? {
      BufferShows(b, ThinkingKind, t.event.text, limit, t.stale);
      MergePush(direct, ThinkingDelta(t.event.text));
    } else if Silent(t.event) {
      assert direct + [] == direct;
    } else {
      AuthorShows(b, limit, t, direct);
    }
  }

  lemma SameSpawns(b: Batch, direct: Bodies, c: CallId)
    requires Shown(b) == Merge(direct)
    ensures Spawned(Flush(b).log, c) <==> Spawned(direct, c)
  {
    FlushShows(b);
    MergeKeepsSpawns(Flush(b).log, c);
    MergeKeepsSpawns(direct, c);
  }

  lemma SameDirect(b: Batch, direct: Bodies, ev: Event)
    requires Shown(b) == Merge(direct)
    ensures Direct(Flush(b).log, ev) == Direct(direct, ev)
  {
    if ev.ToolCallEndEvent? && ev.spawn.Some? { SameSpawns(b, direct, ev.spawn.value.callId); }
  }

  lemma AuthorShows(b: Batch, limit: int, t: Timed, direct: Bodies)
    requires Shown(b) == Merge(direct)
    requires Consume(b, limit, t).log == Flush(b).log + Direct(Flush(b).log, t.event) && Consume(b, limit, t).buf == ""
    ensures Shown(Consume(b, limit, t)) == Merge(direct + Direct(direct, t.event))
  {
    FlushShows(b);
    SameDirect(b, direct, t.event);
    MergeAppendOne(direct, Direct(direct, t.event));
    MergeAppendOne(Flush(b).log, Direct(direct, t.event));
    FlushShows(Consume(b, limit, t));
  }

  /** Batching is lossless: whatever the flush limit and timing, the authored log,
      merged by adjacent kind, equals the unbatched log merged by adjacent kind. */
  lemma {:induction false} BatchingIsLossless(b: Batch, limit: int, evs: seq<Timed>)
    requires b.buf == ""
    ensures Shown(ConsumeAll(b, limit, evs)) == Merge(DirectAll(b.log, evs))
    ensures Merge(Flush(ConsumeAll(b, limit, evs)).log) == Merge(DirectAll(b.log, evs))
  {
    if evs != [] {
      var n := |evs| - 1;
      BatchingIsLossless(b, limit, evs[..n]);
      ConsumeShows(ConsumeAll(b, limit, evs[..n]), limit, evs[n], DirectAll(b.log, evs[..n]));
    }
    FlushShows(ConsumeAll(b, limit, evs));
  }

  predicate NoEmptyDelta(log: Bodies) {
    forall i :: 0 <= i < |log| && IsDelta(log[i]) ==> log[i].text != ""
  }

  lemma FlushNoEmpty(b: Batch)
    requires NoEmptyDelta(b.log)
    ensures NoEmptyDelta(Flush(b).log)
  {
  }

  lemma ConsumeNoEmpty(b: Batch, limit: int, t: Timed)
    requires NoEmptyDelta(b.log)
    ensures NoEmptyDelta(Consume(b, limit, t).log)
  {
    FlushNoEmpty(b);
    if t.event.TextDeltaEvent? {
      BufferNoEmpty(b, TextKind, t.event.text, limit, t.stale);
    } else if t.event.ThinkingDeltaEvent? {
      BufferNoEmpty(b, ThinkingKind, t.event.text, limit, t.stale);
    }
  }

  lemma BufferNoEmpty(b: Batch, kind: DeltaKind, text: Text, limit: int, stale: bool)
    requires NoEmptyDelta(b.log)
    ensures NoEmptyDelta(Buffer(b, kind, text, limit, stale).log)
  {
    var b1 := if b.buf != "" && b.kind != kind then Flush(b) else b;
    FlushNoEmpty(b);
    FlushNoEmpty(b1.(kind := if b1.buf == "" then kind else b1.kind, buf := b1.buf + text));
  }

  /** No authored delta record is empty. */
  lemma {:induction false} NoDeltaIsEmpty(b: Batch, limit: int, evs: seq<Timed>)
    requires NoEmptyDelta(b.log)
    ensures NoEmptyDelta(Flush(ConsumeAll(b, limit, evs)).log)
    ensures NoEmptyDelta(ConsumeAll(b, limit, evs).log)
  {
    if evs != [] {
      NoDeltaIsEmpty(b, limit, evs[..|evs| - 1]);
      ConsumeNoEmpty(ConsumeAll(b, limit, evs[..|evs| - 1]), limit, evs[|evs| - 1]);
    }
    FlushNoEmpty(ConsumeAll(b, limit, evs));
  }

  /** Records already authored stay where they are. */
  lemma ConsumeExtends(b: Batch, limit: int, t: Timed)
    ensures b.log <= Consume(b, limit, t).log
    ensures forall k :: |b.log| <= k < |Consume(b, limit, t).log| && !IsDelta(Consume(b, limit, t).log[k]) ==>
              && k == |Flush(b).log| && Consume(b, limit, t).log[..k] == Flush(b).log && Consume(b, limit, t).buf == ""
              && !t.event.TextDeltaEvent? && !t.event.ThinkingDeltaEvent?
              && Direct(Flush(b).log, t.event) == [Consume(b, limit, t).log[k]]
  {
  }

  /** No other record overtakes buffered text: where a non-delta record stands, the
      log before it shows everything that came before its event, and no more. */
  lemma {:induction false} NothingOvertakesText(b: Batch, limit: int, evs: seq<Timed>, k: nat) returns (m: nat)
    requires b.buf == "" && |b.log| <= k < |ConsumeAll(b, limit, evs).log|
    requires !IsDelta(ConsumeAll(b, limit, evs).log[k])
    ensures m < |evs|
    ensures Merge(ConsumeAll(b, limit, evs).log[..k]) == Merge(DirectAll(b.log, evs[..m]))
    ensures Direct(DirectAll(b.log, evs[..m]), evs[m].event) == [ConsumeAll(b, limit, evs).log[k]]
  {
    var n := |evs| - 1;
    var before, after := ConsumeAll(b, limit, evs[..n]), ConsumeAll(b, limit, evs);
    ConsumeExtends(before, limit, evs[n]);
    if k < |before.log| {
      m := NothingOvertakesText(b, limit, evs[..n], k);
      assert evs[..n][..m] == evs[..m];
      assert after.log[..k] == before.log[..k];
    } else {
      m := n;
      BatchingIsLossless(b, limit, evs[..n]);
      FlushShows(before);
      SameDirect(before, DirectAll(b.log, evs[..n]), evs[n].event);
    }
  }

  // ---- what each event leaves in the log ----

  /** What a record holds of the streamed text of a kind. */
  function Piece(body: Body, kind: DeltaKind): Text {
    match body
    case TextDelta(text) => if kind.TextKind? then text else ""
    case ThinkingDelta(text) => if kind.ThinkingKind? then text else ""
    case _ => ""
  }

  /** What an event streams of a kind. */
  function Fragment(ev: Event, kind: DeltaKind): Text {
    match ev
    case TextDeltaEvent(text) => if kind.TextKind? then text else ""
    case ThinkingDeltaEvent(text) => if kind.ThinkingKind? then text else ""
    case _ => ""
  }

  /** The text of one kind in the log, end to end. */
  function TextOf(log: Bodies, kind: DeltaKind): Text {
    if log == [] then "" else TextOf(log[..|log| - 1], kind) + Piece(log[|log| - 1], kind)
  }

  function StreamedText(evs: seq<Timed>, kind: DeltaKind): Text {
    if evs == [] then "" else StreamedText(evs[..|evs| - 1], kind) + Fragment(evs[|evs| - 1].event, kind)
  }

  lemma TextSnoc(log: Bodies, body: Body, kind: DeltaKind)
    ensures TextOf(log + [body], kind) == TextOf(log, kind) + Piece(body, kind)
  {
    assert (log + [body])[..|log|] == log;
  }

  /** What the run holds of a kind: recorded or buffered. */
  function Held(b: Batch, kind: DeltaKind): Text {
    TextOf(b.log, kind) + Piece(Delta(b.kind, b.buf), kind)
  }

  lemma FlushHolds(b: Batch, kind: DeltaKind)
    ensures Held(Flush(b), kind) == Held(b, kind) == TextOf(Flush(b).log, kind)
  {
    if b.buf != "" { TextSnoc(b.log, Delta(b.kind, b.buf), kind); }
  }

  lemma PieceAppends(into: DeltaKind, a: Text, b: Text, kind: DeltaKind)
    ensures Piece(Delta(into, a + b), kind) == Piece(Delta(into, a), kind) + Piece(Delta(into, b), kind)
    ensures Piece(Delta(into, ""), kind) == ""
  {
  }

  lemma Associates(a: Text, b: Text, c: Text)
    ensures a + (b + c) == a + b + c
  {
  }

  /** Text put behind a buffer that is empty or of its kind. */
  lemma GrownHolds(b: Batch, into: DeltaKind, text: Text, kind: DeltaKind)
    requires b.buf == "" || b.kind == into
    ensures Held(b.(kind := into, buf := b.buf + text), kind) == Held(b, kind) + Piece(Delta(into, text), kind)
  {
    PieceAppends(into, b.buf, text, kind);
    PieceAppends(b.kind, "", "", kind);
    Associates(TextOf(b.log, kind), Piece(Delta(into, b.buf), kind), Piece(Delta(into, text), kind));
    assert b.buf == "" ==> Piece(Delta(b.kind, b.buf), kind) == "" == Piece(Delta(into, b.buf), kind);
  }

  lemma BufferHolds(b: Batch, into: DeltaKind, text: Text, limit: int, stale: bool, kind: DeltaKind)
    ensures Held(Buffer(b, into, text, limit, stale), kind) == Held(b, kind) + Piece(Delta(into, text), kind)
  {
    var b1 := if b.buf != "" && b.kind != into then Flush(b) else b;
    var b2 := b1.(kind := into, buf := b1.buf + text);
    FlushHolds(b, kind);
    GrownHolds(b1, into, text, kind);
    FlushHolds(b2, kind);
    BufferSteps(b, into, text, limit, stale, b1, b2);
  }

  lemma BufferSteps(b: Batch, into: DeltaKind, text: Text, limit: int, stale: bool, b1: Batch, b2: Batch)
    requires b1 == if b.buf != "" && b.kind != into then Flush(b) else b
    requires b2 == b1.(kind := into, buf := b1.buf + text)
    ensures Buffer(b, into, text, limit, stale) in {b2, Flush(b2)}
  {
  }

  lemma AuthorHolds(log: Bodies, ev: Event, kind: DeltaKind)
    requires !ev.TextDeltaEvent? && !ev.ThinkingDeltaEvent?
    ensures TextOf(log + Direct(log, ev), kind) == TextOf(log, kind)
  {
    var more := Direct(log, ev);
    if more == [] {
      assert log + more == log;
    } else {
      assert more == [more[0]] && Piece(more[0], kind) == "";
      TextSnoc(log, more[0], kind);
      assert TextOf(log, kind) + "" == TextOf(log, kind);
    }
  }

  lemma ConsumeHolds(b: Batch, limit: int, t: Timed, kind: DeltaKind)
    ensures Held(Consume(b, limit, t), kind) == Held(b, kind) + Fragment(t.event, kind)
  {
    assert Held(b, kind) + "" == Held(b, kind);
    if t.event.TextDeltaEvent? {
      BufferHolds(b, TextKind, t.event.text, limit, t.stale, kind);
    } else if t.event.ThinkingDeltaEvent? {
      BufferHolds(b, ThinkingKind, t.event.text, limit, t.stale, kind);
    } else if !Silent(t.event) {
      AuthoringHolds(b, limit, t, kind);
    }
  }

  lemma AuthoringHolds(b: Batch, limit: int, t: Timed, kind: DeltaKind)
    requires !t.event.TextDeltaEvent? && !t.event.ThinkingDeltaEvent? && !Silent(t.event)
    ensures Held(Consume(b, limit, t), kind) == Held(b, kind)
  {
    var b' := Consume(b, limit, t);
    FlushHolds(b, kind);
    AuthorHolds(Flush(b).log, t.event, kind);
    assert b'.buf == "" && b'.log == Flush(b).log + Direct(Flush(b).log, t.event);
    PieceAppends(b'.kind, "", "", kind);
    assert TextOf(b'.log, kind) + "" == TextOf(b'.log, kind);
  }

  /** No streamed text is lost, repeated or reordered: what the log holds of a kind
      after the flush is what it held and the fragments since, end to end. */
  lemma {:induction false} NoTextIsLost(b: Batch, limit: int, evs: seq<Timed>, kind: DeltaKind)
    ensures TextOf(Flush(ConsumeAll(b, limit, evs)).log, kind) == Held(b, kind) + StreamedText(evs, kind)
    ensures Held(ConsumeAll(b, limit, evs), kind) == Held(b, kind) + StreamedText(evs, kind)
  {
    FlushHolds(ConsumeAll(b, limit, evs), kind);
    if evs == [] {
      assert Held(b, kind) + "" == Held(b, kind);
    } else {
      var n := |evs| - 1;
      var before := ConsumeAll(b, limit, evs[..n]);
      NoTextIsLost(b, limit, evs[..n], kind);
      ConsumeHolds(before, limit, evs[n], kind);
      assert ConsumeAll(b, limit, evs) == Consume(before, limit, evs[n]);
      Associates(Held(b, kind), StreamedText(evs[..n], kind), Fragment(evs[n].event, kind));
    }
  }

  /** The record an event other than a fragment stands for. */
  predicate Stands(body: Body, ev: Event) {
    match ev
    case InjectedEvent(text) => body == UserMessage(text)
    case MessageStartEvent(true, messageType) => body == MessageStarted(messageType)
    case ToolCallStartEvent(callId, tool) => body == ToolCall(callId, tool)
    case ToolCallEndEvent(callId, tool, isError, content, None) => body == ToolOutcome(callId, tool, isError, content)
    case ToolCallEndEvent(_, _, _, _, Some(spawn)) => body.TaskSpawned? && body.callId == spawn.callId
    case MessageEndEvent(true, text) => body == MessageCompleted(text)
    case _ => false
  }

  lemma {:induction false} LogsExtend(b: Batch, limit: int, evs: seq<Timed>, m: nat)
    requires m <= |evs|
    ensures ConsumeAll(b, limit, evs[..m]).log <= ConsumeAll(b, limit, evs).log
    decreases |evs|
  {
    if m == |evs| {
      assert evs[..m] == evs;
    } else {
      var n := |evs| - 1;
      LogsExtend(b, limit, evs[..n], m);
      assert evs[..n][..m] == evs[..m];
      ConsumeExtends(ConsumeAll(b, limit, evs[..n]), limit, evs[n]);
    }
  }

  /** Every other event that authors has its record in the log, right after the text
      streamed before it: a tool end its outcome with the tool's flag and content, a
      suspended call a spawn record (perhaps an earlier one), a finished message its
      text. */
  lemma EventIsAuthored(b: Batch, limit: int, evs: seq<Timed>, m: nat) returns (k: nat)
    requires m < |evs|
    requires var ev := evs[m].event;
             ev.InjectedEvent? || ev.ToolCallStartEvent? || ev.ToolCallEndEvent?
             || (ev.MessageStartEvent? && ev.assistant) || (ev.MessageEndEvent? && ev.assistant)
    ensures k < |ConsumeAll(b, limit, evs).log| && Stands(ConsumeAll(b, limit, evs).log[k], evs[m].event)
    ensures !(evs[m].event.ToolCallEndEvent? && evs[m].event.spawn.Some?) ==>
              forall kind :: TextOf(ConsumeAll(b, limit, evs).log[..k], kind)
                             == Held(b, kind) + StreamedText(evs[..m], kind)
    ensures evs[m].event.ToolCallEndEvent? && evs[m].event.spawn.Some?
            && !Spawned(ConsumeAll(b, limit, evs[..m]).log, evs[m].event.spawn.value.callId) ==>
              var spawn := evs[m].event.spawn.value;
              ConsumeAll(b, limit, evs).log[k] == TaskSpawned(spawn.callId, spawn.child)
  {
    var before, after := ConsumeAll(b, limit, evs[..m]), ConsumeAll(b, limit, evs[..m + 1]);
    var all := ConsumeAll(b, limit, evs);
    assert evs[..m + 1][..m] == evs[..m];
    assert after == Consume(before, limit, evs[m]);
    LogsExtend(b, limit, evs, m + 1);
    var flushed := Flush(before).log;
    var ev := evs[m].event;
    assert flushed == before.log || flushed == before.log + [Delta(before.kind, before.buf)];
    if ev.ToolCallEndEvent? && ev.spawn.Some? && Spawned(flushed, ev.spawn.value.callId) {
      k :| 0 <= k < |flushed| && flushed[k].TaskSpawned? && flushed[k].callId == ev.spawn.value.callId;
      assert after.log[k] == flushed[k];
    } else {
      k := |flushed|;
      assert after.log == flushed + [after.log[k]];
      assert all.log[..k] == flushed;
      forall kind
        ensures TextOf(flushed, kind) == Held(b, kind) + StreamedText(evs[..m], kind)
      {
        NoTextIsLost(b, limit, evs[..m], kind);
      }
    }
  }

  /** The suspended calls of a stream, by position. */
  function Suspended(evs: seq<Timed>): set<nat> {
    set n: nat | n < |evs| && evs[n].event.ToolCallEndEvent? && evs[n].event.spawn.Some?
  }

  lemma ConsumeCounts(b: Batch, limit: int, t: Timed)
    ensures Consume(b, limit, t).pendingSpawns == b.pendingSpawns + if Suspends(t.event) then 1 else 0
  {
  }

  /** The run parks for as many spawns as calls were suspended. */
  lemma {:induction false} PendingSpawnsAreCounted(b: Batch, limit: int, evs: seq<Timed>)
    ensures ConsumeAll(b, limit, evs).pendingSpawns == b.pendingSpawns + |Suspended(evs)|
  {
    if evs == [] {
      assert Suspended(evs) == {};
    } else {
      var n := |evs| - 1;
      var before := ConsumeAll(b, limit, evs[..n]);
      PendingSpawnsAreCounted(b, limit, evs[..n]);
      ConsumeCounts(before, limit, evs[n]);
      assert ConsumeAll(b, limit, evs) == Consume(before, limit, evs[n]);
      SuspendedNext(evs);
    }
  }

  lemma SuspendedNext(evs: seq<Timed>)
    requires evs != []
    ensures |Suspended(evs)| == |Suspended(evs[..|evs| - 1])| + if Suspends(evs[|evs| - 1].event) then 1 else 0
  {
    var n := |evs| - 1;
    assert Suspended(evs) == Suspended(evs[..n]) + if Suspends(evs[n].event) then {n} else {};
  }

  /** Text does not stay in the buffer: it is shorter than the limit, and empty after
      a fragment that found it stale. */
  lemma {:induction false} BufferIsBounded(b: Batch, limit: int, evs: seq<Timed>)
    requires b.buf == "" && limit > 0
    ensures |ConsumeAll(b, limit, evs).buf| < limit
    ensures evs != [] && evs[|evs| - 1].stale
            && (evs[|evs| - 1].event.TextDeltaEvent? || evs[|evs| - 1].event.ThinkingDeltaEvent?) ==>
              ConsumeAll(b, limit, evs).buf == ""
  {
    if evs != [] {
      BufferIsBounded(b, limit, evs[..|evs| - 1]);
    }
  }

  /** The consumer side of one attempt. */
  class SubmissionRun {
    const flushBytes: int
    var deltaKind: DeltaKind
    var deltaBuf: Text
    var log: Bodies
    var pendingSpawns: nat

    ghost function View(): Batch
      reads this
    {
      Batch(deltaKind, deltaBuf, log, pendingSpawns)
    }

    constructor (log: Bodies, flushBytes: int)
      ensures View() == Batch(TextKind, "", log, 0) && this.flushBytes == flushBytes
    {
      this.log, this.flushBytes := log, flushBytes;
      deltaKind, deltaBuf, pendingSpawns := TextKind, "", 0;
    }

    method Append(body: Body)
      modifies this`log
      ensures log == old(log) + [body]
    {
      log := log + [body];
    }

    method FlushDeltas()
      modifies this`deltaBuf, this`log
      ensures View() == old(Flush(View()))
    {
      if |deltaBuf| == 0 {
        return;
      }
      var text, kind := deltaBuf, deltaKind;
      deltaBuf := deltaBuf[..0];
      if kind == ThinkingKind {
        Append(ThinkingDelta(text));
      } else {
        Append(TextDelta(text));
      }
    }

    method BufferDelta(kind: DeltaKind, delta: Text, stale: bool)
      modifies this
      ensures View() == old(Buffer(View(), kind, delta, flushBytes, stale))
    {
      if |deltaBuf| > 0 && deltaKind != kind {
        FlushDeltas();
      }
      if |deltaBuf| == 0 {
        deltaKind := kind;
      }
      deltaBuf := deltaBuf + delta;
      if |deltaBuf| >= flushBytes || stale {
        FlushDeltas();
      }
    }

    method SpawnRecordExists(callId: CallId) returns (found: bool)
      ensures found == Spawned(log, callId)
    {
      for i := 0 to |log|
        invariant forall j :: 0 <= j < i ==> !(log[j].TaskSpawned? && log[j].callId == callId)
      {
        if log[i].TaskSpawned? && log[i].callId == callId {
          return true;
        }
      }
      return false;
    }

    method ConsumeEvent(ev: Event, stale: bool)
      modifies this
      ensures View() == old(Consume(View(), flushBytes, Timed(ev, stale)))
    {
      match ev {
        case TextDeltaEvent(text) => BufferDelta(TextKind, text, stale);
        case ThinkingDeltaEvent(text) => BufferDelta(ThinkingKind, text, stale);
        case TurnEvent =>
        case ToolUpdateEvent =>
        case InjectedEvent(text) =>
          FlushDeltas();
          Append(UserMessage(text));
        case MessageStartEvent(assistant, messageType) =>
          if assistant {
            FlushDeltas();
            Append(MessageStarted(messageType));
          }
        case ToolCallStartEvent(callId, tool) =>
          FlushDeltas();
          Append(ToolCall(callId, tool));
        case ToolCallEndEvent(callId, tool, isError, content, spawn) =>
          FlushDeltas();
          if spawn.Some? {
            var found := SpawnRecordExists(spawn.value.callId);
            if !found {
              Append(TaskSpawned(spawn.value.callId, spawn.value.child));
            }
            pendingSpawns := pendingSpawns + 1;
          } else {
            Append(ToolOutcome(callId, tool, isError, content));
          }
        case MessageEndEvent(assistant, text) =>
          FlushDeltas();
          if assistant {
            Append(MessageCompleted(text));
          }
      }
    }

    /** Drains one stream, then flushes what is left. */
    method ConsumeStream(evs: seq<Timed>)
      modifies this
      ensures View() == old(Flush(ConsumeAll(View(), flushBytes, evs)))
      ensures deltaBuf == ""
    {
      for i := 0 to |evs|
        invariant View() == old(ConsumeAll(View(), flushBytes, evs[..i]))
      {
        assert evs[..i + 1][..i] == evs[..i];
        ConsumeEvent(evs[i].event, evs[i].stale);
      }
      assert evs[..|evs|] == evs;
      FlushDeltas();
    }
  }
}
