/** The read side: the transcript a conversation projects to, and what a
    compaction does to it. */
module Projection {
  import opened Records
  import opened StoreModel
  import opened Reducer
  import MemoryStore

  datatype Message =
    | System(text: Text)
    | User(text: Text)
    | SignalMessage(text: Text)
    | Assistant(text: Text)
    | CallMessage(callId: CallId, tool: Text)
    | ResultMessage(callId: CallId, tool: Text, isError: bool, content: Text)
    | SummaryMessage(text: Text)

  /** None for lifecycle, delta, spawn and settlement records. */
  function RecordToMessage(rec: Record): Option<Message> {
    match rec.body
    case UserMessage(text) => Some(User(text))
    case Signal(text) => Some(SignalMessage(text))
    case MessageCompleted(text) => Some(Assistant(text))
    case ToolCall(callId, tool) => Some(CallMessage(callId, tool))
    case ToolOutcome(callId, tool, isError, content) => Some(ResultMessage(callId, tool, isError, content))
    case Compaction(summary, _, _, _) => Some(SummaryMessage(summary))
    case _ => None
  }

  function Messages(path: Log): seq<Message> {
    if path == [] then []
    else
      match RecordToMessage(path[0])
      case Some(m) => [m] + Messages(path[1..])
      case None => Messages(path[1..])
  }

  function Preamble(systemPrompt: Text): seq<Message> {
    if systemPrompt != "" then [System(systemPrompt)] else []
  }

  /** What Load returns. */
  function Transcript(systemPrompt: Text, log: Log): seq<Message> {
    Preamble(systemPrompt) + Messages(ActivePath(log))
  }

  lemma {:induction false} MessagesConcat(p: Log, q: Log)
    ensures Messages(p + q) == Messages(p) + Messages(q)
  {
    if p == [] {
      assert p + q == q;
    } else {
      assert (p + q)[1..] == p[1..] + q;
      MessagesConcat(p[1..], q);
    }
  }

  /** How a message shows a record: role and content. */
  predicate Shows(m: Message, body: Body) {
    match body
    case UserMessage(text) => m == User(text)
    case Signal(text) => m == SignalMessage(text)
    case MessageCompleted(text) => m == Assistant(text)
    case ToolCall(callId, tool) => m == CallMessage(callId, tool)
    case ToolOutcome(callId, tool, isError, content) => m == ResultMessage(callId, tool, isError, content)
    case Compaction(summary, _, _, _) => m == SummaryMessage(summary)
    case _ => false
  }

  /** The records a reader is not shown. */
  predicate Hidden(body: Body) {
    body.ConversationCreated? || body.MessageStarted? || body.TextDelta? || body.ThinkingDelta?
    || body.SubmissionSettled? || body.TaskSpawned?
  }

  lemma ShownOrHidden(rec: Record)
    ensures RecordToMessage(rec).None? <==> Hidden(rec.body)
    ensures RecordToMessage(rec).Some? ==> Shows(RecordToMessage(rec).value, rec.body)
  {
  }

  /** The messages show the records of the path at these positions. */
  ghost predicate ShownAt(path: Log, at: seq<nat>, msgs: seq<Message>) {
    Rising(at, |path|) && |msgs| == |at| && forall k :: 0 <= k < |at| ==> Shows(msgs[k], path[at[k]].body)
  }

  lemma ShownSnoc(path: Log, at: seq<nat>, msgs: seq<Message>, rec: Record)
    requires ShownAt(path, at, msgs)
    ensures ShownAt(path + [rec], at, msgs)
    ensures forall m :: Shows(m, rec.body) ==> ShownAt(path + [rec], at + [|path|], msgs + [m])
  {
    RisingSnoc(at, |path|);
  }

  lemma MessagesSnoc(path: Log, rec: Record)
    ensures Messages(path + [rec])
         == Messages(path) + if RecordToMessage(rec).Some? then [RecordToMessage(rec).value] else []
  {
    MessagesConcat(path, [rec]);
    assert [rec][1..] == [];
  }

  /** The messages show the records of the path, in order and each once, but for the
      hidden ones. */
  lemma {:induction false} MessagesShowThePath(path: Log) returns (at: seq<nat>)
    ensures ShownAt(path, at, Messages(path))
    ensures forall i :: i in at <==> 0 <= i < |path| && !Hidden(path[i].body)
  {
    if path == [] {
      at := [];
    } else {
      var n := |path| - 1;
      var init := path[..n];
      at := MessagesShowThePath(init);
      assert path == init + [path[n]];
      MessagesSnoc(init, path[n]);
      ShownOrHidden(path[n]);
      ShownSnoc(init, at, Messages(init), path[n]);
      RisingSnoc(at, n);
      assert forall i :: 0 <= i < n ==> init[i] == path[i];
      if RecordToMessage(path[n]).Some? { at := at + [n]; }
    }
  }

  /** What the model is given: the system prompt, if there is one, and then what
      shows the active path. */
  lemma TranscriptShowsThePath(systemPrompt: Text, log: Log) returns (at: seq<nat>)
    ensures
      var ts, path := Transcript(systemPrompt, log), ActivePath(log);
      if systemPrompt == "" then ShownAt(path, at, ts)
      else ts != [] && ts[0] == System(systemPrompt) && ShownAt(path, at, ts[1..])
    ensures forall i :: i in at <==> 0 <= i < |ActivePath(log)| && !Hidden(ActivePath(log)[i].body)
  {
    var path := ActivePath(log);
    at := MessagesShowThePath(path);
    if systemPrompt == "" {
      assert Transcript(systemPrompt, log) == Messages(path);
    } else {
      assert ([System(systemPrompt)] + Messages(path))[1..] == Messages(path);
    }
  }

  method Load(systemPrompt: Text, log: Log) returns (msgs: seq<Message>)
    requires Distinct(log)
    ensures msgs == Transcript(systemPrompt, log)
  {
    var path := ActivePathOf(log);
    msgs := [];
    if systemPrompt != "" {
      msgs := msgs + [System(systemPrompt)];
    }
    for n := 0 to |path|
      invariant msgs == Preamble(systemPrompt) + Messages(path[..n])
    {
      assert path[..n + 1] == path[..n] + [path[n]];
      MessagesConcat(path[..n], [path[n]]);
      match RecordToMessage(path[n]) {
        case Some(m) => msgs := msgs + [m];
        case None =>
      }
    }
    assert path[..|path|] == path;
  }

  /** The position on the path of the record behind its k-th message. */
  function KeptAt(path: Log, k: int): (i: Option<nat>)
    ensures i.Some? ==> i.value < |path|
  {
    if path == [] then None
    else if RecordToMessage(path[0]).Some? && k == 0 then Some(0)
    else
      match KeptAt(path[1..], if RecordToMessage(path[0]).Some? then k - 1 else k)
      case Some(i) => Some(i + 1)
      case None => None
  }

  /** It exists exactly for the indices of messages, and splits the messages there. */
  lemma {:induction false} KeptAtSplits(path: Log, k: int)
    ensures KeptAt(path, k).Some? <==> 0 <= k < |Messages(path)|
    ensures KeptAt(path, k).Some? ==>
      var i := KeptAt(path, k).value;
      && RecordToMessage(path[i]) == Some(Messages(path)[k])
      && Messages(path[i..]) == Messages(path)[k..]
      && |Messages(path[..i])| == k
  {
    if path != [] {
      var k' := if RecordToMessage(path[0]).Some? then k - 1 else k;
      KeptAtSplits(path[1..], k');
      if KeptAt(path, k).Some? {
        var i := KeptAt(path, k).value;
        if i > 0 {
          assert path[i..] == path[1..][i - 1..];
          assert path[..i][1..] == path[1..][..i - 1];
        } else {
          assert path[..0] == [] && path[0..] == path;
        }
      }
    }
  }

  function FirstKept(path: Log, k: int): RecordId {
    match KeptAt(path, k)
    case Some(i) => path[i].id
    case None => NONE
  }

  /** Translates a message index into what Load returned to a record id. */
  method FirstKeptEntryId(systemPrompt: Text, log: Log, endIdx: int) returns (kept: RecordId)
    requires Distinct(log)
    ensures kept == FirstKept(ActivePath(log), endIdx - |Preamble(systemPrompt)|)
  {
    var msgIdx := if systemPrompt != "" then 1 else 0;
    var path := ActivePathOf(log);
    ghost var start := msgIdx;
    for n := 0 to |path|
      invariant FirstKept(path, endIdx - start) == FirstKept(path[n..], endIdx - msgIdx)
    {
      assert path[n..][1..] == path[n + 1..];
      if RecordToMessage(path[n]).None? {
        continue;
      }
      if msgIdx == endIdx {
        return path[n].id;
      }
      msgIdx := msgIdx + 1;
    }
    return NONE;
  }

  method AppendBranchSummary(store: MemoryStore.MemoryStore, conv: ConversationId, systemPrompt: Text,
                             newId: RecordId, sub: SubmissionId, summary: Text, startIdx: int, endIdx: int)
    requires store.Valid() && Distinct(LogOf(store.View(), conv))
    modifies store
    ensures store.Valid()
    ensures store.View() == AppendTo(old(store.View()), conv,
              [Record(newId, sub,
                      Compaction(summary, FirstKept(ActivePath(old(LogOf(store.View(), conv))),
                                                    endIdx - if systemPrompt == "" then 0 else 1),
                                 startIdx, endIdx))])
  {
    var recs := store.ReadRecords(conv, NONE);
    var firstKept := FirstKeptEntryId(systemPrompt, recs, endIdx);
    store.AppendRecords(conv, [Record(newId, sub, Compaction(summary, firstKept, startIdx, endIdx))]);
  }

  function SummaryRecord(systemPrompt: Text, log: Log, newId: RecordId, sub: SubmissionId, summary: Text,
                         startIdx: int, endIdx: int): Record {
    Record(newId, sub, Compaction(summary, FirstKept(ActivePath(log), endIdx - |Preamble(systemPrompt)|),
                                  startIdx, endIdx))
  }

  /** The next Load after a compaction with EndIdx k: the system message, the
      summary, and the old transcript from k on. When k names no message (it is
      past the end, or names the system message) nothing is dropped: the old
      transcript stays whole and the summary follows it. */
  lemma CompactionPreservesTranscript(systemPrompt: Text, log: Log, newId: RecordId, sub: SubmissionId,
                                      summary: Text, startIdx: int, k: int)
    requires var rec := SummaryRecord(systemPrompt, log, newId, sub, summary, startIdx, k); Distinct(log + [rec])
    ensures
      var rec := SummaryRecord(systemPrompt, log, newId, sub, summary, startIdx, k);
      var was := Transcript(systemPrompt, log);
      var sys := Preamble(systemPrompt);
      Transcript(systemPrompt, log + [rec])
        == if |sys| <= k < |was| then sys + [SummaryMessage(summary)] + was[k..]
           else was + [SummaryMessage(summary)]
  {
    var rec := SummaryRecord(systemPrompt, log, newId, sub, summary, startIdx, k);
    var sys, path := Preamble(systemPrompt), ActivePath(log);
    var m := k - |sys|;
    KeptAtSplits(path, m);
    CompactedPath(log, rec, m);
    match KeptAt(path, m) {
      case Some(i) =>
        MessagesConcat([rec], path[i..]);
        SummaryAlone(rec);
        assert (sys + Messages(path))[k..] == Messages(path)[m..];
      case None =>
        MessagesConcat(path, [rec]);
        SummaryAlone(rec);
    }
  }

  lemma SummaryAlone(rec: Record)
    requires rec.body.Compaction?
    ensures Messages([rec]) == [SummaryMessage(rec.body.summary)]
  {
    assert [rec][1..] == [];
  }

  /** The active path after the summary record. */
  lemma CompactedPath(log: Log, rec: Record, m: int)
    requires Distinct(log + [rec]) && rec.body.Compaction? && rec.body.firstKept == FirstKept(ActivePath(log), m)
    ensures ActivePath(log + [rec]) == match KeptAt(ActivePath(log), m)
                                       case Some(i) => [rec] + ActivePath(log)[i..]
                                       case None => ActivePath(log) + [rec]
  {
    var path := ActivePath(log);
    assert (log + [rec])[..|log|] == log;
    assert forall i :: 0 <= i < |log| ==> log[i] == (log + [rec])[i];
    PathIsDistinct(log);
    match KeptAt(path, m) {
      case Some(i) =>
        assert path[i] in log;
        assert IndexOf(log, path[i].id).Some?;
        assert IndexOf(path, path[i].id) == Some(i);
      case None =>
        assert IndexOf(log, NONE).None?;
    }
  }

  /** The record named by FirstKept is the one behind Load()[k], whatever
      non-message records lie between. */
  lemma FirstKeptIsTheRecordBehind(systemPrompt: Text, log: Log, k: int) returns (i: nat)
    requires Distinct(log) && |Preamble(systemPrompt)| <= k < |Transcript(systemPrompt, log)|
    ensures i < |ActivePath(log)|
    ensures RecordToMessage(ActivePath(log)[i]) == Some(Transcript(systemPrompt, log)[k])
    ensures |Messages(ActivePath(log)[..i])| == k - |Preamble(systemPrompt)|
    ensures forall j :: 0 <= j < |ActivePath(log)| ==>
      (ActivePath(log)[j].id == FirstKept(ActivePath(log), k - |Preamble(systemPrompt)|) <==> j == i)
  {
    var path := ActivePath(log);
    PathIsDistinct(log);
    KeptAtSplits(path, k - |Preamble(systemPrompt)|);
    i := KeptAt(path, k - |Preamble(systemPrompt)|).value;
    assert Transcript(systemPrompt, log)[k] == Messages(path)[k - |Preamble(systemPrompt)|];
  }
}
