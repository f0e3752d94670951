/** The coordinator's whole functions, each atomic: the wake, its backstop, wait
    expiry and the orphan cascade. The value functions specify the methods. */
module CoordinatorSpec {
  import opened Records
  import opened Submissions
  import opened StoreModel
  import opened Handoff
  import opened Reducer

  /** The store and the next ULID. */
  datatype Sys = Sys(st: Store, ulid: RecordId)

  const WAIT_EXPIRED: Text := "task wait expired"

  // ---- the wake ----

  function RepairSpawn(st: Store, child: Submission): Store
    requires child.parent in st.rows
  {
    var conv := st.rows[child.parent].conv;
    var spawnId := ParentRef(LogOf(st, child.conv));
    if HasSpawn(LogOf(st, conv), child.parentCallId) || spawnId == NONE then st
    else AppendTo(st, conv, [SpawnOf(spawnId, child)])
  }

  function AppendOutcome(sys: Sys, child: Submission, payload: SettledPayload): Sys
    requires child.parent in sys.st.rows
  {
    var conv := sys.st.rows[child.parent].conv;
    if HasOutcome(LogOf(sys.st, conv), child.parentCallId) then sys
    else Sys(AppendTo(sys.st, conv, [WakeOutcome(sys.ulid, child, payload, LogOf(sys.st, child.conv))]), sys.ulid + 1)
  }

  function WakeParent(sys: Sys, child: Submission, payload: SettledPayload): Sys {
    if child.parent !in sys.st.rows || sys.st.rows[child.parent].Terminal() then sys
    else
      var answered := AppendOutcome(sys.(st := RepairSpawn(sys.st, child)), child, payload);
      if AllSettled(sys.st, Kids(sys.st, child.parent) - {child.id})
      then answered.(st := Apply(answered.st, child.parent, Resume))
      else answered
  }

  /** Each child has a conversation of its own, with distinct record ids. */
  ghost predicate Apart(st: Store, kids: seq<Submission>) {
    forall i {:trigger kids[i]} :: 0 <= i < |kids| ==>
      Distinct(LogOf(st, kids[i].conv))
      && (kids[i].parent in st.rows ==> st.rows[kids[i].parent].conv != kids[i].conv)
  }

  /** The stores agree except on the parent's row and in the parent's log. */
  ghost predicate OnlyParent(st: Store, st': Store, parent: SubmissionId) {
    && parent in st.rows
    && st'.rows.Keys == st.rows.Keys && st'.order == st.order
    && (forall id :: id in st.rows && id != parent ==> st'.rows[id] == st.rows[id])
    && Evolves(st.rows[parent], st'.rows[parent])
    && (forall conv :: conv != st.rows[parent].conv ==> LogOf(st', conv) == LogOf(st, conv))
  }

  /** A wake changes at most the parent's row and the parent's log. */
  lemma WakeFrame(sys: Sys, child: Submission, payload: SettledPayload)
    ensures var sys' := WakeParent(sys, child, payload);
            sys' == sys || OnlyParent(sys.st, sys'.st, child.parent)
  {
    if child.parent in sys.st.rows && !sys.st.rows[child.parent].Terminal() {
      var st1 := RepairSpawn(sys.st, child);
      assert OnlyParent(sys.st, st1, child.parent);
      var st2 := AppendOutcome(sys.(st := st1), child, payload).st;
      assert OnlyParent(sys.st, st2, child.parent);
      if Applies(st2, child.parent, Resume) {
        TransitionEvolves(st2.rows[child.parent], Resume);
      }
      assert OnlyParent(sys.st, Apply(st2, child.parent, Resume), child.parent);
    }
  }

  lemma ApartAfterWake(sys: Sys, child: Submission, payload: SettledPayload, kids: seq<Submission>)
    requires Apart(sys.st, kids) && forall i :: 0 <= i < |kids| ==> kids[i].parent == child.parent
    ensures Apart(WakeParent(sys, child, payload).st, kids)
  {
    WakeFrame(sys, child, payload);
  }

  // ---- the calls still open ----

  /** The calls of the first n records that were spawned and never answered. */
  function OpenUpTo(log: Log, n: nat): (open: seq<CallId>)
    requires n <= |log|
    ensures forall c :: c in open <==>
      !HasOutcome(log, c) && exists i :: 0 <= i < n && log[i].body.TaskSpawned? && log[i].body.callId == c
    ensures forall i, j :: 0 <= i < j < |open| ==> open[i] != open[j]
  {
    if n == 0 then []
    else
      var init := OpenUpTo(log, n - 1);
      var body := log[n - 1].body;
      if body.TaskSpawned? && !HasOutcome(log, body.callId) && body.callId !in init
      then init + [body.callId] else init
  }

  function OpenCalls(log: Log): (open: seq<CallId>)
    ensures forall c :: c in open <==> HasSpawn(log, c) && !HasOutcome(log, c)
    ensures forall i, j :: 0 <= i < j < |open| ==> open[i] != open[j]
  {
    OpenUpTo(log, |log|)
  }

  // ---- the backstop ----

  /** Wakes replayed for the children, one by one; a child whose payload is
      wanted but was never recorded stops the pass. */
  function ReplayWakes(sys: Sys, kids: seq<Submission>, open: seq<CallId>): Sys
    decreases |kids|
  {
    if kids == [] then sys
    else
      var kid := kids[0];
      var recorded := Recorded(LogOf(sys.st, kid.conv), kid.id);
      if kid.parentCallId !in open then ReplayWakes(WakeParent(sys, kid, ZERO_PAYLOAD), kids[1..], open)
      else if recorded.None? then sys
      else ReplayWakes(WakeParent(sys, kid, recorded.value), kids[1..], open)
  }

  const ZERO_PAYLOAD := SettledPayload(Failed, "", NoCode, "")

  function BackstopWake(sys: Sys, parent: Submission): Sys
    requires WellFormed(sys.st)
  {
    var kids := Children(sys.st, parent.id);
    if exists i :: 0 <= i < |kids| && kids[i].status != Settled then sys
    else ReplayWakes(sys, kids, OpenCalls(LogOf(sys.st, parent.conv)))
  }

  // ---- wait expiry ----

  /** CancelSubmission on each child that was not settled. */
  function CancelEach(st: Store, kids: seq<Submission>, reason: Text): Store
    decreases |kids|
  {
    if kids == [] then st
    else CancelEach(if kids[0].status == Settled then st else Apply(st, kids[0].id, Cancel(reason)), kids[1..], reason)
  }

  function ExpiryOutcomes(open: seq<CallId>, ulid: RecordId, parent: SubmissionId): Log {
    seq(|open|, i requires 0 <= i < |open| =>
      Record(ulid + i, parent, ToolOutcome(open[i], "task", true, WAIT_EXPIRED)))
  }

  function ExpireWait(sys: Sys, parent: Submission): Sys
    requires WellFormed(sys.st)
  {
    var st1 := CancelEach(sys.st, Children(sys.st, parent.id), "parent wait expired");
    var out := ExpiryOutcomes(OpenCalls(LogOf(st1, parent.conv)), sys.ulid, parent.id);
    var st2 := if out == [] then st1 else AppendTo(st1, parent.conv, out);
    Sys(Apply(st2, parent.id, Resume), sys.ulid + |out|)
  }

  // ---- the orphan cascade ----

  /** The payload settlement goes by: what is on record wins. */
  function EffectivePayload(st: Store, sub: Submission, payload: SettledPayload): SettledPayload {
    match Recorded(LogOf(st, sub.conv), sub.id)
    case Some(p) => p
    case None => payload
  }

  /** The settled record, unless the submission has one. */
  function RecordOnly(sys: Sys, sub: Submission, payload: SettledPayload): Sys {
    if Recorded(LogOf(sys.st, sub.conv), sub.id).Some? then sys
    else Sys(AppendTo(sys.st, sub.conv, [Record(sys.ulid, sub.id, SubmissionSettled(payload))]), sys.ulid + 1)
  }

  /** The record half of settlement: once per submission, then the wake. */
  function SettledRecordOnce(sys: Sys, sub: Submission, payload: SettledPayload): Sys {
    var sys' := RecordOnly(sys, sub, payload);
    if sub.parent == NONE then sys' else WakeParent(sys', sub, EffectivePayload(sys.st, sub, payload))
  }

  /** The parent a submission names is not in the store: the wake fails, and the
      settlement stops after the record. */
  predicate Orphan(st: Store, sub: Submission) { sub.parent != NONE && sub.parent !in st.rows }

  function FinalizeAndWake(sys: Sys, sub: Submission, effective: SettledPayload): Sys {
    if !Applies(sys.st, sub.id, Finalize) then sys
    else
      var sys' := sys.(st := Apply(sys.st, sub.id, Finalize));
      if sub.parent == NONE then sys' else WakeParent(sys', sub, effective)
  }

  /** Settlement after the reservation: the record, the finalization, the wake again. */
  function Complete(sys: Sys, sub: Submission, payload: SettledPayload): Sys {
    var sys1 := SettledRecordOnce(sys, sub, payload);
    if Orphan(sys.st, sub) then sys1 else FinalizeAndWake(sys1, sub, EffectivePayload(sys.st, sub, payload))
  }

  function TwoPhase(sys: Sys, sub: Submission, payload: SettledPayload): Sys {
    if Applies(sys.st, sub.id, Reserve(sub.attemptId))
    then Complete(sys.(st := Apply(sys.st, sub.id, Reserve(sub.attemptId))), sub, payload)
    else sys
  }

  /** Startup: every row found terminalizing is completed as indeterminate. */
  function CompleteEach(sys: Sys, subs: seq<Submission>): Sys
    decreases |subs|
  {
    if subs == [] then sys else CompleteEach(Complete(sys, subs[0], INDETERMINATE), subs[1..])
  }

  /** One expired lease: released, and settled cancelled when it was flagged. */
  function Reclaim(sys: Sys, sub: Submission): Sys {
    if !Applies(sys.st, sub.id, Release(sub.attemptId, "")) then sys
    else
      var sys1 := sys.(st := Apply(sys.st, sub.id, Release(sub.attemptId, "")));
      if !sub.cancelRequested || !Applies(sys1.st, sub.id, Cancel(CANCELLED.error)) then sys1
      else SettledRecordOnce(sys1.(st := Apply(sys1.st, sub.id, Cancel(CANCELLED.error))), sub, CANCELLED)
  }

  function ReclaimEach(sys: Sys, subs: seq<Submission>, active: set<nat>): Sys
    decreases |subs|
  {
    if subs == [] then sys
    else ReclaimEach(if subs[0].session in active then sys else Reclaim(sys, subs[0]), subs[1..], active)
  }

  /** What settling a submission needs of the store when it will wake a parent: its
      conversation holds distinct ids minted so far, and is not the parent's. */
  ghost predicate Settleable(sys: Sys, sub: Submission) {
    sub.parent in sys.st.rows ==>
      && sys.ulid != NONE && Distinct(LogOf(sys.st, sub.conv)) && sys.st.rows[sub.parent].conv != sub.conv
      && forall j :: 0 <= j < |LogOf(sys.st, sub.conv)| ==> LogOf(sys.st, sub.conv)[j].id < sys.ulid
  }

  /** What a wake needs: the child's active path can be read throughout. */
  ghost predicate Wakes(st: Store, child: Submission) {
    child.parent in st.rows ==> Distinct(LogOf(st, child.conv)) && st.rows[child.parent].conv != child.conv
  }

  lemma SettledRecordIsNew(sys: Sys, sub: Submission, payload: SettledPayload)
    requires Settleable(sys, sub)
    ensures Wakes(RecordOnly(sys, sub, payload).st, sub)
  {
    var log := LogOf(sys.st, sub.conv);
    assert LogOf(RecordOnly(sys, sub, payload).st, sub.conv)
        in {log, log + [Record(sys.ulid, sub.id, SubmissionSettled(payload))]};
  }

  lemma ApplyKeepsSettleable(sys: Sys, sub: Submission, id: SubmissionId, op: RowOp)
    requires Settleable(sys, sub)
    ensures Settleable(sys.(st := Apply(sys.st, id, op)), sub)
  {
    if Applies(sys.st, id, op) { TransitionEvolves(sys.st.rows[id], op); }
    assert LogOf(Apply(sys.st, id, op), sub.conv) == LogOf(sys.st, sub.conv);
  }

  /** After the record, the wake and the finalization the child can still be read. */
  lemma FinalizeKeepsWakes(sys: Sys, sub: Submission, payload: SettledPayload)
    requires Settleable(sys, sub)
    ensures Wakes(Apply(SettledRecordOnce(sys, sub, payload).st, sub.id, Finalize), sub)
  {
    SettledRecordIsNew(sys, sub, payload);
    WakeFrame(RecordOnly(sys, sub, payload), sub, EffectivePayload(sys.st, sub, payload));
    var st1 := SettledRecordOnce(sys, sub, payload).st;
    assert Wakes(st1, sub);
    ApplyKeepsWakes(st1, sub, sub.id, Finalize);
  }

  lemma ApplyKeepsWakes(st: Store, sub: Submission, id: SubmissionId, op: RowOp)
    requires Wakes(st, sub)
    ensures Wakes(Apply(st, id, op), sub)
  {
    if Applies(st, id, op) { TransitionEvolves(st.rows[id], op); }
    assert LogOf(Apply(st, id, op), sub.conv) == LogOf(st, sub.conv);
  }

  function CancelChild(sys: Sys, kid: Submission, reason: Text): Sys {
    if kid.status == Settled || !Applies(sys.st, kid.id, Cancel(reason)) then sys
    else
      var sys' := sys.(st := Apply(sys.st, kid.id, Cancel(reason)));
      if sys.st.rows[kid.id].status == Running then sys' else SettledRecordOnce(sys', kid, CANCELLED)
  }

  /** Every record id of the store was minted before ulid. */
  ghost predicate Below(st: Store, ulid: RecordId) {
    forall conv, i :: 0 <= i < |LogOf(st, conv)| ==> LogOf(st, conv)[i].id < ulid
  }

  lemma MintedIdIsNew(st: Store, ulid: RecordId, conv: ConversationId, rec: Record)
    requires Below(st, ulid) && rec.id == ulid && ulid != NONE && Distinct(LogOf(st, conv))
    ensures Distinct(LogOf(st, conv) + [rec])
    ensures Below(AppendTo(st, conv, [rec]), ulid + 1)
    ensures forall c :: c != conv ==> LogOf(AppendTo(st, conv, [rec]), c) == LogOf(st, c)
  {
    var st' := AppendTo(st, conv, [rec]);
    assert LogOf(st', conv) == LogOf(st, conv) + [rec];
    forall c, i | 0 <= i < |LogOf(st', c)|
      ensures LogOf(st', c)[i].id < ulid + 1
    {
      if c == conv {
        if i < |LogOf(st, conv)| { assert LogOf(st', c)[i] == LogOf(st, conv)[i]; }
      } else {
        assert LogOf(st', c) == LogOf(st, c);
      }
    }
  }

  /** What a cascade needs of the store, and keeps. */
  ghost predicate Cascading(sys: Sys, parent: SubmissionId, kids: seq<Submission>) {
    && parent in sys.st.rows && sys.st.rows[parent].status == Settled && parent != NONE
    && sys.ulid != NONE && Below(sys.st, sys.ulid)
    && forall i {:trigger kids[i]} :: 0 <= i < |kids| ==>
         kids[i].parent == parent && Distinct(LogOf(sys.st, kids[i].conv)) && kids[i].conv != sys.st.rows[parent].conv
  }

  lemma CancelChildKeeps(sys: Sys, parent: SubmissionId, kids: seq<Submission>, kid: Submission, reason: Text)
    requires Cascading(sys, parent, kids) && kid in kids
    ensures Cascading(CancelChild(sys, kid, reason), parent, kids)
  {
    if kid.status != Settled && Applies(sys.st, kid.id, Cancel(reason)) {
      var st1 := Apply(sys.st, kid.id, Cancel(reason));
      TransitionEvolves(sys.st.rows[kid.id], Cancel(reason));
      assert forall c :: LogOf(st1, c) == LogOf(sys.st, c);
      var i :| 0 <= i < |kids| && kids[i] == kid;
      assert kids[i].parent == parent;
      if sys.st.rows[kid.id].status != Running && Recorded(LogOf(st1, kid.conv), kid.id).None? {
        MintedIdIsNew(st1, sys.ulid, kid.conv, Record(sys.ulid, kid.id, SubmissionSettled(CANCELLED)));
      }
    }
  }

  function CancelChildren(sys: Sys, kids: seq<Submission>, reason: Text): Sys
    decreases |kids|
  {
    if kids == [] then sys else CancelChildren(CancelChild(sys, kids[0], reason), kids[1..], reason)
  }

  // ---- whether a claimed submission is driven ----

  datatype Decision = Settle(payload: SettledPayload) | Drive

  const DEFAULT_TIMEOUT: int := 3_600_000_000_000

  /** runSubmission up to the drive. initError is what Initialize or validate
      returned; reread is the row read again after the run registered itself. */
  function Decide(sub: Submission, initError: Option<Text>, maxAttempts: int, timeout: int, now: int,
                  reread: Option<Submission>): Decision {
    if sub.cancelRequested then Settle(CANCELLED)
    else if initError.Some? then Settle(SettledPayload(Failed, initError.value, RunFailed, ""))
    else if sub.attemptCount > Budget(maxAttempts) then
      Settle(SettledPayload(Failed, "attempt budget exhausted", AttemptBudget, ""))
    else if now > sub.createdAt + (if timeout <= 0 then DEFAULT_TIMEOUT else timeout) then
      Settle(SettledPayload(Failed, "durability timeout exceeded", TimedOut, ""))
    else if reread.Some? && reread.value.cancelRequested then Settle(CANCELLED)
    else Drive
  }
}

module Coordinator {
  import opened Records
  import opened Submissions
  import opened StoreModel
  import opened Handoff
  import opened CoordinatorSpec
  import Spec = CoordinatorSpec
  import WaitTheorems
  import RecoveryTheorems
  import opened Tidiness
  import opened Reducer
  import MemoryStore

  class Coordinator {
    const store: MemoryStore.MemoryStore
    var ulid: RecordId

    ghost function View(): Sys
      reads this, store
    {
      Sys(store.View(), ulid)
    }

    constructor (store: MemoryStore.MemoryStore, ulid: RecordId)
      ensures this.store == store && this.ulid == ulid
    {
      this.store, this.ulid := store, ulid;
    }

    method NewUlid() returns (id: RecordId)
      modifies this
      ensures id == old(ulid) && ulid == id + 1
    {
      id := ulid;
      ulid := ulid + 1;
    }

    method ReadRecords(conv: ConversationId) returns (log: Log)
      ensures log == LogOf(store.View(), conv)
    {
      log := store.ReadRecords(conv, NONE);
    }

    method ChildSpawnRecordId(conv: ConversationId) returns (id: RecordId)
      ensures id == ParentRef(LogOf(store.View(), conv))
    {
      var log := ReadRecords(conv);
      assert log[0..] == log;
      for i := 0 to |log|
        invariant ParentRef(log) == ParentRef(log[i..])
      {
        assert log[i..][1..] == log[i + 1..];
        if !log[i].body.ConversationCreated? {
          continue;
        }
        if log[i].body.spawnRecord.Some? {
          return log[i].body.spawnRecord.value;
        }
        return NONE;
      }
      return NONE;
    }

    method SpawnRecordRepair(parent: Submission, child: Submission)
      requires store.Valid() && child.parent in store.subs && store.subs[child.parent].conv == parent.conv
      modifies this, store
      ensures store.Valid()
      ensures View() == old(View()).(st := old(RepairSpawn(store.View(), child)))
    {
      var log := ReadRecords(parent.conv);
      for i := 0 to |log|
        invariant forall j :: 0 <= j < i ==> !(log[j].body.TaskSpawned? && log[j].body.callId == child.parentCallId)
      {
        if log[i].body.TaskSpawned? && log[i].body.callId == child.parentCallId {
          return;
        }
      }
      var spawnId := ChildSpawnRecordId(child.conv);
      if spawnId == NONE {
        return;
      }
      store.AppendRecords(parent.conv, [SpawnOf(spawnId, child)]);
    }

    method FinalAssistantText(conv: ConversationId) returns (text: Text)
      requires Distinct(LogOf(store.View(), conv))
      ensures text == FinalText(ActivePath(LogOf(store.View(), conv)))
    {
      var log := ReadRecords(conv);
      var path := ActivePathOf(log);
      var i := |path|;
      assert path[..i] == path;
      while i > 0
        invariant 0 <= i <= |path| && FinalText(path) == FinalText(path[..i])
      {
        i := i - 1;
        assert path[..i + 1][..i] == path[..i];
        if path[i].body.MessageCompleted? {
          return path[i].body.text;
        }
      }
      return "";
    }

    method OutcomeExists(conv: ConversationId, callId: CallId) returns (found: bool)
      ensures found == HasOutcome(LogOf(store.View(), conv), callId)
    {
      var log := ReadRecords(conv);
      for i := 0 to |log|
        invariant forall j :: 0 <= j < i ==> !(log[j].body.ToolOutcome? && log[j].body.callId == callId)
      {
        if log[i].body.ToolOutcome? && log[i].body.callId == callId {
          return true;
        }
      }
      return false;
    }

    /** The parent's outcome, unless one already names the call. */
    method AppendOutcomeOnce(parent: Submission, child: Submission, payload: SettledPayload)
      requires store.Valid() && Distinct(LogOf(store.View(), child.conv))
      requires child.parent in store.subs && store.subs[child.parent].conv == parent.conv
      modifies this, store
      ensures store.Valid()
      ensures View() == old(AppendOutcome(View(), child, payload))
      ensures WaitTheorems.Handed(old(store.View()), child, payload, store.View())
    {
      WaitTheorems.OutcomeHands(View(), child, payload);
      var text := FinalAssistantText(child.conv);
      var answered := OutcomeExists(parent.conv, child.parentCallId);
      if !answered {
        var id := NewUlid();
        store.AppendRecords(parent.conv, [Record(id, child.parent,
          ToolOutcome(child.parentCallId, "task", payload.status != Succeeded, Content(payload, text)))]);
      }
    }

    /** Requeues the parent when every other child is settled. */
    method RequeueAfterLast(child: Submission)
      requires store.Valid()
      modifies store
      ensures store.Valid()
      ensures store.View() == if AllSettled(old(store.View()), Kids(old(store.View()), child.parent) - {child.id})
                              then Apply(old(store.View()), child.parent, Resume) else old(store.View())
    {
      var children := store.ListChildSubmissions(child.parent);
      ChildrenMembers(store.View(), child.parent);
      for i := 0 to |children|
        invariant forall j :: 0 <= j < i ==> children[j].status == Settled || children[j].id == child.id
      {
        if children[i].status != Settled && children[i].id != child.id {
          assert children[i] in children;
          assert children[i].id in Kids(store.View(), child.parent) - {child.id};
          return;
        }
      }
      forall id | id in Kids(store.View(), child.parent) - {child.id}
        ensures store.subs[id].status == Settled
      {
        assert store.subs[id] in children;
      }
      var _ := store.ResumeSubmission(child.parent);
    }

    /** A child's conversation is its own: its instance is derived from the call. */
    method WakeParent(child: Submission, payload: SettledPayload) returns (ok: bool)
      requires store.Valid() && Wakes(store.View(), child)
      modifies this, store
      ensures store.Valid()
      ensures View() == old(Spec.WakeParent(View(), child, payload))
      ensures ok <==> child.parent in old(store.subs)
      ensures WaitTheorems.Handed(old(store.View()), child, payload, store.View())
    {
      WaitTheorems.WakeHands(View(), child, payload);
      var found := store.GetSubmission(child.parent);
      if found.Err? {
        return false;
      }
      var parent := found.value;
      if parent.status == Settled || parent.status == Terminalizing {
        return true;
      }
      SpawnRecordRepair(parent, child);
      AppendOutcomeOnce(parent, child, payload);
      RequeueAfterLast(child);
      return true;
    }

    /** The first settled record of the submission, if any. */
    method SettledPayloadOf(sub: Submission) returns (p: Option<SettledPayload>)
      ensures p == Recorded(LogOf(store.View(), sub.conv), sub.id)
    {
      var log := ReadRecords(sub.conv);
      assert log[0..] == log;
      for i := 0 to |log|
        invariant Recorded(log, sub.id) == Recorded(log[i..], sub.id)
      {
        assert log[i..][1..] == log[i + 1..];
        if log[i].body.SubmissionSettled? && log[i].sub == sub.id {
          return Some(log[i].body.payload);
        }
      }
      return None;
    }

    method PendingSpawnedCalls(conv: ConversationId) returns (pending: seq<CallId>)
      ensures pending == OpenCalls(LogOf(store.View(), conv))
    {
      var log := ReadRecords(conv);
      var answered: set<CallId> := {};
      for i := 0 to |log|
        invariant forall c :: c in answered <==> HasOutcome(log[..i], c)
      {
        assert log[..i + 1] == log[..i] + [log[i]];
        if log[i].body.ToolOutcome? {
          answered := answered + {log[i].body.callId};
          assert log[..i + 1][i].body.callId == log[i].body.callId;
        }
        forall c
          ensures HasOutcome(log[..i + 1], c) <==>
            HasOutcome(log[..i], c) || (log[i].body.ToolOutcome? && log[i].body.callId == c)
        {
          if HasOutcome(log[..i], c) {
            var j :| 0 <= j < i && log[..i][j].body.ToolOutcome? && log[..i][j].body.callId == c;
            assert log[..i + 1][j].body.callId == c;
          }
        }
      }
      assert log[..|log|] == log;
      pending := [];
      var seen: set<CallId> := {};
      for i := 0 to |log|
        invariant pending == OpenUpTo(log, i)
        invariant forall c :: c in seen <==> c in pending
      {
        if log[i].body.TaskSpawned? && log[i].body.callId !in answered && log[i].body.callId !in seen {
          seen := seen + {log[i].body.callId};
          pending := pending + [log[i].body.callId];
        }
      }
    }

    method BackstopWake(parent: Submission)
      requires store.Valid() && Apart(store.View(), Children(store.View(), parent.id))
      modifies this, store
      ensures store.Valid()
      ensures View() == old(Spec.BackstopWake(View(), parent))
    {
      var children := store.ListChildSubmissions(parent.id);
      if |children| == 0 {
        return;
      }
      for i := 0 to |children|
        invariant forall j :: 0 <= j < i ==> children[j].status == Settled
      {
        if children[i].status != Settled {
          return;
        }
      }
      var pending := PendingSpawnedCalls(parent.conv);
      ChildrenMembers(store.View(), parent.id);
      forall i | 0 <= i < |children|
        ensures children[i].parent == parent.id
      {
        assert children[i] in children;
      }
      ReplayEach(children, pending);
    }

    method ReplayEach(children: seq<Submission>, pending: seq<CallId>)
      requires store.Valid() && Apart(store.View(), children)
      requires forall i, j :: 0 <= i < j < |children| ==> children[i].parent == children[j].parent
      modifies this, store
      ensures store.Valid()
      ensures View() == old(ReplayWakes(View(), children, pending))
    {
      ghost var sys := View();
      assert children[0..] == children;
      for i := 0 to |children|
        invariant store.Valid() && Apart(store.View(), children)
        invariant ReplayWakes(sys, children, pending) == ReplayWakes(View(), children[i..], pending)
      {
        var ch := children[i];
        assert children[i..][0] == ch && children[i..][1..] == children[i + 1..];
        var payload := ZERO_PAYLOAD;
        if ch.parentCallId in pending {
          var recorded := SettledPayloadOf(ch);
          if recorded.None? {
            return;
          }
          payload := recorded.value;
        }
        ApartAfterWake(View(), ch, payload, children);
        var _ := WakeParent(ch, payload);
      }
    }

    method ExpireWait(parent: Submission)
      requires store.Valid()
      modifies this, store
      ensures store.Valid()
      ensures View() == old(Spec.ExpireWait(View(), parent))
    {
      var children := store.ListChildSubmissions(parent.id);
      CancelUnsettled(children, "parent wait expired");
      AnswerPending(parent);
      var _ := store.ResumeSubmission(parent.id);
    }

    /** The expiry error for each spawned call still pending when the batch is built. */
    method AnswerPending(parent: Submission)
      requires store.Valid()
      modifies this, store
      ensures store.Valid()
      ensures var out := ExpiryOutcomes(OpenCalls(old(LogOf(store.View(), parent.conv))), old(ulid), parent.id);
              View() == Sys(if out == [] then old(store.View()) else AppendTo(old(store.View()), parent.conv, out),
                            old(ulid) + |out|)
    {
      var pending := PendingSpawnedCalls(parent.conv);
      if |pending| > 0 {
        var stillPending := PendingSpawnedCalls(parent.conv);
        var outcomes: Log := [];
        for i := 0 to |pending|
          invariant store.View() == old(store.View())
          invariant ulid == old(ulid) + i && outcomes == ExpiryOutcomes(pending[..i], old(ulid), parent.id)
        {
          if pending[i] in stillPending {
            var id := NewUlid();
            outcomes := outcomes + [Record(id, parent.id, ToolOutcome(pending[i], "task", true, WAIT_EXPIRED))];
          }
        }
        assert pending[..|pending|] == pending;
        if |outcomes| > 0 {
          store.AppendRecords(parent.conv, outcomes);
        }
      }
    }

    method CancelUnsettled(children: seq<Submission>, reason: Text)
      requires store.Valid()
      modifies store
      ensures store.Valid()
      ensures store.View() == CancelEach(old(store.View()), children, reason)
    {
      assert children[0..] == children;
      for i := 0 to |children|
        invariant store.Valid()
        invariant CancelEach(old(store.View()), children, reason) == CancelEach(store.View(), children[i..], reason)
      {
        assert children[i..][0] == children[i] && children[i..][1..] == children[i + 1..];
        if children[i].status == Settled {
          continue;
        }
        var _ := store.CancelSubmission(children[i].id, reason);
      }
    }

    /** The check-then-append of the settled record. */
    method RecordSettled(sub: Submission, payload: SettledPayload) returns (effective: SettledPayload)
      requires store.Valid()
      modifies this, store
      ensures store.Valid() && store.subs == old(store.subs)
      ensures View() == old(RecordOnly(View(), sub, payload))
      ensures effective == old(EffectivePayload(store.View(), sub, payload))
    {
      var recorded := SettledPayloadOf(sub);
      if recorded.Some? {
        return recorded.value;
      }
      var id := NewUlid();
      store.AppendRecords(sub.conv, [Record(id, sub.id, SubmissionSettled(payload))]);
      return payload;
    }

    /** The settled record, unless one exists, then the wake with its payload. */
    method AppendSettledRecordOnce(sub: Submission, payload: SettledPayload)
      returns (effective: SettledPayload, ok: bool)
      requires store.Valid() && Settleable(View(), sub)
      modifies this, store
      ensures store.Valid()
      ensures View() == old(SettledRecordOnce(View(), sub, payload))
      ensures effective == old(EffectivePayload(store.View(), sub, payload))
      ensures ok <==> !old(Orphan(store.View(), sub))
    {
      ghost var sys := View();
      SettledRecordIsNew(sys, sub, payload);
      effective := RecordSettled(sub, payload);
      ok := true;
      if sub.parent != NONE {
        ok := WakeParent(sub, effective);
      }
    }

    /** What follows a reservation. The second wake is for siblings that listed this
        row before it was settled. */
    method CompleteSettlement(sub: Submission, payload: SettledPayload) returns (ok: bool)
      requires store.Valid() && Settleable(View(), sub)
      modifies this, store
      ensures store.Valid()
      ensures View() == old(Complete(View(), sub, payload))
      ensures ok <==> old(!Orphan(store.View(), sub)
                          && Applies(SettledRecordOnce(View(), sub, payload).st, sub.id, Finalize))
    {
      ghost var sys := View();
      var effective, recorded := AppendSettledRecordOnce(sub, payload);
      if !recorded {
        return false;
      }
      FinalizeKeepsWakes(sys, sub, payload);
      var finalized := store.FinalizeSettlement(sub.id);
      if finalized.Err? {
        return false;
      }
      if sub.parent != NONE {
        var _ := WakeParent(sub, effective);
      }
      return true;
    }

    /** Two-phase settlement of a run that owns its row. It records the payload and
        settles the row; a lost reservation changes nothing, an earlier record wins,
        and a parent that is not in the store leaves the row reserved. */
    method Settle(sub: Submission, payload: SettledPayload) returns (ok: bool)
      requires store.Valid() && Settleable(View(), sub)
      modifies this, store
      ensures store.Valid()
      ensures View() == old(TwoPhase(View(), sub, payload))
      ensures !old(sub.id in store.subs && store.subs[sub.id].Owned(sub.attemptId)) ==> View() == old(View()) && !ok
      ensures old(sub.id in store.subs && store.subs[sub.id].Owned(sub.attemptId)) ==>
                var was := old(Recorded(LogOf(store.View(), sub.conv), sub.id));
                Recorded(LogOf(store.View(), sub.conv), sub.id) == if was.Some? then was else Some(payload)
      ensures old(sub.id in store.subs && store.subs[sub.id].Owned(sub.attemptId)) ==>
                && (ok <==> sub.parent == NONE || sub.parent in old(store.subs)) && sub.id in store.subs
                && store.subs[sub.id].status == if ok then Settled else Terminalizing
    {
      ghost var sys := View();
      RecoveryTheorems.TwoPhaseSettles(sys, sub, payload);
      var reserved := store.ReserveSettlement(sub.id, sub.attemptId);
      if reserved.Err? {
        return false;
      }
      ApplyKeepsSettleable(sys, sub, sub.id, Reserve(sub.attemptId));
      RecoveryTheorems.FinalizeFollows(View(), sub, payload);
      ok := CompleteSettlement(sub, payload);
    }

    method FinalizeInterrupted(sub: Submission) returns (ok: bool)
      requires store.Valid() && Settleable(View(), sub)
      modifies this, store
      ensures store.Valid()
      ensures View() == old(Complete(View(), sub, INDETERMINATE))
    {
      ok := CompleteSettlement(sub, INDETERMINATE);
    }

    /** Startup reconciliation: completes every settlement a crash interrupted.
        The logs it walks are those of the rows in walked. */
    method Reconcile(ghost walked: set<SubmissionId>)
      requires store.Valid() && Tidy(View(), walked)
      requires forall id :: id in store.subs && store.subs[id].status == Terminalizing ==> id in walked
      modifies this, store
      ensures store.Valid() && Tidy(View(), walked)
      ensures View() == old(CompleteEach(View(), ByStatus(store.View(), Terminalizing)))
    {
      var stuck := store.ListByStatus(Terminalizing);
      ghost var sys := View();
      ListedRows(sys.st, (r: Submission) => r.status == Terminalizing);
      assert stuck[0..] == stuck;
      for i := 0 to |stuck|
        invariant store.Valid() && Tidy(View(), walked) && AllListed(store.View(), stuck)
        invariant CompleteEach(sys, stuck) == CompleteEach(View(), stuck[i..])
      {
        assert stuck[i..][0] == stuck[i] && stuck[i..][1..] == stuck[i + 1..];
        ListedRow(sys.st, (r: Submission) => r.status == Terminalizing, i);
        TidyIsSettleable(View(), stuck[i], walked);
        TidyComplete(View(), stuck[i], INDETERMINATE, walked);
        CompleteKeepsListed(View(), stuck[i], INDETERMINATE, stuck);
        var _ := FinalizeInterrupted(stuck[i]);
      }
    }

    /** Releases expired leases; a flagged row is settled cancelled instead. */
    method ReclaimExpired(now: int, active: set<nat>, ghost walked: set<SubmissionId>)
      requires store.Valid() && Tidy(View(), walked)
      requires forall id | id in store.subs && LeaseExpired(store.subs[id], now) ::
                 store.subs[id].session in active || id in walked
      modifies this, store
      ensures store.Valid() && Tidy(View(), walked)
      ensures View() == old(ReclaimEach(View(), Filter((r: Submission) => LeaseExpired(r, now), Rows(store.View())),
                                        active))
    {
      var expired := store.ListExpiredLeases(now);
      ghost var sys := View();
      ListedRows(sys.st, (r: Submission) => LeaseExpired(r, now));
      assert expired[0..] == expired;
      for i := 0 to |expired|
        invariant store.Valid() && Tidy(View(), walked) && AllListed(store.View(), expired)
        invariant ReclaimEach(sys, expired, active) == ReclaimEach(View(), expired[i..], active)
      {
        assert expired[i..][0] == expired[i] && expired[i..][1..] == expired[i + 1..];
        if expired[i].session in active {
          continue;
        }
        ListedRow(sys.st, (r: Submission) => LeaseExpired(r, now), i);
        TidyIsSettleable(View(), expired[i], walked);
        TidyReclaim(View(), expired[i], walked);
        ReclaimKeepsListed(View(), expired[i], expired);
        ReclaimOne(expired[i]);
      }
    }

    method ReclaimOne(sub: Submission)
      requires store.Valid() && Settleable(View(), sub)
      modifies this, store
      ensures store.Valid()
      ensures View() == old(Reclaim(View(), sub))
    {
      ghost var sys := View();
      var released := store.ReleaseSubmission(sub.id, sub.attemptId, "");
      if released.Err? || !sub.cancelRequested {
        return;
      }
      ghost var sys1 := View();
      ApplyKeepsSettleable(sys, sub, sub.id, Release(sub.attemptId, ""));
      var cancelled := store.CancelSubmission(sub.id, "cancelled: parent settled");
      if cancelled.Err? {
        return;
      }
      ApplyKeepsSettleable(sys1, sub, sub.id, Cancel(CANCELLED.error));
      var _, _ := AppendSettledRecordOnce(sub, CANCELLED);
    }

    method CancelChildren(parent: Submission, reason: Text)
      requires store.Valid() && Cascading(View(), parent.id, Children(store.View(), parent.id))
      modifies this, store
      ensures store.Valid()
      ensures View() == old(Spec.CancelChildren(View(), Children(store.View(), parent.id), reason))
    {
      var children := store.ListChildSubmissions(parent.id);
      ghost var sys := View();
      assert children[0..] == children;
      for i := 0 to |children|
        invariant store.Valid() && Cascading(View(), parent.id, children)
        invariant Spec.CancelChildren(sys, children, reason) == Spec.CancelChildren(View(), children[i..], reason)
      {
        assert children[i..][0] == children[i] && children[i..][1..] == children[i + 1..];
        CancelChildKeeps(View(), parent.id, children, children[i], reason);
        CancelOne(children[i], reason);
      }
    }

    method CancelOne(ch: Submission, reason: Text)
      requires store.Valid() && Cascading(View(), ch.parent, [ch])
      modifies this, store
      ensures store.Valid()
      ensures View() == old(CancelChild(View(), ch, reason))
    {
      if ch.status == Settled {
        return;
      }
      var wasRunning := store.CancelSubmission(ch.id, reason);
      if wasRunning.Err? || wasRunning.value {
        return;
      }
      assert [ch][0] == ch;
      assert forall c :: LogOf(store.View(), c) == old(LogOf(store.View(), c));
      var _, _ := AppendSettledRecordOnce(ch, CANCELLED);
    }
  }
}
