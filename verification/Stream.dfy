/** The event stream: replay from an offset, then tail the log until the session
    is idle, while any protocol run goes on underneath. */
module Stream {
  import opened Records
  import opened Submissions
  import opened StoreModel
  import opened Offsets
  import S = Settlement
  import SettlementSafety
  import Theorems = SettlementTheorems
  import C = Calls
  import MemoryStore

  // ---- the reader ----

  /** The idle check lists one status at a time, in this order. */
  function Unsettled(n: nat): Status {
    if n == 0 then Queued else if n == 1 then Running else if n == 2 then Waiting else Terminalizing
  }

  predicate Has(st: Store, session: nat, n: nat) {
    exists id :: id in st.rows && st.rows[id].session == session && st.rows[id].status == Unsettled(n)
  }

  datatype Phase = Listing(n: nat) | Reading(busy: bool) | Closed

  /** The rest is history: seen, how much of the log the last read covered; checked
      and began, what had been finalized and the store when the last idle check began. */
  datatype Reader = Reader(
    phase: Phase, afterId: RecordId, written: Log, seen: nat, checked: set<SubmissionId>, began: Store)

  function LastId(recs: Log, other: RecordId): RecordId {
    if recs == [] then other else recs[|recs| - 1].id
  }

  /** One store call of the reader. */
  function Tick(s: S.State, r: Reader, conv: ConversationId, session: nat): Reader {
    match r.phase
    case Listing(n) =>
      var r' := if n == 0 then r.(checked := s.through, began := s.w.st) else r;
      if Has(s.w.st, session, n) then r'.(phase := Reading(true))
      else r'.(phase := if n >= 3 then Reading(false) else Listing(n + 1))
    case Reading(busy) =>
      var log := LogOf(s.w.st, conv);
      var recs := ReadAfter(log, r.afterId);
      r.(phase := if recs == [] && !busy then Closed else Listing(0), afterId := LastId(recs, r.afterId),
         written := r.written + recs, seen := |log|)
    case Closed => r
  }

  /** The protocol and the reader take turns in any order. */
  datatype Move = Env(e: S.Event) | Read

  function EventsOf(moves: seq<Move>): seq<S.Event> {
    if moves == [] then []
    else EventsOf(moves[..|moves| - 1]) + if moves[|moves| - 1].Env? then [moves[|moves| - 1].e] else []
  }

  /** The protocol after the events es and those of the moves. */
  function World(es: seq<S.Event>, moves: seq<Move>): S.State {
    S.Run(es + EventsOf(moves))
  }

  /** A reader that connects after the events es. */
  function Tail(es: seq<S.Event>, moves: seq<Move>, conv: ConversationId, session: nat, offset: RecordId): Reader {
    if moves == [] then Reader(Listing(0), offset, [], 0, {}, S.Run(es).w.st)
    else
      var before := moves[..|moves| - 1];
      var r := Tail(es, before, conv, session, offset);
      if moves[|moves| - 1].Env? then r else Tick(World(es, before), r, conv, session)
  }

  // ---- no gap, no duplicate ----

  /** What was written is what the first seen records hold past the offset, and
      none of those lies past the current offset. */
  ghost predicate InStep(log: Log, offset: RecordId, r: Reader) {
    && r.seen <= |log| && r.written == LaterThan(log[..r.seen], offset)
    && (r.afterId == offset || (r.seen > 0 && r.afterId == log[r.seen - 1].id && offset < r.afterId))
    && forall i :: 0 <= i < r.seen ==> !Later(log[i], r.afterId)
  }

  lemma InStepGrows(log: Log, log': Log, offset: RecordId, r: Reader)
    requires InStep(log, offset, r) && log <= log'
    ensures InStep(log', offset, r)
  {
    assert log'[..r.seen] == log[..r.seen];
  }

  lemma NoneAreLater(log: Log, offset: RecordId)
    requires forall i :: 0 <= i < |log| ==> !Later(log[i], offset)
    ensures LaterThan(log, offset) == []
  {
    assert CutAt(log, offset, |log|);
    FilterOfCut(log, offset, |log|);
  }

  /** The next read starts at k, in the new part of the log. */
  lemma ReadContinues(log: Log, offset: RecordId, r: Reader) returns (k: nat)
    requires InStep(log, offset, r) && Increasing(log)
    ensures r.seen <= k <= |log| && (r.afterId == offset || k == r.seen)
    ensures ReadAfter(log, r.afterId) == LaterThan(log[r.seen..], offset) == log[k..]
    ensures CutAt(log, r.afterId, k)
  {
    k := IncreasingIsCut(log, r.afterId);
    IncreasingReadsExactly(log, r.afterId);
    FilterOfCut(log, r.afterId, k);
    assert k >= r.seen;
    if 0 < r.seen < |log| {
      assert log[r.seen - 1].id < log[r.seen].id;
    }
    NewPartIsCut(log, offset, r, k);
  }

  lemma NewPartIsCut(log: Log, offset: RecordId, r: Reader, k: nat)
    requires r.seen <= k <= |log| && CutAt(log, r.afterId, k) && offset <= r.afterId
    requires r.afterId == offset || k == r.seen
    ensures LaterThan(log[r.seen..], offset) == log[k..]
  {
    var added := log[r.seen..];
    forall i | 0 <= i < |added|
      ensures Later(added[i], offset) <==> i >= k - r.seen
    {
      assert Later(log[r.seen + i], r.afterId) <==> r.seen + i >= k;
    }
    assert CutAt(added, offset, k - r.seen);
    FilterOfCut(added, offset, k - r.seen);
    assert added[k - r.seen..] == log[k..];
  }

  lemma LaterSplitsAt(log: Log, n: nat, offset: RecordId)
    requires n <= |log|
    ensures LaterThan(log[..|log|], offset) == LaterThan(log[..n], offset) + LaterThan(log[n..], offset)
  {
    assert log[..|log|] == log[..n] + log[n..];
    LaterSplits(log[..n], log[n..], offset);
  }

  /** The reader after a read that returned log[k..]. */
  lemma StepAfterRead(log: Log, offset: RecordId, r: Reader, k: nat, r': Reader)
    requires InStep(log, offset, r) && Increasing(log)
    requires r.seen <= k <= |log| && (r.afterId == offset || k == r.seen) && CutAt(log, r.afterId, k)
    requires LaterThan(log[r.seen..], offset) == log[k..]
    requires r'.written == r.written + log[k..] && r'.afterId == LastId(log[k..], r.afterId) && r'.seen == |log|
    ensures InStep(log, offset, r')
  {
    LaterSplitsAt(log, r.seen, offset);
    if k < |log| {
      assert log[k..][|log| - k - 1] == log[|log| - 1];
      assert Later(log[|log| - 1], r.afterId);
    }
  }

  lemma ReadKeepsStep(s: S.State, r: Reader, conv: ConversationId, session: nat, offset: RecordId)
    requires InStep(LogOf(s.w.st, conv), offset, r) && Increasing(LogOf(s.w.st, conv))
    ensures InStep(LogOf(s.w.st, conv), offset, Tick(s, r, conv, session))
  {
    if r.phase.Reading? {
      var log := LogOf(s.w.st, conv);
      var k := ReadContinues(log, offset, r);
      StepAfterRead(log, offset, r, k, Tick(s, r, conv, session));
    }
  }

  lemma EventsGrow(es: seq<S.Event>, moves: seq<Move>)
    requires moves != []
    ensures C.StoreEvolves(World(es, moves[..|moves| - 1]).w.st, World(es, moves).w.st)
    ensures moves[|moves| - 1].Read? ==> World(es, moves[..|moves| - 1]) == World(es, moves)
  {
    var before := es + EventsOf(moves[..|moves| - 1]);
    var last := if moves[|moves| - 1].Env? then [moves[|moves| - 1].e] else [];
    assert es + EventsOf(moves) == before + last;
    Theorems.RunsEvolve(before, last);
    if last == [] { assert before + last == before; }
  }

  lemma LogsGrow(st: Store, st': Store, conv: ConversationId)
    requires C.StoreEvolves(st, st')
    ensures LogOf(st, conv) <= LogOf(st', conv)
  {
  }

  /** Whatever appends, crashes and settlements interleave, the stream so far is
      exactly the records past the offset among those seen: a contiguous segment
      of the log, in order, without gap or duplicate. */
  lemma {:induction false} TailHasNoGaps(es: seq<S.Event>, moves: seq<Move>, conv: ConversationId, session: nat,
                                         offset: RecordId)
    requires Increasing(LogOf(World(es, moves).w.st, conv))
    ensures InStep(LogOf(World(es, moves).w.st, conv), offset, Tail(es, moves, conv, session, offset))
    decreases |moves|
  {
    if moves == [] {
      NoneAreLater([], offset);
    } else {
      var before := moves[..|moves| - 1];
      EventsGrow(es, moves);
      var log, log' := LogOf(World(es, before).w.st, conv), LogOf(World(es, moves).w.st, conv);
      LogsGrow(World(es, before).w.st, World(es, moves).w.st, conv);
      assert Increasing(log) by { assert forall i :: 0 <= i < |log| ==> log[i] == log'[i]; }
      TailHasNoGaps(es, before, conv, session, offset);
      var r := Tail(es, before, conv, session, offset);
      if moves[|moves| - 1].Env? {
        InStepGrows(log, log', offset, r);
      } else {
        ReadKeepsStep(World(es, before), r, conv, session, offset);
      }
    }
  }

  /** So the stream is one stretch of the log, up to the last record seen. */
  lemma TailIsASegment(es: seq<S.Event>, moves: seq<Move>, conv: ConversationId, session: nat, offset: RecordId)
    returns (k: nat)
    requires Increasing(LogOf(World(es, moves).w.st, conv))
    ensures var r, log := Tail(es, moves, conv, session, offset), LogOf(World(es, moves).w.st, conv);
            k <= r.seen <= |log| && r.written == log[..r.seen][k..] && CutAt(log[..r.seen], offset, k)
  {
    TailHasNoGaps(es, moves, conv, session, offset);
    var seen := LogOf(World(es, moves).w.st, conv)[..Tail(es, moves, conv, session, offset).seen];
    k := IncreasingIsCut(seen, offset);
    FilterOfCut(seen, offset, k);
  }

  // ---- what a closed stream has delivered ----

  /** The settled record of every checked submission of the conversation. */
  ghost predicate HoldsSettled(st: Store, log: Log, conv: ConversationId, checked: set<SubmissionId>) {
    forall id :: id in checked ==>
      id in st.rows && (st.rows[id].conv == conv ==> Recorded(log, id).Some?)
  }

  lemma {:induction false} CountedIsRecorded(log: Log, id: SubmissionId)
    requires SettledCount(log, id) == 1
    ensures Recorded(log, id).Some?
  {
  }

  lemma ThroughIsRecorded(es: seq<S.Event>, conv: ConversationId, checked: set<SubmissionId>)
    requires checked <= S.Run(es).through
    ensures HoldsSettled(S.Run(es).w.st, LogOf(S.Run(es).w.st, conv), conv, checked)
  {
    SettlementSafety.RunKeepsInv(es);
    var st := S.Run(es).w.st;
    forall id | id in checked
      ensures id in st.rows && (st.rows[id].conv == conv ==> Recorded(LogOf(st, conv), id).Some?)
    {
      CountedIsRecorded(LogOf(st, st.rows[id].conv), id);
    }
  }

  lemma ThroughGrows(es: seq<S.Event>, moves: seq<Move>)
    requires moves != []
    ensures World(es, moves[..|moves| - 1]).through <= World(es, moves).through
  {
    var before := es + EventsOf(moves[..|moves| - 1]);
    if moves[|moves| - 1].Env? {
      var e := moves[|moves| - 1].e;
      assert es + EventsOf(moves) == before + [e];
      assert (before + [e])[..|before|] == before;
    } else {
      assert es + EventsOf(moves) == before;
    }
  }

  lemma {:induction false} CheckedWereFinalized(es: seq<S.Event>, moves: seq<Move>, conv: ConversationId, session: nat,
                                                offset: RecordId)
    ensures Tail(es, moves, conv, session, offset).checked <= World(es, moves).through
    decreases |moves|
  {
    if moves != [] {
      var before := moves[..|moves| - 1];
      CheckedWereFinalized(es, before, conv, session, offset);
      ThroughGrows(es, moves);
      TickChecks(World(es, before), Tail(es, before, conv, session, offset), conv, session);
    }
  }

  lemma TickChecks(s: S.State, r: Reader, conv: ConversationId, session: nat)
    ensures Tick(s, r, conv, session).checked in {r.checked, s.through}
  {
  }

  lemma HoldsStays(st: Store, st': Store, log: Log, conv: ConversationId, checked: set<SubmissionId>)
    requires C.StoreEvolves(st, st') && HoldsSettled(st, log, conv, checked)
    ensures HoldsSettled(st', log, conv, checked)
  {
    forall id | id in checked
      ensures id in st'.rows && (st'.rows[id].conv == conv ==> Recorded(log, id).Some?)
    {
      assert Evolves(st.rows[id], st'.rows[id]);
    }
  }

  lemma {:induction false} ClosedHoldsSettled(es: seq<S.Event>, moves: seq<Move>, conv: ConversationId, session: nat,
                                              offset: RecordId)
    requires Tail(es, moves, conv, session, offset).phase.Closed?
    ensures var r, st := Tail(es, moves, conv, session, offset), World(es, moves).w.st;
            r.seen <= |LogOf(st, conv)| && HoldsSettled(st, LogOf(st, conv)[..r.seen], conv, r.checked)
    decreases |moves|
  {
    var before := moves[..|moves| - 1];
    var r := Tail(es, before, conv, session, offset);
    var st, st' := World(es, before).w.st, World(es, moves).w.st;
    EventsGrow(es, moves);
    LogsGrow(st, st', conv);
    if r.phase.Closed? {
      ClosedHoldsSettled(es, before, conv, session, offset);
      assert LogOf(st', conv)[..r.seen] == LogOf(st, conv)[..r.seen];
      HoldsStays(st, st', LogOf(st, conv)[..r.seen], conv, r.checked);
    } else {
      CheckedWereFinalized(es, before, conv, session, offset);
      ThroughIsRecorded(es + EventsOf(before), conv, r.checked);
      assert LogOf(st, conv)[..|LogOf(st, conv)|] == LogOf(st, conv);
    }
  }

  /** A stream that closed has delivered the settled record of every submission
      of its conversation finalized when the last idle check began, unless the
      record lies at or before the offset the client asked to start from. */
  lemma CloseDeliversSettled(es: seq<S.Event>, moves: seq<Move>, conv: ConversationId, session: nat, offset: RecordId,
                             id: SubmissionId) returns (rec: Record)
    requires Increasing(LogOf(World(es, moves).w.st, conv))
    requires Tail(es, moves, conv, session, offset).phase.Closed?
    requires id in Tail(es, moves, conv, session, offset).checked
    requires id in World(es, moves).w.st.rows && World(es, moves).w.st.rows[id].conv == conv
    ensures IsSettledOf(rec, id) && rec in LogOf(World(es, moves).w.st, conv)
    ensures rec in Tail(es, moves, conv, session, offset).written || !Later(rec, offset)
  {
    var r := Tail(es, moves, conv, session, offset);
    var log := LogOf(World(es, moves).w.st, conv);
    ClosedHoldsSettled(es, moves, conv, session, offset);
    TailHasNoGaps(es, moves, conv, session, offset);
    var i :| 0 <= i < |log[..r.seen]| && IsSettledOf(log[..r.seen][i], id);
    rec := log[i];
    assert rec in log[..r.seen] by { assert log[..r.seen][i] == rec; }
    FilterMembers((x: Record) => Later(x, offset), log[..r.seen]);
  }

  // ---- the idle check ----

  function Rank(s: Status): nat {
    match s
    case Queued => 0
    case Running => 1
    case Waiting => 2
    case Terminalizing => 3
    case Settled => 4
  }

  /** The rows of the session that went back towards the queue. */
  function Backward(st: Store, st': Store, session: nat): set<SubmissionId> {
    set id | id in st.rows && st.rows[id].session == session && !Onward(st, st', id)
  }

  predicate Onward(st: Store, st': Store, id: SubmissionId)
    requires id in st.rows
  {
    id in st'.rows && st'.rows[id].session == st.rows[id].session
    && Rank(st.rows[id].status) <= Rank(st'.rows[id].status)
  }

  /** A release or a resume of a row of the session. */
  predicate Requeues(w: C.World, call: C.Call, session: nat) {
    && call.Do? && C.Hits(w, call, call.id) && w.st.rows[call.id].session == session
    && (call.op.Release? || call.op.Resume?)
  }

  /** Only those send a row back, and each sends its own. */
  lemma OnlyRequeuesGoBack(w: C.World, call: C.Call, session: nat)
    ensures Backward(w.st, C.Next(w, call).st, session) == if Requeues(w, call, session) then {call.id} else {}
  {
    if call.Do? && C.Hits(w, call, call.id) && w.st.rows[call.id].session == session {
      assert call.id in w.st.rows;
    }
  }

  /** The row of the session that an event requeues, if it does; a reclaim that
      releases also settles. */
  function RequeuedBy(s: S.State, e: S.Event, session: nat): set<SubmissionId> {
    var calls := S.CallsOf(s, e);
    if |calls| == 1 && Requeues(s.w, calls[0], session) then {calls[0].id} else {}
  }

  lemma OnlyRequeuingEventsGoBack(s: S.State, e: S.Event, session: nat)
    ensures Backward(s.w.st, S.Next(s, e).w.st, session) == RequeuedBy(s, e, session)
  {
    var calls := S.CallsOf(s, e);
    S.NextWorld(s, e);
    if |calls| == 1 {
      assert calls == [calls[0]];
      S.NextWorldOne(s, e, calls[0]);
      OnlyRequeuesGoBack(s.w, calls[0], session);
    } else if |calls| == 2 {
      SettlementSafety.ReclaimStore(s, e);
      ReclaimIsForward(s, e, session);
    }
  }

  lemma ReclaimIsForward(s: S.State, e: S.Event, session: nat)
    requires e.ReclaimFlagged? && S.Enabled(s, e)
    ensures Backward(s.w.st, S.Next(s, e).w.st, session) == {}
  {
    SettlementSafety.ReclaimWorld(s, e);
    var c1, c2 := C.Do(e.id, Release(e.attempt, "")), C.Do(e.id, Cancel("cancelled: parent settled"));
    var r := s.w.st.rows[e.id];
    var r' := Transition(Transition(r, Release(e.attempt, "")).value, Cancel("cancelled: parent settled")).value;
    assert C.Next(C.Next(s.w, c1), c2).st == s.w.st.(rows := s.w.st.rows[e.id := r']);
    assert r'.status == Settled && r'.session == r.session;
  }

  /** An idle answer is right of every row that was not requeued between its four
      listings: if the first one could see it, it is settled by the last. */
  lemma IdleCheckIsSound(st0: Store, st1: Store, st2: Store, st3: Store, session: nat, id: SubmissionId)
    requires !Has(st0, session, 0) && !Has(st1, session, 1) && !Has(st2, session, 2) && !Has(st3, session, 3)
    requires id in st0.rows && st0.rows[id].session == session
    requires id !in Backward(st0, st1, session) + Backward(st1, st2, session) + Backward(st2, st3, session)
    ensures id in st3.rows && st3.rows[id].status == Settled
  {
    assert Rank(st0.rows[id].status) >= 1;
    assert Rank(st1.rows[id].status) >= 2;
    assert Rank(st2.rows[id].status) >= 3;
  }

  /** A resume between the second and the third listing defeats it: the parent is
      queued, and the check answers idle. */
  lemma IdleCheckMissesAResume(st: Store, id: SubmissionId)
    requires id in st.rows && st.rows[id].status == Waiting
    requires forall x :: x in st.rows && x != id && st.rows[x].session == st.rows[id].session ==>
               st.rows[x].status == Settled
    ensures var st', session := Apply(st, id, Resume), st.rows[id].session;
            && !Has(st, session, 0) && !Has(st, session, 1) && !Has(st', session, 2) && !Has(st', session, 3)
            && st'.rows[id].status == Queued
  {
  }

  /** The rows of the session that events requeued since the last idle check
      began, while the check was going on. */
  function Requeued(es: seq<S.Event>, moves: seq<Move>, conv: ConversationId, session: nat, offset: RecordId)
    : set<SubmissionId>
  {
    if moves == [] then {}
    else
      var before := moves[..|moves| - 1];
      var phase := Tail(es, before, conv, session, offset).phase;
      match moves[|moves| - 1]
      case Read => if phase == Listing(0) then {} else Requeued(es, before, conv, session, offset)
      case Env(e) =>
        Requeued(es, before, conv, session, offset)
        + if phase.Listing? && phase.n > 0 then RequeuedBy(World(es, before), e, session) else {}
  }

  /** The rows of the session that were there, but for the requeued ones, have got
      at least that far. */
  ghost predicate AtLeast(st0: Store, st: Store, session: nat, n: nat, requeued: set<SubmissionId>) {
    forall id :: id in st0.rows && st0.rows[id].session == session ==>
      id in st.rows && st.rows[id].session == session && (id in requeued || Rank(st.rows[id].status) >= n)
  }

  /** How far the check has established the rows to have got. */
  function Listed(phase: Phase): nat {
    match phase
    case Listing(n) => n
    case Reading(busy) => if busy then 0 else 4
    case Closed => 4
  }

  ghost predicate CheckHolds(st: Store, session: nat, r: Reader, requeued: set<SubmissionId>) {
    && (r.phase.Listing? ==> r.phase.n <= 3)
    && (Listed(r.phase) > 0 ==> AtLeast(r.began, st, session, Listed(r.phase), requeued))
  }

  lemma TickKeepsCheck(s: S.State, r: Reader, conv: ConversationId, session: nat, requeued: set<SubmissionId>)
    requires CheckHolds(s.w.st, session, r, requeued) || r.phase == Listing(0)
    ensures CheckHolds(s.w.st, session, Tick(s, r, conv, session), requeued)
  {
    if r.phase.Listing? && !Has(s.w.st, session, r.phase.n) {
      var began := Tick(s, r, conv, session).began;
      forall id | id in began.rows && began.rows[id].session == session
        ensures id in s.w.st.rows && s.w.st.rows[id].session == session
        ensures id in requeued || Rank(s.w.st.rows[id].status) > r.phase.n
      {
        assert s.w.st.rows[id].status != Unsettled(r.phase.n);
      }
    }
  }

  lemma EventKeepsCheck(st: Store, st': Store, session: nat, r: Reader, was: set<SubmissionId>,
                        requeued: set<SubmissionId>)
    requires CheckHolds(st, session, r, was) && C.StoreEvolves(st, st') && was <= requeued
    requires r.phase.Listing? && r.phase.n > 0 ==> Backward(st, st', session) <= requeued
    ensures CheckHolds(st', session, r, requeued)
  {
    if Listed(r.phase) > 0 {
      forall id | id in r.began.rows && r.began.rows[id].session == session
        ensures id in st'.rows && st'.rows[id].session == session
        ensures id in requeued || Rank(st'.rows[id].status) >= Listed(r.phase)
      {
        assert Evolves(st.rows[id], st'.rows[id]);
        if id !in requeued && r.phase.Listing? { assert id !in Backward(st, st', session); }
      }
    }
  }

  lemma {:induction false} EveryCheckHolds(es: seq<S.Event>, moves: seq<Move>, conv: ConversationId, session: nat,
                                           offset: RecordId)
    ensures CheckHolds(World(es, moves).w.st, session, Tail(es, moves, conv, session, offset),
                       Requeued(es, moves, conv, session, offset))
    decreases |moves|
  {
    if moves != [] {
      var before := moves[..|moves| - 1];
      var r, was := Tail(es, before, conv, session, offset), Requeued(es, before, conv, session, offset);
      var requeued := Requeued(es, moves, conv, session, offset);
      EveryCheckHolds(es, before, conv, session, offset);
      EventsGrow(es, moves);
      match moves[|moves| - 1] {
        case Env(e) =>
          WorldNext(es, moves);
          OnlyRequeuingEventsGoBack(World(es, before), e, session);
          EventKeepsCheck(World(es, before).w.st, World(es, moves).w.st, session, r, was, requeued);
        case Read => TickKeepsCheck(World(es, before), r, conv, session, requeued);
      }
    }
  }

  lemma WorldNext(es: seq<S.Event>, moves: seq<Move>)
    requires moves != [] && moves[|moves| - 1].Env?
    ensures World(es, moves) == S.Next(World(es, moves[..|moves| - 1]), moves[|moves| - 1].e)
  {
    var before, e := es + EventsOf(moves[..|moves| - 1]), moves[|moves| - 1].e;
    assert es + EventsOf(moves) == before + [e];
    S.RunSnoc(before, e);
  }

  /** The submission was in the session when the last idle check began. */
  predicate WasThere(r: Reader, session: nat, id: SubmissionId) {
    id in r.began.rows && r.began.rows[id].session == session
  }

  /** A stream closes on settled submissions: of those the session had when the last
      idle check began, each is settled that was not requeued during the check; so
      the session is idle if and only if those that were requeued have settled. */
  lemma ClosesIdleIff(es: seq<S.Event>, moves: seq<Move>, conv: ConversationId, session: nat, offset: RecordId)
    requires Tail(es, moves, conv, session, offset).phase.Closed?
    ensures
      var r, st := Tail(es, moves, conv, session, offset), World(es, moves).w.st;
      var requeued := Requeued(es, moves, conv, session, offset);
      && (forall id :: WasThere(r, session, id) ==> id in st.rows)
      && (forall id :: WasThere(r, session, id) && id !in requeued ==> st.rows[id].status == Settled)
      && ((forall id :: WasThere(r, session, id) ==> st.rows[id].status == Settled)
          <==> forall id :: WasThere(r, session, id) && id in requeued ==> st.rows[id].status == Settled)
  {
    EveryCheckHolds(es, moves, conv, session, offset);
    var r, st := Tail(es, moves, conv, session, offset), World(es, moves).w.st;
    forall id | WasThere(r, session, id)
      ensures id in st.rows
      ensures id !in Requeued(es, moves, conv, session, offset) ==> st.rows[id].status == Settled
    {
      assert id in Requeued(es, moves, conv, session, offset) || Rank(st.rows[id].status) >= 4;
    }
  }

  /** One move more. */
  lemma TailRead(es: seq<S.Event>, moves: seq<Move>, conv: ConversationId, session: nat, offset: RecordId)
    ensures World(es, moves + [Read]) == World(es, moves)
    ensures Tail(es, moves + [Read], conv, session, offset)
         == Tick(World(es, moves), Tail(es, moves, conv, session, offset), conv, session)
  {
    assert (moves + [Read])[..|moves|] == moves;
    assert EventsOf(moves) + [] == EventsOf(moves);
  }

  lemma TailEnv(es: seq<S.Event>, moves: seq<Move>, e: S.Event, conv: ConversationId, session: nat, offset: RecordId)
    ensures World(es, moves + [Env(e)]) == S.Next(World(es, moves), e)
    ensures Tail(es, moves + [Env(e)], conv, session, offset) == Tail(es, moves, conv, session, offset)
  {
    assert (moves + [Env(e)])[..|moves|] == moves;
    assert es + EventsOf(moves + [Env(e)]) == es + EventsOf(moves) + [e];
    S.RunSnoc(es + EventsOf(moves), e);
  }

  // ---- the handler ----

  method SessionBusy(store: MemoryStore.MemoryStore, session: nat) returns (busy: bool)
    requires store.Valid()
    ensures busy
       <==> exists id :: id in store.subs && store.subs[id].session == session && store.subs[id].status != Settled
  {
    for n := 0 to 4
      invariant forall m :: 0 <= m < n ==> !Has(store.View(), session, m)
    {
      var subs := store.ListByStatus(Unsettled(n));
      ByStatusMembers(store.View(), Unsettled(n));
      for i := 0 to |subs|
        invariant forall j :: 0 <= j < i ==> subs[j].session != session
      {
        if subs[i].session == session {
          assert subs[i] in subs;
          return true;
        }
      }
      forall id | id in store.subs && store.subs[id].status == Unsettled(n)
        ensures store.subs[id].session != session
      {
        assert store.subs[id] in subs;
      }
    }
    forall id | id in store.subs && store.subs[id].session == session
      ensures store.subs[id].status == Settled
    {
      assert !Has(store.View(), session, 0) && !Has(store.View(), session, 1);
      assert !Has(store.View(), session, 2) && !Has(store.View(), session, 3);
    }
    return false;
  }

  lemma ByStatusMembers(st: Store, status: Status)
    requires WellFormed(st)
    ensures forall r :: r in ByStatus(st, status) <==> r.id in st.rows && st.rows[r.id] == r && r.status == status
  {
    FilterMembers((r: Submission) => r.status == status, Rows(st));
    RowsMembers(st);
  }

  class EventStream {
    const store: MemoryStore.MemoryStore
    const conv: ConversationId
    const session: nat
    var afterId: RecordId
    var written: Log

    constructor (store: MemoryStore.MemoryStore, conv: ConversationId, session: nat, lastEventId: RecordId)
      ensures this.store == store && this.conv == conv && this.session == session
      ensures afterId == lastEventId && written == []
    {
      this.store, this.conv, this.session := store, conv, session;
      afterId, written := lastEventId, [];
    }

    /** One turn of the loop: the idle check, the read, the frames. */
    method Turn() returns (close: bool)
      requires store.Valid()
      modifies this
      ensures var recs := ReadAfter(LogOf(store.View(), conv), old(afterId));
              && written == old(written) + recs && afterId == LastId(recs, old(afterId))
              && (close <==> recs == [] && forall n :: 0 <= n < 4 ==> !Has(store.View(), session, n))
    {
      var busy := SessionBusy(store, session);
      BusyIsUnsettled(store.View(), session);
      var recs := store.ReadRecords(conv, afterId);
      for i := 0 to |recs|
        invariant written == old(written) + recs[..i] && afterId == LastId(recs[..i], old(afterId))
      {
        written := written + [recs[i]];
        afterId := recs[i].id;
      }
      assert recs[..|recs|] == recs;
      return |recs| == 0 && !busy;
    }
  }

  lemma BusyIsUnsettled(st: Store, session: nat)
    ensures (exists id :: id in st.rows && st.rows[id].session == session && st.rows[id].status != Settled)
       <==> exists n :: 0 <= n < 4 && Has(st, session, n)
  {
    forall id | id in st.rows && st.rows[id].session == session && st.rows[id].status != Settled
      ensures exists n :: 0 <= n < 4 && Has(st, session, n)
    {
      assert st.rows[id].status == Unsettled(Rank(st.rows[id].status));
      assert Has(st, session, Rank(st.rows[id].status));
    }
  }
}
