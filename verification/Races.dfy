/** Two more races as runs of the protocol: a spawn record that lands twice, and a
    stream that closes while its session still works. */
module Races {
  import opened Records
  import opened Submissions
  import opened StoreModel
  import opened Handoff
  import opened Settlement
  import opened PrematureResume
  import Reducer
  import Stream
  import C = Calls

  // ---- the spawn record lands twice ----

  const CALL := Record(1, 1, ToolCall(2, "task"))
  const SPAWN := Record(2, 1, TaskSpawned(2, 2))
  const CREATED := Record(3, NONE, ConversationCreated(Some(2)))

  /** A record by another party, in log 1 or 2. */
  lemma Post(es: seq<Event>, log1: Log, log2: Log, pc: Pc, conv: ConversationId, rec: Record) returns (es': seq<Event>)
    requires At(es, log1, log2, pc) && !rec.body.SubmissionSettled?
    ensures At(es', if conv == 1 then log1 + [rec] else log1, if conv == 2 then log2 + [rec] else log2, pc)
  {
    var call := C.Append(conv, [rec]);
    es' := es + [Other(call)];
    RunSnoc(es, Other(call));
    NextWorldOne(Run(es), Other(call), call);
  }

  /** The parent's log holds the call, the child's names the spawn record. */
  lemma CallIsLogged() returns (es: seq<Event>)
    ensures At(es, [CALL], [CREATED], AppendSettled)
  {
    es := Opening();
    es := Post(es, [], [], ReadSettled, 1, CALL);
    assert [] + [CALL] == [CALL];
    es := Post(es, [CALL], [], ReadSettled, 2, CREATED);
    assert [] + [CREATED] == [CREATED];
    assert [CREATED][1..] == [];
    es := Read(es, [CALL], [CREATED], ReadSettled, AppendSettled);
  }

  /** The child's settlement has landed its record. */
  lemma ChildSettles() returns (es: seq<Event>)
    ensures At(es, [CALL], [CREATED, SETTLED], WakeSpawnRead)
  {
    es := CallIsLogged();
    es := Write(es, [CALL], [CREATED], AppendSettled, WakeGet, 2, SETTLED);
    assert [CREATED] + [SETTLED] == [CREATED, SETTLED];
    es := Read(es, [CALL], [CREATED, SETTLED], WakeGet, WakeSpawnRead);
  }

  /** The wake finds no spawn record and is about to append one. */
  lemma WakeWillRepair() returns (es: seq<Event>)
    ensures At(es, [CALL], [CREATED, SETTLED], WakeSpawnAppend(2))
  {
    es := ChildSettles();
    es := Read(es, [CALL], [CREATED, SETTLED], WakeSpawnRead, WakeSpawnRef);
    assert ParentRef([CREATED, SETTLED]) == 2;
    es := Read(es, [CALL], [CREATED, SETTLED], WakeSpawnRef, WakeSpawnAppend(2));
  }

  /** The parent's event consumer appends the same record first: a run after which
      the walk of the parent's active path never ends. */
  lemma SpawnRecordLandsTwice() returns (es: seq<Event>)
    ensures LogOf(Run(es).w.st, 1) == [CALL, SPAWN, SPAWN]
    ensures !Reducer.WalkEnds(Reducer.Reduce(LogOf(Run(es).w.st, 1)))
  {
    es := WakeWillRepair();
    es := Post(es, [CALL], [CREATED, SETTLED], WakeSpawnAppend(2), 1, SPAWN);
    assert [CALL] + [SPAWN] == [CALL, SPAWN];
    es := Write(es, [CALL, SPAWN], [CREATED, SETTLED], WakeSpawnAppend(2), WakeContent, 1, SPAWN);
    assert [CALL, SPAWN] + [SPAWN] == [CALL, SPAWN, SPAWN];
    Reducer.RacingSpawnRecordsLoop(2, 2, 1);
  }

  // ---- the stream closes early ----

  /** The parent waits, and its child's wake is about to requeue it. */
  lemma AboutToResume() returns (es: seq<Event>)
    ensures var s := Run(es);
            && s.acts == map[0 := Actor(Settling, 2, DONE, false, WakeResume({2}))]
            && s.w.st.rows.Keys == {1, 2} && s.w.st.rows[1].status == Waiting && s.w.st.rows[1].session == 1
            && s.w.st.rows[2].session == 2 && s.w.st.rows[2].parent == 1 && LogOf(s.w.st, 1) == [OUTCOME]
  {
    es := WakeUpToTheList();
    assert Kids(Run(es).w.st, 1) == {2};
    es := PrematureResume.Read(es, [OUTCOME], [SETTLED], WakeList, WakeResume({2}));
    es := Call(es, C.Do(1, Park(1, ZERO_TIME)));
  }

  /** The moves of a reader that has caught up, with the resume in the middle of
      its idle check. */
  function Moves(): seq<Stream.Move> {
    [Stream.Move.Read, Stream.Move.Read] + [Stream.Move.Env(Step(0, 0))]
    + [Stream.Move.Read, Stream.Move.Read, Stream.Move.Read]
  }

  /** A run of the tail loop that closes the stream although the session's parent
      was requeued and is queued. */
  lemma StreamClosesEarly() returns (es: seq<Event>)
    ensures Stream.Tail(es, Moves(), 1, 1, OUTCOME.id).phase.Closed?
    ensures 1 in Stream.World(es, Moves()).w.st.rows
    ensures Stream.World(es, Moves()).w.st.rows[1].session == 1
    ensures Stream.World(es, Moves()).w.st.rows[1].status == Queued
  {
    es := AboutToResume();
    var m2 := TwoListings(es);
    var m3 := m2 + [Stream.Move.Env(Step(0, 0))];
    Stream.TailEnv(es, m2, Step(0, 0), 1, 1, OUTCOME.id);
    ResumeLands(Run(es));
    LastTurn(es, m3);
    assert m3 + [Stream.Move.Read] + [Stream.Move.Read] + [Stream.Move.Read] == Moves();
  }

  lemma ResumeLands(s: State)
    requires s.acts == map[0 := Actor(Settling, 2, DONE, false, WakeResume({2}))]
    requires s.w.st.rows.Keys == {1, 2} && s.w.st.rows[1].status == Waiting && s.w.st.rows[2].parent == 1
    ensures var st' := Next(s, Step(0, 0)).w.st;
            && st'.rows.Keys == {1, 2} && st'.rows[1] == s.w.st.rows[1].(status := Queued, waitUntil := ZERO_TIME)
            && st'.rows[2] == s.w.st.rows[2] && st'.logs == s.w.st.logs
  {
    NextWorldOne(s, Step(0, 0), C.Do(1, Resume));
  }

  /** The first two listings find nothing. */
  lemma TwoListings(es: seq<Event>) returns (moves: seq<Stream.Move>)
    requires Run(es).w.st.rows.Keys == {1, 2} && Run(es).w.st.rows[2].session == 2
    requires Run(es).w.st.rows[1].status == Waiting
    ensures moves == [Stream.Move.Read, Stream.Move.Read] && Stream.World(es, moves) == Run(es)
    ensures var r := Stream.Tail(es, moves, 1, 1, OUTCOME.id);
            r.phase == Stream.Listing(2) && r.afterId == OUTCOME.id
  {
    assert es + [] == es;
    assert Stream.World(es, []) == Run(es);
    Stream.TailRead(es, [], 1, 1, OUTCOME.id);
    assert [] + [Stream.Move.Read] == [Stream.Move.Read];
    Stream.TailRead(es, [Stream.Move.Read], 1, 1, OUTCOME.id);
    moves := [Stream.Move.Read] + [Stream.Move.Read];
  }

  /** The last two find nothing either, and there is nothing to read. */
  lemma LastTurn(es: seq<Event>, moves: seq<Stream.Move>)
    requires Stream.World(es, moves).w.st.rows.Keys == {1, 2} && Stream.World(es, moves).w.st.rows[2].session == 2
    requires Stream.World(es, moves).w.st.rows[1].status == Queued
    requires LogOf(Stream.World(es, moves).w.st, 1) == [OUTCOME]
    requires var r := Stream.Tail(es, moves, 1, 1, OUTCOME.id);
             r.phase == Stream.Listing(2) && r.afterId == OUTCOME.id
    ensures var moves' := moves + [Stream.Move.Read] + [Stream.Move.Read] + [Stream.Move.Read];
            Stream.World(es, moves') == Stream.World(es, moves)
            && Stream.Tail(es, moves', 1, 1, OUTCOME.id).phase.Closed?
  {
    Stream.TailRead(es, moves, 1, 1, OUTCOME.id);
    Stream.TailRead(es, moves + [Stream.Move.Read], 1, 1, OUTCOME.id);
    Stream.TailRead(es, moves + [Stream.Move.Read] + [Stream.Move.Read], 1, 1, OUTCOME.id);
  }
}
