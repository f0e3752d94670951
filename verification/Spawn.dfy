/** taskTool: admitting children exactly once, within bounds, and authoring
    one spawn record per call. */
module Spawn {
  import opened Records
  import opened Submissions
  import opened StoreModel
  import opened Handoff
  import opened CoordinatorSpec
  import C = Calls
  import Coord = Coordinator

  datatype Limits = Limits(maxChildren: int, maxDepth: int)
  {
    function Resolved(): Limits {
      Limits(if maxChildren == 0 then 8 else maxChildren, if maxDepth == 0 then 1 else maxDepth)
    }
  }

  /** A task call of a run; the dispatch id and the session key of the child are
      derived from the parent and the call id. */
  datatype TaskCall = TaskCall(parent: Submission, callId: CallId, dispatchId: SubmissionId, key: nat, prompt: Text,
                               now: int)

  datatype TaskResult = Admitted(child: SubmissionId, conv: ConversationId, spawnId: RecordId) | AtLimit | Refused

  /** The row Dispatch admits for the call. */
  function ChildRow(t: TaskCall, conv: ConversationId): Submission {
    Submission(t.dispatchId, t.key, conv, Queued, t.prompt, 0, NONE, NONE, ZERO_TIME, "", t.now,
               t.parent.id, t.callId, t.parent.depth + 1, false, ZERO_TIME, false)
  }

  function ConvOf(sys: Sys, key: nat): ConversationId {
    if key in sys.st.convs then sys.st.convs[key] else sys.ulid
  }

  /** The conversation half of Dispatch: ensured, and opened when it is new. */
  function Ensured(sys: Sys, key: nat, spawnId: RecordId): Sys {
    if key in sys.st.convs then sys.(ulid := sys.ulid + 1)
    else Sys(AppendTo(sys.st.(convs := sys.st.convs[key := sys.ulid]), sys.ulid,
                      [Record(sys.ulid + 1, NONE, ConversationCreated(Some(spawnId)))]), sys.ulid + 2)
  }

  /** None when the message is invalid or conflicts with the admitted one. */
  function DispatchChild(sys: Sys, t: TaskCall, spawnId: RecordId): (Sys, Option<Submission>) {
    if t.prompt == "" then (sys, None)
    else
      var row := ChildRow(t, ConvOf(sys, t.key));
      var sys' := Ensured(sys, t.key, spawnId);
      if t.dispatchId !in sys.st.rows then (sys'.(st := AdmitRow(sys'.st, row)), Some(row))
      else if sys.st.rows[t.dispatchId].input == t.prompt then (sys', Some(sys.st.rows[t.dispatchId]))
      else (sys', None)
  }

  predicate Live(r: Submission, parent: SubmissionId) { r.parent == parent && r.status != Settled }

  /** How many unsettled children the parent has. */
  function LiveCount(st: Store, parent: SubmissionId): nat
    requires WellFormed(st)
  {
    |Filter((r: Submission) => Live(r, parent), Rows(st))|
  }

  /** The critical section of one task call. */
  function Admit(sys: Sys, t: TaskCall, maxChildren: int): (Sys, TaskResult)
    requires WellFormed(sys.st)
  {
    var replay := t.dispatchId in sys.st.rows;
    if !replay && LiveCount(sys.st, t.parent.id) >= maxChildren then (sys, AtLimit)
    else
      var (sys', child) := DispatchChild(sys.(ulid := sys.ulid + 1), t, sys.ulid);
      if child.None? then (sys', Refused)
      else
        var named := ParentRef(LogOf(sys'.st, child.value.conv));
        (sys', Admitted(child.value.id, child.value.conv, if replay && named != NONE then named else sys.ulid))
  }

  // ---- replays ----

  /** A replayed call admits nothing, even at the bound: rows and admission order
      stay, and it hands back the child admitted first. */
  lemma ReplayAdmitsNothing(sys: Sys, t: TaskCall, maxChildren: int)
    requires WellFormed(sys.st) && t.dispatchId in sys.st.rows
    ensures var (sys', r) := Admit(sys, t, maxChildren);
            && sys'.st.rows == sys.st.rows && sys'.st.order == sys.st.order && !r.AtLimit?
            && (r.Admitted? <==> t.prompt != "" && t.prompt == sys.st.rows[t.dispatchId].input)
            && (r.Admitted? ==> r.child == t.dispatchId && r.conv == sys.st.rows[t.dispatchId].conv)
  {
  }

  lemma RefStays(log: Log, log': Log)
    requires log <= log' && log != [] && log[0].body.ConversationCreated?
    ensures ParentRef(log') == ParentRef(log)
  {
    assert log'[0] == log[0];
  }

  /** The first admission of a call into a conversation of its own. */
  lemma FirstAdmission(sys: Sys, t: TaskCall, maxChildren: int)
    requires WellFormed(sys.st) && t.dispatchId !in sys.st.rows
    requires t.key !in sys.st.convs && LogOf(sys.st, sys.ulid + 1) == []
    requires Admit(sys, t, maxChildren).1.Admitted?
    ensures var (sys', r) := Admit(sys, t, maxChildren); var conv := sys.ulid + 1;
            && r == Admitted(t.dispatchId, conv, sys.ulid) && t.prompt != ""
            && t.dispatchId in sys'.st.rows && sys'.st.rows[t.dispatchId] == ChildRow(t, conv)
            && LogOf(sys'.st, conv) == [Record(sys.ulid + 2, NONE, ConversationCreated(Some(sys.ulid)))]
  {
  }

  lemma ReplayAnswers(later: Sys, t: TaskCall, conv: ConversationId, max': int)
    requires WellFormed(later.st) && t.dispatchId in later.st.rows && t.prompt != "" && t.key in later.st.convs
    requires SameIdentity(ChildRow(t, conv), later.st.rows[t.dispatchId])
    requires ParentRef(LogOf(later.st, conv)) != NONE
    ensures Admit(later, t, max').1 == Admitted(t.dispatchId, conv, ParentRef(LogOf(later.st, conv)))
  {
  }

  /** A replay at any later time names the record id the first admission named. */
  lemma ReplayNamesTheFirstRecord(sys: Sys, t: TaskCall, later: Sys, maxChildren: int, max': int)
    requires WellFormed(sys.st) && t.dispatchId !in sys.st.rows && sys.ulid != NONE
    requires t.key !in sys.st.convs && LogOf(sys.st, sys.ulid + 1) == []
    requires Admit(sys, t, maxChildren).1.Admitted?
    requires C.StoreEvolves(Admit(sys, t, maxChildren).0.st, later.st) && WellFormed(later.st)
    requires t.key in later.st.convs
    ensures Admit(later, t, max').1 == Admit(sys, t, maxChildren).1
  {
    FirstAdmission(sys, t, maxChildren);
    var st1, conv := Admit(sys, t, maxChildren).0.st, sys.ulid + 1;
    assert Evolves(st1.rows[t.dispatchId], later.st.rows[t.dispatchId]);
    assert conv in st1.logs;
    RefStays(LogOf(st1, conv), LogOf(later.st, conv));
    ReplayAnswers(later, t, conv, max');
  }

  // ---- runs ----

  /** Task calls and spawn authors, and whatever else happens to the store. */
  datatype Step =
    | Task(t: TaskCall)
    | Root(sub: Submission)  // a dispatch without a parent
    | Do(id: SubmissionId, op: RowOp)
    | Append(conv: ConversationId, recs: Log)  // records other than task_spawned
    | Consume(conv: ConversationId, rec: Record)  // the event consumer's author
    | ParkRepair(parent: SubmissionId)
    | WakeRepair(child: Submission)

  predicate Enabled(sys: Sys, limits: Limits, step: Step) {
    match step
    case Task(t) =>
      && t.dispatchId != NONE && t.parent.id != NONE && t.parent.id in sys.st.rows
      && SameIdentity(sys.st.rows[t.parent.id], t.parent) && t.parent.depth < limits.maxDepth
    case Root(sub) => sub.parent == NONE && sub.depth == 0
    case Append(_, recs) => forall i :: 0 <= i < |recs| ==> !recs[i].body.TaskSpawned?
    case Consume(_, rec) => rec.body.TaskSpawned?
    case _ => true
  }

  /** The consumer's check-then-append. */
  function SpawnOnce(st: Store, conv: ConversationId, rec: Record): Store
    requires rec.body.TaskSpawned?
  {
    if HasSpawn(LogOf(st, conv), rec.body.callId) then st else AppendTo(st, conv, [rec])
  }

  /** The repair of each child at park time. */
  function RepairEach(st: Store, kids: seq<Submission>): Store
    decreases |kids|
  {
    if kids == [] then st
    else RepairEach(if kids[0].parent in st.rows then RepairSpawn(st, kids[0]) else st, kids[1..])
  }

  function Next(sys: Sys, limits: Limits, step: Step): Sys {
    if !Enabled(sys, limits, step) || !WellFormed(sys.st) then sys
    else match step
      case Task(t) => Admit(sys, t, limits.maxChildren).0
      case Root(sub) => sys.(st := AdmitRow(sys.st, sub))
      case Do(id, op) => sys.(st := Apply(sys.st, id, op))
      case Append(conv, recs) => sys.(st := AppendTo(sys.st, conv, recs))
      case Consume(conv, rec) => sys.(st := SpawnOnce(sys.st, conv, rec))
      case ParkRepair(parent) => sys.(st := RepairEach(sys.st, Children(sys.st, parent)))
      case WakeRepair(child) => if child.parent in sys.st.rows then sys.(st := RepairSpawn(sys.st, child)) else sys
  }

  function Run(limits: Limits, steps: seq<Step>): Sys {
    if steps == [] then Sys(Store(map[], [], map[], map[]), 1)
    else Next(Run(limits, steps[..|steps| - 1]), limits, steps[|steps| - 1])
  }

  // ---- the fan-out and depth bounds ----

  lemma {:induction false} FewerMatch(p: Submission -> bool, rows: seq<Submission>, rows': seq<Submission>)
    requires |rows| == |rows'| && forall i :: 0 <= i < |rows| && p(rows'[i]) ==> p(rows[i])
    ensures |Filter(p, rows')| <= |Filter(p, rows)|
  {
    if rows != [] {
      var n := |rows| - 1;
      FewerMatch(p, rows[..n], rows'[..n]);
    }
  }

  function Bound(n: int): nat { if n < 0 then 0 else n }

  ghost predicate Bounded(st: Store, limits: Limits) {
    && WellFormed(st)
    && (forall p :: p != NONE ==> LiveCount(st, p) <= Bound(limits.maxChildren))
    && forall id :: id in st.rows ==> st.rows[id].depth <= Bound(limits.maxDepth)
  }

  lemma ApplyKeepsBound(st: Store, limits: Limits, id: SubmissionId, op: RowOp)
    requires Bounded(st, limits)
    ensures Bounded(Apply(st, id, op), limits)
  {
    var st' := Apply(st, id, op);
    if Applies(st, id, op) { TransitionEvolves(st.rows[id], op); }
    forall p | p != NONE
      ensures LiveCount(st', p) <= Bound(limits.maxChildren)
    {
      assert LiveCount(st, p) <= Bound(limits.maxChildren);
      FewerMatch((r: Submission) => Live(r, p), Rows(st), Rows(st'));
    }
  }

  lemma AdmitCounts(st: Store, row: Submission, p: SubmissionId)
    requires WellFormed(st) && row.id !in st.rows
    ensures WellFormed(AdmitRow(st, row))
    ensures LiveCount(AdmitRow(st, row), p) == LiveCount(st, p) + if Live(row, p) then 1 else 0
  {
    AdmitWellFormed(st, row);
    assert Rows(AdmitRow(st, row)) == Rows(st) + [row];
    CountSnoc((r: Submission) => Live(r, p), Rows(st), row);
  }

  lemma CountSnoc(p: Submission -> bool, rows: seq<Submission>, row: Submission)
    ensures |Filter(p, rows + [row])| == |Filter(p, rows)| + if p(row) then 1 else 0
  {
    FilterSnoc(p, rows, row);
  }

  lemma SameRowsSameBound(st: Store, st': Store, limits: Limits)
    requires Bounded(st, limits) && st'.rows == st.rows && st'.order == st.order
    ensures Bounded(st', limits)
  {
    forall p
      ensures LiveCount(st', p) == LiveCount(st, p)
    {
      assert Rows(st') == Rows(st);
    }
  }

  lemma TaskRows(sys: Sys, t: TaskCall, max: int)
    requires WellFormed(sys.st)
    ensures var st, st' := sys.st, Admit(sys, t, max).0.st;
            (st'.rows == st.rows && st'.order == st.order)
            || (t.dispatchId !in st.rows && LiveCount(st, t.parent.id) < max
                && exists conv :: st'.rows == AdmitRow(st, ChildRow(t, conv)).rows
                               && st'.order == AdmitRow(st, ChildRow(t, conv)).order)
  {
    var conv := ConvOf(sys.(ulid := sys.ulid + 1), t.key);
    assert t.dispatchId !in sys.st.rows && t.prompt != "" && LiveCount(sys.st, t.parent.id) < max ==>
        Admit(sys, t, max).0.st.rows == AdmitRow(sys.st, ChildRow(t, conv)).rows;
  }

  lemma AdmitKeepsBound(st: Store, limits: Limits, row: Submission)
    requires Bounded(st, limits) && row.id !in st.rows && row.depth <= Bound(limits.maxDepth)
    requires row.parent == NONE || LiveCount(st, row.parent) < limits.maxChildren
    ensures Bounded(AdmitRow(st, row), limits)
  {
    AdmitWellFormed(st, row);
    forall p | p != NONE
      ensures LiveCount(AdmitRow(st, row), p) <= Bound(limits.maxChildren)
    {
      AdmitCounts(st, row, p);
    }
  }

  lemma TaskKeepsBound(sys: Sys, limits: Limits, t: TaskCall)
    requires Bounded(sys.st, limits) && Enabled(sys, limits, Task(t))
    ensures Bounded(Admit(sys, t, limits.maxChildren).0.st, limits)
  {
    var st, st' := sys.st, Admit(sys, t, limits.maxChildren).0.st;
    TaskRows(sys, t, limits.maxChildren);
    if st'.rows == st.rows && st'.order == st.order {
      SameRowsSameBound(st, st', limits);
    } else {
      var conv :| st'.rows == AdmitRow(st, ChildRow(t, conv)).rows
                  && st'.order == AdmitRow(st, ChildRow(t, conv)).order;
      AdmitKeepsBound(st, limits, ChildRow(t, conv));
      SameRowsSameBound(AdmitRow(st, ChildRow(t, conv)), st', limits);
    }
  }

  lemma {:induction false} RepairEachRows(st: Store, kids: seq<Submission>)
    ensures RepairEach(st, kids).rows == st.rows && RepairEach(st, kids).order == st.order
    decreases |kids|
  {
    if kids != [] {
      RepairEachRows(if kids[0].parent in st.rows then RepairSpawn(st, kids[0]) else st, kids[1..]);
    }
  }

  lemma NextKeepsBound(sys: Sys, limits: Limits, step: Step)
    requires Bounded(sys.st, limits)
    ensures Bounded(Next(sys, limits, step).st, limits)
  {
    if Enabled(sys, limits, step) {
      match step {
        case Task(t) => TaskKeepsBound(sys, limits, t);
        case Root(sub) =>
          if sub.id !in sys.st.rows { AdmitKeepsBound(sys.st, limits, sub); }
        case Do(id, op) => ApplyKeepsBound(sys.st, limits, id, op);
        case ParkRepair(parent) =>
          RepairEachRows(sys.st, Children(sys.st, parent));
          SameRowsSameBound(sys.st, Next(sys, limits, step).st, limits);
        case _ => SameRowsSameBound(sys.st, Next(sys, limits, step).st, limits);
      }
    }
  }

  /** However task calls, replays, re-driven attempts and everything else
      interleave: the admission order names each dispatch id at most once, no
      parent ever has more unsettled children than the limit, and no row lies
      deeper than the depth limit. */
  lemma {:induction false} ChildrenAreBounded(limits: Limits, steps: seq<Step>)
    ensures Bounded(Run(limits, steps).st, limits)
  {
    if steps != [] {
      ChildrenAreBounded(limits, steps[..|steps| - 1]);
      NextKeepsBound(Run(limits, steps[..|steps| - 1]), limits, steps[|steps| - 1]);
    }
  }

  // ---- parents and depths ----

  /** A row without a parent is a root of depth 0; any other lies one below its
      parent, which is in the store. */
  ghost predicate Rooted(st: Store, id: SubmissionId)
    requires id in st.rows
  {
    var r := st.rows[id];
    if r.parent == NONE then r.depth == 0
    else r.parent in st.rows && r.depth == st.rows[r.parent].depth + 1
  }

  ghost predicate Nested(st: Store) {
    forall id :: id in st.rows ==> Rooted(st, id)
  }

  /** Every field of a row that a task call admits is the call's. */
  lemma AdmittedRowIsTheCalls(sys: Sys, t: TaskCall, max: int)
    requires WellFormed(sys.st) && t.dispatchId !in sys.st.rows
    requires Admit(sys, t, max).1.Admitted?
    ensures
      var (sys', r) := Admit(sys, t, max);
      && r.child == t.dispatchId && t.dispatchId in sys'.st.rows
      && var row := sys'.st.rows[t.dispatchId];
      && row.id == t.dispatchId && row.session == t.key && row.conv == r.conv && row.input == t.prompt
      && row.parent == t.parent.id && row.parentCallId == t.callId && row.depth == t.parent.depth + 1
      && row.createdAt == t.now && row.status == Queued && row.attemptCount == 0
      && !row.pendingResume && !row.cancelRequested && row.waitUntil == ZERO_TIME
      && sys'.st.rows == sys.st.rows[t.dispatchId := row] && sys'.st.order == sys.st.order + [t.dispatchId]
  {
  }

  lemma AdmitKeepsNested(st: Store, st': Store, row: Submission)
    requires Nested(st) && row.id !in st.rows && st'.rows == st.rows[row.id := row]
    requires if row.parent == NONE then row.depth == 0
             else row.parent in st.rows && row.depth == st.rows[row.parent].depth + 1
    ensures Nested(st')
  {
    forall id | id in st'.rows
      ensures Rooted(st', id)
    {
      if id != row.id { assert Rooted(st, id); }
    }
  }

  lemma SameIdentitiesNested(st: Store, st': Store)
    requires Nested(st) && st'.rows.Keys == st.rows.Keys
    requires forall id :: id in st.rows ==> SameIdentity(st.rows[id], st'.rows[id])
    ensures Nested(st')
  {
    forall id | id in st'.rows
      ensures Rooted(st', id)
    {
      assert Rooted(st, id);
      assert SameIdentity(st.rows[id], st'.rows[id]);
    }
  }

  lemma TaskKeepsNested(sys: Sys, limits: Limits, t: TaskCall)
    requires WellFormed(sys.st) && Nested(sys.st) && Enabled(sys, limits, Task(t))
    ensures Nested(Admit(sys, t, limits.maxChildren).0.st)
  {
    var (sys', r) := Admit(sys, t, limits.maxChildren);
    if t.dispatchId !in sys.st.rows && r.Admitted? {
      AdmittedRowIsTheCalls(sys, t, limits.maxChildren);
      AdmitKeepsNested(sys.st, sys'.st, sys'.st.rows[t.dispatchId]);
    } else {
      TaskRows(sys, t, limits.maxChildren);
      RefusedRows(sys, t, limits.maxChildren);
      SameIdentitiesNested(sys.st, sys'.st);
    }
  }

  lemma RefusedRows(sys: Sys, t: TaskCall, max: int)
    requires WellFormed(sys.st)
    requires t.dispatchId in sys.st.rows || !Admit(sys, t, max).1.Admitted?
    ensures Admit(sys, t, max).0.st.rows == sys.st.rows
  {
  }

  lemma NextKeepsNested(sys: Sys, limits: Limits, step: Step)
    requires Nested(sys.st)
    ensures Nested(Next(sys, limits, step).st)
  {
    if Enabled(sys, limits, step) && WellFormed(sys.st) {
      match step {
        case Task(t) => TaskKeepsNested(sys, limits, t);
        case Root(sub) =>
          if sub.id !in sys.st.rows { AdmitKeepsNested(sys.st, AdmitRow(sys.st, sub), sub); }
        case Do(id, op) =>
          if Applies(sys.st, id, op) { TransitionEvolves(sys.st.rows[id], op); }
          SameIdentitiesNested(sys.st, Next(sys, limits, step).st);
        case ParkRepair(parent) =>
          RepairEachRows(sys.st, Children(sys.st, parent));
          SameIdentitiesNested(sys.st, Next(sys, limits, step).st);
        case _ => SameIdentitiesNested(sys.st, Next(sys, limits, step).st);
      }
    }
  }

  /** In every run a child lies exactly one level below its parent. */
  lemma {:induction false} ChildrenLieOneBelow(limits: Limits, steps: seq<Step>)
    ensures Nested(Run(limits, steps).st)
  {
    if steps != [] {
      ChildrenLieOneBelow(limits, steps[..|steps| - 1]);
      NextKeepsNested(Run(limits, steps[..|steps| - 1]), limits, steps[|steps| - 1]);
    }
  }

  /** Each of the chain is the parent of the one before. */
  predicate Ancestry(st: Store, chain: seq<SubmissionId>) {
    && (forall i :: 0 <= i < |chain| ==> chain[i] in st.rows && chain[i] != NONE)
    && (forall i :: 0 < i < |chain| ==> st.rows[chain[i - 1]].parent == chain[i])
  }

  lemma {:induction false} AncestryRises(st: Store, chain: seq<SubmissionId>)
    requires Nested(st) && Ancestry(st, chain) && chain != []
    ensures st.rows[chain[0]].depth == st.rows[chain[|chain| - 1]].depth + |chain| - 1
    decreases |chain|
  {
    if |chain| > 1 {
      var n := |chain| - 1;
      AncestryRises(st, chain[..n]);
      assert st.rows[chain[n - 1]].parent == chain[n];
      assert Rooted(st, chain[n - 1]);
    }
  }

  /** So no chain of spawns is longer than the depth limit, in any run. */
  lemma NestingIsBounded(limits: Limits, steps: seq<Step>, chain: seq<SubmissionId>)
    requires Ancestry(Run(limits, steps).st, chain) && chain != []
    ensures |chain| - 1 <= Bound(limits.maxDepth)
  {
    var st := Run(limits, steps).st;
    ChildrenLieOneBelow(limits, steps);
    ChildrenAreBounded(limits, steps);
    AncestryRises(st, chain);
    assert st.rows[chain[0]].depth <= Bound(limits.maxDepth);
  }

  /** A submission at the depth limit admits no child. */
  lemma AtTheLimitNoneIsAdmitted(limits: Limits, steps: seq<Step>, id: SubmissionId)
    requires id in Run(limits, steps).st.rows && id != NONE
    requires Run(limits, steps).st.rows[id].depth >= Bound(limits.maxDepth)
    ensures Kids(Run(limits, steps).st, id) == {}
  {
    var st := Run(limits, steps).st;
    ChildrenLieOneBelow(limits, steps);
    ChildrenAreBounded(limits, steps);
    assert forall kid :: kid in st.rows ==> Rooted(st, kid) && st.rows[kid].depth <= Bound(limits.maxDepth);
  }

  // ---- one spawn record per call ----

  function SpawnCount(log: Log, c: CallId): (n: nat)
    ensures n == 0 <==> !HasSpawn(log, c)
  {
    if log == [] then 0
    else
      var n := |log| - 1;
      assert HasSpawn(log[..n], c) ==> HasSpawn(log, c) by {
        if HasSpawn(log[..n], c) {
          var i :| 0 <= i < n && log[..n][i].body.TaskSpawned? && log[..n][i].body.callId == c;
          assert log[i].body.callId == c;
        }
      }
      assert HasSpawn(log, c) ==> HasSpawn(log[..n], c) || (log[n].body.TaskSpawned? && log[n].body.callId == c) by {
        if HasSpawn(log, c) {
          var i :| 0 <= i < |log| && log[i].body.TaskSpawned? && log[i].body.callId == c;
          if i < n { assert log[..n][i].body.callId == c; }
        }
      }
      SpawnCount(log[..n], c) + if log[n].body.TaskSpawned? && log[n].body.callId == c then 1 else 0
  }

  lemma SpawnCountSnoc(log: Log, rec: Record, c: CallId)
    ensures SpawnCount(log + [rec], c)
         == SpawnCount(log, c) + if rec.body.TaskSpawned? && rec.body.callId == c then 1 else 0
  {
    assert (log + [rec])[..|log|] == log;
  }

  lemma {:induction false} NoSpawnsAdded(log: Log, more: Log, c: CallId)
    requires forall i :: 0 <= i < |more| ==> !more[i].body.TaskSpawned?
    ensures SpawnCount(log + more, c) == SpawnCount(log, c)
    decreases |more|
  {
    if more == [] {
      assert log + more == log;
    } else {
      var n := |more| - 1;
      NoSpawnsAdded(log, more[..n], c);
      assert log + more == log + more[..n] + [more[n]];
      SpawnCountSnoc(log + more[..n], more[n], c);
    }
  }

  ghost predicate OneSpawnEach(st: Store) {
    forall conv, c {:trigger SpawnCount(LogOf(st, conv), c)} :: SpawnCount(LogOf(st, conv), c) <= 1
  }

  lemma AppendKeepsOne(st: Store, conv: ConversationId, recs: Log)
    requires OneSpawnEach(st)
    requires forall i :: 0 <= i < |recs| ==> !recs[i].body.TaskSpawned?
    ensures OneSpawnEach(AppendTo(st, conv, recs))
  {
    var st' := AppendTo(st, conv, recs);
    forall v, c
      ensures SpawnCount(LogOf(st', v), c) <= 1
    {
      assert SpawnCount(LogOf(st, v), c) <= 1;
      if v == conv { NoSpawnsAdded(LogOf(st, conv), recs, c); } else { assert LogOf(st', v) == LogOf(st, v); }
    }
  }

  lemma SpawnOnceKeepsOne(st: Store, conv: ConversationId, rec: Record)
    requires OneSpawnEach(st) && rec.body.TaskSpawned?
    ensures OneSpawnEach(SpawnOnce(st, conv, rec))
  {
    var st' := SpawnOnce(st, conv, rec);
    forall v, c
      ensures SpawnCount(LogOf(st', v), c) <= 1
    {
      assert SpawnCount(LogOf(st, v), c) <= 1;
      if v == conv { SpawnCountSnoc(LogOf(st, conv), rec, c); } else { assert LogOf(st', v) == LogOf(st, v); }
    }
  }

  lemma RepairKeepsOne(st: Store, child: Submission)
    requires OneSpawnEach(st) && child.parent in st.rows
    ensures OneSpawnEach(RepairSpawn(st, child))
  {
    SpawnOnceKeepsOne(st, st.rows[child.parent].conv, SpawnOf(ParentRef(LogOf(st, child.conv)), child));
  }

  lemma {:induction false} RepairEachKeepsOne(st: Store, kids: seq<Submission>)
    requires OneSpawnEach(st)
    ensures OneSpawnEach(RepairEach(st, kids))
    decreases |kids|
  {
    if kids != [] {
      if kids[0].parent in st.rows { RepairKeepsOne(st, kids[0]); }
      RepairEachKeepsOne(if kids[0].parent in st.rows then RepairSpawn(st, kids[0]) else st, kids[1..]);
    }
  }

  lemma SameLogsKeepOne(st: Store, st': Store)
    requires OneSpawnEach(st) && st'.logs == st.logs
    ensures OneSpawnEach(st')
  {
    forall conv, c
      ensures SpawnCount(LogOf(st', conv), c) <= 1
    {
      assert LogOf(st', conv) == LogOf(st, conv);
      assert SpawnCount(LogOf(st, conv), c) <= 1;
    }
  }

  lemma TaskKeepsOne(sys: Sys, t: TaskCall, max: int)
    requires WellFormed(sys.st) && OneSpawnEach(sys.st)
    ensures OneSpawnEach(Admit(sys, t, max).0.st)
  {
    var sys1 := sys.(ulid := sys.ulid + 1);
    var st1 := sys1.st.(convs := sys1.st.convs[t.key := sys1.ulid]);
    var rec := Record(sys1.ulid + 1, NONE, ConversationCreated(Some(sys.ulid)));
    SameLogsKeepOne(sys.st, st1);
    AppendKeepsOne(st1, sys1.ulid, [rec]);
    assert Ensured(sys1, t.key, sys.ulid).st
        == if t.key in sys.st.convs then sys.st else AppendTo(st1, sys1.ulid, [rec]);
    SameLogsKeepOne(Ensured(sys1, t.key, sys.ulid).st,
                    AdmitRow(Ensured(sys1, t.key, sys.ulid).st, ChildRow(t, ConvOf(sys1, t.key))));
  }

  lemma NextKeepsOne(sys: Sys, limits: Limits, step: Step)
    requires OneSpawnEach(sys.st)
    ensures OneSpawnEach(Next(sys, limits, step).st)
  {
    if Enabled(sys, limits, step) && WellFormed(sys.st) {
      match step {
        case Task(t) => TaskKeepsOne(sys, t, limits.maxChildren);
        case Append(conv, recs) => AppendKeepsOne(sys.st, conv, recs);
        case Consume(conv, rec) => SpawnOnceKeepsOne(sys.st, conv, rec);
        case ParkRepair(parent) => RepairEachKeepsOne(sys.st, Children(sys.st, parent));
        case WakeRepair(child) => if child.parent in sys.st.rows { RepairKeepsOne(sys.st, child); }
        case _ => SameLogsKeepOne(sys.st, Next(sys, limits, step).st);
      }
    }
  }

  /** The three authors of spawn records leave at most one per call, as long as
      each checks and appends without another in between. */
  lemma {:induction false} OneSpawnRecordPerCall(limits: Limits, steps: seq<Step>)
    ensures OneSpawnEach(Run(limits, steps).st)
  {
    if steps != [] {
      OneSpawnRecordPerCall(limits, steps[..|steps| - 1]);
      NextKeepsOne(Run(limits, steps[..|steps| - 1]), limits, steps[|steps| - 1]);
    }
  }

  // ---- the park gate ----

  lemma RepairGrows(st: Store, child: Submission, conv: ConversationId)
    requires child.parent in st.rows
    ensures LogOf(st, conv) <= LogOf(RepairSpawn(st, child), conv)
    ensures ParentRef(LogOf(st, child.conv)) != NONE ==>
              HasSpawn(LogOf(RepairSpawn(st, child), st.rows[child.parent].conv), child.parentCallId)
  {
    var c := st.rows[child.parent].conv;
    var log := LogOf(RepairSpawn(st, child), c);
    if log != [] && log[|log| - 1].body.TaskSpawned? { assert HasSpawn(log, log[|log| - 1].body.callId); }
  }

  lemma SpawnInPrefix(log: Log, log': Log, c: CallId)
    requires log <= log' && HasSpawn(log, c)
    ensures HasSpawn(log', c)
  {
    var i :| 0 <= i < |log| && log[i].body.TaskSpawned? && log[i].body.callId == c;
    assert log'[i] == log[i];
  }

  lemma {:induction false} RepairEachGrows(st: Store, kids: seq<Submission>, conv: ConversationId)
    ensures LogOf(st, conv) <= LogOf(RepairEach(st, kids), conv)
    decreases |kids|
  {
    if kids != [] {
      if kids[0].parent in st.rows { RepairGrows(st, kids[0], conv); }
      RepairEachGrows(if kids[0].parent in st.rows then RepairSpawn(st, kids[0]) else st, kids[1..], conv);
    }
  }

  /** After the repair at park time every child whose conversation names a spawn
      record has one in the parent's log, also when its event was dropped. */
  lemma {:induction false} ParkRepairNamesEveryChild(st: Store, kids: seq<Submission>, i: nat)
    requires i < |kids| && kids[i].parent in st.rows
    requires LogOf(st, kids[i].conv) != [] && LogOf(st, kids[i].conv)[0].body.ConversationCreated?
    requires ParentRef(LogOf(st, kids[i].conv)) != NONE
    ensures HasSpawn(LogOf(RepairEach(st, kids), st.rows[kids[i].parent].conv), kids[i].parentCallId)
    decreases |kids|
  {
    var st1 := if kids[0].parent in st.rows then RepairSpawn(st, kids[0]) else st;
    var conv := st.rows[kids[i].parent].conv;
    if i == 0 {
      RepairGrows(st, kids[0], conv);
      RepairEachGrows(st1, kids[1..], conv);
      SpawnInPrefix(LogOf(st1, conv), LogOf(RepairEach(st1, kids[1..]), conv), kids[0].parentCallId);
    } else {
      if kids[0].parent in st.rows { RepairGrows(st, kids[0], kids[i].conv); }
      RefStays(LogOf(st, kids[i].conv), LogOf(st1, kids[i].conv));
      assert st1.rows == st.rows;
      ParkRepairNamesEveryChild(st1, kids[1..], i - 1);
    }
  }

  // ---- the tool ----

  class TaskTool {
    const coordinator: Coord.Coordinator
    const limits: Limits

    constructor (coordinator: Coord.Coordinator, limits: Limits)
      ensures this.coordinator == coordinator
      ensures this.limits == Limits(if limits.maxChildren == 0 then 8 else limits.maxChildren,
                                    if limits.maxDepth == 0 then 1 else limits.maxDepth)
    {
      this.coordinator, this.limits := coordinator, limits.Resolved();
    }

    method Dispatch(t: TaskCall, spawnId: RecordId) returns (r: Option<Submission>)
      requires coordinator.store.Valid()
      modifies coordinator, coordinator.store
      ensures coordinator.store.Valid()
      ensures (coordinator.View(), r) == old(DispatchChild(coordinator.View(), t, spawnId))
      ensures t.prompt != "" && t.dispatchId !in old(coordinator.store.subs) ==>
                && r.Some? && coordinator.store.subs == old(coordinator.store.subs)[t.dispatchId := r.value]
                && r.value.parent == t.parent.id && r.value.parentCallId == t.callId
                && r.value.depth == t.parent.depth + 1 && r.value.input == t.prompt
    {
      var store := coordinator.store;
      if t.prompt == "" {
        return None;
      }
      var candidate := coordinator.NewUlid();
      var conv, created := store.EnsureConversation(t.key, candidate);
      assert !created ==> store.convByKey == old(store.convByKey);
      if created {
        var id := coordinator.NewUlid();
        store.AppendRecords(conv, [Record(id, NONE, ConversationCreated(Some(spawnId)))]);
      }
      var sub := store.AdmitSubmission(ChildRow(t, conv));
      if sub.Err? {
        return None;
      }
      return Some(sub.value);
    }

    method LiveChildren(parent: SubmissionId) returns (live: nat)
      requires coordinator.store.Valid()
      ensures live == LiveCount(coordinator.store.View(), parent)
    {
      var children := coordinator.store.ListChildSubmissions(parent);
      ghost var unsettled := (r: Submission) => r.status != Settled;
      live := 0;
      for i := 0 to |children|
        invariant live == |Filter(unsettled, children[..i])|
      {
        FilterNext(unsettled, children, i);
        if children[i].status != Settled {
          live := live + 1;
        }
      }
      assert children[..|children|] == children;
      LiveAmongChildren(coordinator.store.View(), parent);
    }

    method AdmitCall(t: TaskCall) returns (r: TaskResult)
      requires coordinator.store.Valid()
      modifies coordinator, coordinator.store
      ensures coordinator.store.Valid()
      ensures (coordinator.View(), r) == old(Admit(coordinator.View(), t, limits.maxChildren))
    {
      var found := coordinator.store.GetSubmission(t.dispatchId);
      var replay := found.Ok?;
      if !replay {
        var live := LiveChildren(t.parent.id);
        if live >= limits.maxChildren {
          return AtLimit;
        }
      }
      var spawnId := coordinator.NewUlid();
      var child := Dispatch(t, spawnId);
      if child.None? {
        return Refused;
      }
      if replay {
        var named := coordinator.ChildSpawnRecordId(child.value.conv);
        if named != NONE {
          spawnId := named;
        }
      }
      return Admitted(child.value.id, child.value.conv, spawnId);
    }
  }

  lemma {:induction false} FilterTwice(p: Submission -> bool, q: Submission -> bool, both: Submission -> bool,
                                       s: seq<Submission>)
    requires forall r :: both(r) <==> p(r) && q(r)
    ensures Filter(q, Filter(p, s)) == Filter(both, s)
  {
    if s != [] {
      var n := |s| - 1;
      FilterTwice(p, q, both, s[..n]);
      if p(s[n]) {
        FilterSnoc(q, Filter(p, s[..n]), s[n]);
      } else {
        assert Filter(p, s) == Filter(p, s[..n]);
      }
    }
  }

  lemma LiveAmongChildren(st: Store, parent: SubmissionId)
    requires WellFormed(st)
    ensures LiveCount(st, parent) == |Filter((r: Submission) => r.status != Settled, Children(st, parent))|
  {
    FilterTwice((r: Submission) => r.parent == parent, (r: Submission) => r.status != Settled,
                (r: Submission) => Live(r, parent), Rows(st));
  }

  /** Repairs each child's spawn record, then decides whether the run parks. */
  method ReconcileSpawnRecords(c: Coord.Coordinator, run: Submission, pendingSpawns: nat) returns (park: bool)
    requires c.store.Valid() && run.id in c.store.subs && c.store.subs[run.id].conv == run.conv
    modifies c, c.store
    ensures c.store.Valid()
    ensures c.View() == old(c.View()).(st := RepairEach(old(c.store.View()), Children(old(c.store.View()), run.id)))
    ensures park <==> Children(old(c.store.View()), run.id) != [] || pendingSpawns > 0
  {
    var children := c.store.ListChildSubmissions(run.id);
    ghost var sys := c.View();
    ChildrenMembers(sys.st, run.id);
    assert children[0..] == children;
    for i := 0 to |children|
      invariant c.store.Valid() && c.ulid == sys.ulid && c.store.subs == sys.st.rows
      invariant RepairEach(sys.st, children) == RepairEach(c.store.View(), children[i..])
    {
      assert children[i] in children;
      assert children[i..][0] == children[i] && children[i..][1..] == children[i + 1..];
      c.SpawnRecordRepair(run, children[i]);
    }
    return |children| > 0 || pendingSpawns > 0;
  }
}
