/** Histories of store calls by any number of callers. Callers keep two rules
    and no others: an attempt id is minted fresh for each claim, and a claim
    names a submission that some ListRunnable, however old, returned. */
module Calls {
  import opened Records
  import opened Submissions
  import opened StoreModel

  datatype Call =
    | Admit(sub: Submission)
    | Scan
    | Do(id: SubmissionId, op: RowOp)
    | Append(conv: ConversationId, recs: Log)

  /** The store, the attempt ids already used, and every id a scan returned. */
  datatype World = World(st: Store, used: set<AttemptId>, listed: set<SubmissionId>)

  const INITIAL := World(Store(map[], [], map[], map[]), {}, {})

  predicate Legal(w: World, c: Call) {
    match c
    case Admit(sub) => Fresh(sub)
    case Do(id, Claim(a, _, _)) => a != NONE && a !in w.used && id in w.listed
    case _ => true
  }

  function Scanned(st: Store): set<SubmissionId> {
    if WellFormed(st) then set r | r in SelectRunnable(Rows(st), |st.order|) :: r.id else {}
  }

  function Next(w: World, c: Call): World {
    if !Legal(w, c) then w
    else match c
      case Admit(sub) => w.(st := AdmitRow(w.st, sub))
      case Scan => w.(listed := w.listed + Scanned(w.st))
      case Do(id, op) =>
        w.(st := Apply(w.st, id, op), used := if op.Claim? then w.used + {op.attempt} else w.used)
      case Append(conv, recs) => w.(st := AppendTo(w.st, conv, recs))
  }

  function Run(calls: seq<Call>): World {
    if calls == [] then INITIAL else Next(Run(calls[..|calls| - 1]), calls[|calls| - 1])
  }

  /** Does the last call of the history apply op to the row? */
  predicate Hits(w: World, c: Call, id: SubmissionId) {
    c.Do? && c.id == id && Legal(w, c) && Applies(w.st, id, c.op)
  }

  // ---- what every call keeps ----

  ghost predicate AttemptsDistinct(w: World) {
    && (forall id :: id in w.st.rows && w.st.rows[id].status == Running ==>
          w.st.rows[id].attemptId in w.used && w.st.rows[id].attemptId != NONE)
    && (forall id, id' | id in w.st.rows && id' in w.st.rows && w.st.rows[id].status == Running ::
          w.st.rows[id'].Owned(w.st.rows[id].attemptId) ==> id == id')
  }

  /** b was admitted after a, to the same session. */
  ghost predicate Behind(st: Store, a: SubmissionId, b: SubmissionId) {
    && a in st.rows && b in st.rows && st.rows[a].session == st.rows[b].session
    && exists i, j :: 0 <= i < j < |st.order| && st.order[i] == a && st.order[j] == b
  }

  ghost predicate ListedAreHeads(w: World) {
    && w.listed <= w.st.rows.Keys
    && (forall a, b :: Behind(w.st, a, b) && b in w.listed ==> w.st.rows[a].status == Settled)
  }

  predicate Untouched(r: Submission) {
    (r.status == Queued || r.status == Settled) && r.attemptCount == 0 && !r.pendingResume
  }

  ghost predicate UnlistedUntouched(w: World) {
    forall id :: id in w.st.rows && id !in w.listed ==> Untouched(w.st.rows[id])
  }

  ghost predicate Inv(w: World) {
    WellFormed(w.st) && AttemptsDistinct(w) && ListedAreHeads(w) && UnlistedUntouched(w)
  }

  lemma ScanKeepsInv(w: World)
    requires Inv(w)
    ensures Inv(Next(w, Scan))
  {
    ScannedAreHeads(w.st);
  }

  lemma ScannedAreHeads(st: Store)
    requires WellFormed(st)
    ensures Scanned(st) <= st.rows.Keys
    ensures forall a, b :: Behind(st, a, b) && b in Scanned(st) ==> st.rows[a].status == Settled
  {
    var rows := Rows(st);
    forall a, b | Behind(st, a, b) && b in Scanned(st)
      ensures st.rows[a].status == Settled
    {
      var k :| 0 <= k < |rows| && rows[k].id == b && SqlRunnable(rows, k);
      var i, j :| 0 <= i < j < |st.order| && st.order[i] == a && st.order[j] == b;
      assert st.order[k] == b && rows[i].session == rows[k].session;
    }
  }

  lemma BehindIsStable(st: Store, id: SubmissionId, op: RowOp, a: SubmissionId, b: SubmissionId)
    ensures Behind(Apply(st, id, op), a, b) == Behind(st, a, b)
  {
    if Applies(st, id, op) {
      TransitionEvolves(st.rows[id], op);
    }
  }

  lemma DoKeepsAttempts(w: World, id: SubmissionId, op: RowOp)
    requires AttemptsDistinct(w) && Hits(w, Do(id, op), id)
    ensures AttemptsDistinct(Next(w, Do(id, op)))
  {
    var r, r' := w.st.rows[id], Transition(w.st.rows[id], op).value;
    if r'.status == Running && !op.Claim? {
      assert r.status == Running && r'.attemptId == r.attemptId;
    }
  }

  lemma DoKeepsHeads(w: World, id: SubmissionId, op: RowOp)
    requires ListedAreHeads(w) && Hits(w, Do(id, op), id)
    ensures ListedAreHeads(Next(w, Do(id, op)))
  {
    TransitionEvolves(w.st.rows[id], op);
    var w' := Next(w, Do(id, op));
    forall a, b | Behind(w'.st, a, b) && b in w'.listed
      ensures w'.st.rows[a].status == Settled
    {
      BehindIsStable(w.st, id, op, a, b);
      assert w.st.rows[a].status == Settled;
    }
  }

  lemma DoKeepsInv(w: World, id: SubmissionId, op: RowOp)
    requires Inv(w) && Legal(w, Do(id, op))
    ensures Inv(Next(w, Do(id, op)))
  {
    if Applies(w.st, id, op) {
      ApplyWellFormed(w.st, id, op);
      DoKeepsAttempts(w, id, op);
      DoKeepsHeads(w, id, op);
      assert UnlistedUntouched(Next(w, Do(id, op))) by {
        if id !in w.listed { assert Untouched(w.st.rows[id]); }
      }
    }
  }

  lemma AdmitKeepsHeads(w: World, sub: Submission)
    requires WellFormed(w.st) && ListedAreHeads(w) && sub.id !in w.st.rows
    ensures ListedAreHeads(w.(st := AdmitRow(w.st, sub)))
  {
    var st, st' := w.st, AdmitRow(w.st, sub);
    forall a, b | Behind(st', a, b) && b in w.listed
      ensures st'.rows[a].status == Settled
    {
      var i, j :| 0 <= i < j < |st'.order| && st'.order[i] == a && st'.order[j] == b;
      assert b != sub.id && j != |st.order|;
      assert st.order[i] == a && st.order[j] == b;
      assert a in st.rows && st'.rows[a] == st.rows[a] && st'.rows[b] == st.rows[b];
      assert Behind(st, a, b);
    }
    assert w.listed <= st'.rows.Keys;
  }

  lemma AdmitKeepsInv(w: World, sub: Submission)
    requires Inv(w) && Fresh(sub)
    ensures Inv(Next(w, Admit(sub)))
  {
    AdmitWellFormed(w.st, sub);
    if sub.id !in w.st.rows {
      AdmitKeepsHeads(w, sub);
      AdmitKeepsAttempts(w, sub);
    }
  }

  lemma AdmitKeepsAttempts(w: World, sub: Submission)
    requires AttemptsDistinct(w) && UnlistedUntouched(w) && Fresh(sub) && sub.id !in w.st.rows
    ensures AttemptsDistinct(w.(st := AdmitRow(w.st, sub))) && UnlistedUntouched(w.(st := AdmitRow(w.st, sub)))
  {
  }

  lemma NextKeepsInv(w: World, c: Call)
    requires Inv(w)
    ensures Inv(Next(w, c))
  {
    if Legal(w, c) {
      match c {
        case Admit(sub) => AdmitKeepsInv(w, sub);
        case Scan => ScanKeepsInv(w);
        case Do(id, op) => DoKeepsInv(w, id, op);
        case Append(_, _) =>
      }
    }
  }

  lemma {:induction false} RunKeepsInv(calls: seq<Call>)
    ensures Inv(Run(calls))
  {
    if calls != [] {
      RunKeepsInv(calls[..|calls| - 1]);
      NextKeepsInv(Run(calls[..|calls| - 1]), calls[|calls| - 1]);
    }
  }

  // ---- decisions are permanent ----

  ghost predicate StoreEvolves(st: Store, st': Store) {
    && (forall id :: id in st.rows ==> id in st'.rows && Evolves(st.rows[id], st'.rows[id]))
    && (forall conv :: conv in st.logs ==> conv in st'.logs && st.logs[conv] <= st'.logs[conv])
  }

  lemma NextEvolves(w: World, c: Call)
    ensures StoreEvolves(w.st, Next(w, c).st)
    ensures w.used <= Next(w, c).used && w.listed <= Next(w, c).listed
  {
    if Legal(w, c) && c.Do? && Applies(w.st, c.id, c.op) {
      TransitionEvolves(w.st.rows[c.id], c.op);
    }
  }

  lemma StoreEvolvesTransitive(a: Store, b: Store, c: Store)
    requires StoreEvolves(a, b) && StoreEvolves(b, c)
    ensures StoreEvolves(a, c)
  {
  }

  /** What one call does to one row. */
  lemma RowAfter(w: World, c: Call, id: SubmissionId)
    ensures Hits(w, c, id) ==>
              id in Next(w, c).st.rows && Next(w, c).st.rows[id] == Transition(w.st.rows[id], c.op).value
    ensures !Hits(w, c, id) && id in w.st.rows ==> id in Next(w, c).st.rows && Next(w, c).st.rows[id] == w.st.rows[id]
    ensures id !in w.st.rows && id in Next(w, c).st.rows ==> Fresh(Next(w, c).st.rows[id])
  {
  }

  lemma RunOne(calls: seq<Call>, c: Call)
    ensures Run(calls + [c]) == Next(Run(calls), c)
  {
    assert (calls + [c])[..|calls|] == calls;
  }

  lemma EvolvesOne(w0: World, w: World, c: Call)
    requires StoreEvolves(w0.st, w.st) && w0.used <= w.used
    ensures StoreEvolves(w0.st, Next(w, c).st) && w0.used <= Next(w, c).used
  {
    NextEvolves(w, c);
    StoreEvolvesTransitive(w0.st, w.st, Next(w, c).st);
  }

  /** No later call takes back an identity, a settlement, a terminal status, a
      cancel request, an attempt count or a record. */
  lemma {:induction false} DecisionsArePermanent(calls: seq<Call>, more: seq<Call>)
    ensures StoreEvolves(Run(calls).st, Run(calls + more).st)
    ensures Run(calls).used <= Run(calls + more).used
    decreases |more|
  {
    if more == [] {
      assert calls + more == calls;
    } else {
      var n := |more| - 1;
      DecisionsArePermanent(calls, more[..n]);
      RunOne(calls + more[..n], more[n]);
      assert calls + more == calls + more[..n] + [more[n]];
      EvolvesOne(Run(calls), Run(calls + more[..n]), more[n]);
    }
  }

  // ---- head of line ----

  /** How many claims of the row succeeded; the flag selects resume claims. */
  function Claims(calls: seq<Call>, id: SubmissionId, resumes: bool): nat {
    if calls == [] then 0
    else
      var before := Run(calls[..|calls| - 1]);
      var last := calls[|calls| - 1];
      Claims(calls[..|calls| - 1], id, resumes)
      + (if Hits(before, last, id) && last.op.Claim? && before.st.rows[id].pendingResume == resumes then 1 else 0)
  }

  /** Behind an unsettled row of its session, a row is queued (or was cancelled
      while queued) and no claim ever took it. */
  lemma HeadOfLine(calls: seq<Call>, a: SubmissionId, b: SubmissionId)
    requires Behind(Run(calls).st, a, b) && Run(calls).st.rows[a].status != Settled
    ensures Untouched(Run(calls).st.rows[b])
    ensures Claims(calls, b, true) == Claims(calls, b, false) == 0
  {
    RunKeepsInv(calls);
    UnlistedNeverClaimed(calls, b);
  }

  lemma {:induction false} UnlistedNeverClaimed(calls: seq<Call>, id: SubmissionId)
    requires id !in Run(calls).listed
    ensures Claims(calls, id, true) == Claims(calls, id, false) == 0
  {
    if calls != [] {
      var before := Run(calls[..|calls| - 1]);
      NextEvolves(before, calls[|calls| - 1]);
      UnlistedNeverClaimed(calls[..|calls| - 1], id);
    }
  }

  /** A successful claim hits the oldest unsettled row of its session, however
      long ago the scan that named it ran. */
  lemma ClaimHitsTheHead(calls: seq<Call>, id: SubmissionId, op: RowOp, a: SubmissionId)
    requires Hits(Run(calls), Do(id, op), id) && op.Claim?
    requires Behind(Run(calls).st, a, id)
    ensures Run(calls).st.rows[a].status == Settled
  {
    RunKeepsInv(calls);
  }

  // ---- fencing ----

  /** The attempt was used and owns no running row any more. */
  ghost predicate Retired(w: World, a: AttemptId) {
    a in w.used && forall id :: id in w.st.rows ==> !w.st.rows[id].Owned(a)
  }

  lemma RetiredIsStable(w: World, c: Call, a: AttemptId)
    requires Retired(w, a)
    ensures Retired(Next(w, c), a)
  {
  }

  lemma {:induction false} RetiredForever(calls: seq<Call>, more: seq<Call>, a: AttemptId)
    requires Retired(Run(calls), a)
    ensures Retired(Run(calls + more), a)
    decreases |more|
  {
    if more == [] {
      assert calls + more == calls;
    } else {
      var n := |more| - 1;
      RetiredForever(calls, more[..n], a);
      RunOne(calls + more[..n], more[n]);
      assert calls + more == calls + more[..n] + [more[n]];
      RetiredIsStable(Run(calls + more[..n]), more[n], a);
    }
  }

  /** Once a call takes a running row from its attempt (release, park, reserve,
      reclaim), no later fenced call by that attempt changes any row. */
  lemma LostAttemptChangesNothing(calls: seq<Call>, c: Call, more: seq<Call>, id: SubmissionId, a: AttemptId,
                                  late: Call)
    requires id in Run(calls).st.rows && Run(calls).st.rows[id].Owned(a)
    requires !Run(calls + [c]).st.rows[id].Owned(a)
    requires late.Do? && Fence(late.op) == Some(a)
    ensures Next(Run(calls + [c] + more), late) == Run(calls + [c] + more)
    ensures !Applies(Run(calls + [c] + more).st, late.id, late.op)
  {
    RunKeepsInv(calls);
    assert (calls + [c])[..|calls|] == calls;
    var w, w' := Run(calls), Run(calls + [c]);
    assert w' == Next(w, c);
    assert c.Do? && c.id == id;
    assert forall x :: x in w'.st.rows && x != id ==> x in w.st.rows && w'.st.rows[x] == w.st.rows[x];
    RetiredForever(calls + [c], more, a);
  }

  /** How many reservations of the row succeeded. */
  function Reservations(calls: seq<Call>, id: SubmissionId): nat {
    if calls == [] then 0
    else
      Reservations(calls[..|calls| - 1], id)
      + (if Hits(Run(calls[..|calls| - 1]), calls[|calls| - 1], id) && calls[|calls| - 1].op.Reserve? then 1 else 0)
  }

  /** At most one attempt ever drives a row to terminalizing. */
  lemma {:induction false} ReservedAtMostOnce(calls: seq<Call>, id: SubmissionId)
    ensures Reservations(calls, id) <= 1
    ensures Reservations(calls, id) == 1 ==> id in Run(calls).st.rows && Run(calls).st.rows[id].Terminal()
    ensures id in Run(calls).st.rows && Run(calls).st.rows[id].status == Terminalizing ==> Reservations(calls, id) == 1
  {
    if calls != [] {
      ReservedAtMostOnce(calls[..|calls| - 1], id);
      RowAfter(Run(calls[..|calls| - 1]), calls[|calls| - 1], id);
    }
  }

  // ---- leases and deadlines ----

  /** Call n of the history changes the row. */
  predicate HitsAt(calls: seq<Call>, n: nat, id: SubmissionId) {
    n < |calls| && Hits(Run(calls[..n]), calls[n], id)
  }

  lemma HitsBefore(calls: seq<Call>, n: nat, id: SubmissionId)
    requires calls != [] && n < |calls| - 1
    ensures HitsAt(calls, n, id) <==> HitsAt(calls[..|calls| - 1], n, id)
    ensures calls[..|calls| - 1][n] == calls[n]
  {
    assert calls[..|calls| - 1][..n] == calls[..n];
  }

  lemma Unchanged(calls: seq<Call>, id: SubmissionId)
    requires calls != [] && !HitsAt(calls, |calls| - 1, id) && id in Run(calls).st.rows
    ensures id in Run(calls[..|calls| - 1]).st.rows ==>
              Run(calls).st.rows[id] == Run(calls[..|calls| - 1]).st.rows[id]
    ensures id !in Run(calls[..|calls| - 1]).st.rows ==> Run(calls).st.rows[id].status == Queued
  {
    RowAfter(Run(calls[..|calls| - 1]), calls[|calls| - 1], id);
  }

  /** Call n claimed the row r, call m set its lease, and only renewals and cancel
      requests hit it after n, only cancel requests after m. */
  ghost predicate UnderClaim(calls: seq<Call>, id: SubmissionId, r: Submission, n: nat, m: nat) {
    && n <= m && HitsAt(calls, n, id) && HitsAt(calls, m, id)
    && calls[n].op.Claim? && calls[n].op.attempt == r.attemptId && calls[n].op.owner == r.ownerId
    && (if m == n then calls[n].op.lease == r.leaseExpiresAt
        else calls[m].op == Renew(r.attemptId, r.leaseExpiresAt))
    && (forall i: nat :: n < i && HitsAt(calls, i, id) ==> calls[i].op.Renew? || calls[i].op.Cancel?)
    && (forall i: nat :: m < i && HitsAt(calls, i, id) ==> calls[i].op.Cancel?)
  }

  /** One call more that left the row running, without claiming it: a renewal, or
      one that kept the lease. */
  lemma UnderClaimNext(calls: seq<Call>, id: SubmissionId, r: Submission, n: nat, m: nat, r': Submission)
    returns (m': nat)
    requires calls != [] && UnderClaim(calls[..|calls| - 1], id, r, n, m)
    requires r'.attemptId == r.attemptId && r'.ownerId == r.ownerId
    requires if HitsAt(calls, |calls| - 1, id) && calls[|calls| - 1].op.Renew?
             then calls[|calls| - 1].op == Renew(r'.attemptId, r'.leaseExpiresAt)
             else r'.leaseExpiresAt == r.leaseExpiresAt
                  && (HitsAt(calls, |calls| - 1, id) ==> calls[|calls| - 1].op.Cancel?)
    ensures UnderClaim(calls, id, r', n, m')
  {
    var last := |calls| - 1;
    HitsBefore(calls, n, id);
    HitsBefore(calls, m, id);
    m' := if HitsAt(calls, last, id) && calls[last].op.Renew? then last else m;
    forall i: nat | n < i && HitsAt(calls, i, id)
      ensures calls[i].op.Renew? || calls[i].op.Cancel?
      ensures m' < i ==> calls[i].op.Cancel?
    {
      if i < last { HitBefore(calls, i, id); }
    }
  }

  lemma HitBefore(calls: seq<Call>, i: nat, id: SubmissionId)
    requires calls != [] && i < |calls| - 1 && HitsAt(calls, i, id)
    ensures HitsAt(calls[..|calls| - 1], i, id) && calls[..|calls| - 1][i] == calls[i]
  {
    HitsBefore(calls, i, id);
  }

  lemma StillRunning(r: Submission, op: RowOp)
    requires Transition(r, op).Some? && Transition(r, op).value.status == Running && !op.Claim?
    ensures var r' := Transition(r, op).value;
            && r.status == Running && r'.attemptId == r.attemptId && r'.ownerId == r.ownerId
            && (op == Renew(r'.attemptId, r'.leaseExpiresAt) || (op.Cancel? && r'.leaseExpiresAt == r.leaseExpiresAt))
  {
  }

  /** A running row is under the attempt and owner of the claim that took it, n, and
      its lease is that of the last renewal since, m, or of the claim itself. */
  lemma {:induction false} RunsUnderItsClaim(calls: seq<Call>, id: SubmissionId) returns (n: nat, m: nat)
    requires id in Run(calls).st.rows && Run(calls).st.rows[id].status == Running
    ensures UnderClaim(calls, id, Run(calls).st.rows[id], n, m)
  {
    var last := |calls| - 1;
    var r' := Run(calls).st.rows[id];
    var before := Run(calls[..last]).st;
    RowAfter(Run(calls[..last]), calls[last], id);
    if HitsAt(calls, last, id) {
      if calls[last].op.Claim? {
        n, m := last, last;
        return;
      }
      StillRunning(before.rows[id], calls[last].op);
    } else {
      Unchanged(calls, id);
    }
    var r := before.rows[id];
    n, m := RunsUnderItsClaim(calls[..last], id);
    m := UnderClaimNext(calls, id, r, n, m, r');
  }

  lemma ErrorAfter(r: Submission, op: RowOp)
    requires Transition(r, op).Some?
    ensures var r' := Transition(r, op).value;
            && (op.Release? && op.lastError != "" ==> r'.lastError == op.lastError)
            && (!(op.Release? && op.lastError != "") && !op.Cancel? ==> r'.lastError == r.lastError)
            && (op.Cancel? ==> r'.lastError in {r.lastError, op.reason})
  {
  }

  /** The error on a row is the one that a release or a cancel, n, gave it; releases
      since then gave none, and so kept it. */
  lemma {:induction false} ErrorsAreKept(calls: seq<Call>, id: SubmissionId) returns (n: nat)
    requires id in Run(calls).st.rows && Run(calls).st.rows[id].lastError != ""
    ensures HitsAt(calls, n, id)
    ensures var e := Run(calls).st.rows[id].lastError;
            (calls[n].op.Release? && calls[n].op.lastError == e) || (calls[n].op.Cancel? && calls[n].op.reason == e)
    ensures forall i :: n < i < |calls| && HitsAt(calls, i, id) && calls[i].op.Release? ==> calls[i].op.lastError == ""
  {
    var last := |calls| - 1;
    var before, e := Run(calls[..last]), Run(calls).st.rows[id].lastError;
    RowAfter(before, calls[last], id);
    if HitsAt(calls, last, id) { ErrorAfter(before.st.rows[id], calls[last].op); }
    if HitsAt(calls, last, id) && ((calls[last].op.Release? && calls[last].op.lastError == e)
                                   || (calls[last].op.Cancel? && calls[last].op.reason == e)) {
      n := last;
    } else {
      n := ErrorsAreKept(calls[..last], id);
      HitsBefore(calls, n, id);
      forall i | n < i < last && HitsAt(calls, i, id)
        ensures HitsAt(calls[..last], i, id) && calls[..last][i] == calls[i]
      {
        HitsBefore(calls, i, id);
      }
    }
  }

  /** Who is not running holds no attempt and no lease; who waits, and only who waits,
      has a deadline, and will be resumed. */
  ghost predicate AtRest(r: Submission) {
    && (r.status == Queued || r.status == Waiting ==>
          r.attemptId == NONE && r.ownerId == NONE && r.leaseExpiresAt == ZERO_TIME)
    && (r.waitUntil != ZERO_TIME ==> r.status == Waiting)
    && (r.status == Waiting ==> r.pendingResume)
    && (r.pendingResume ==> r.status == Queued || r.status == Waiting)
  }

  lemma {:induction false} LeasesBelongToRunningRows(calls: seq<Call>, id: SubmissionId)
    requires id in Run(calls).st.rows
    ensures AtRest(Run(calls).st.rows[id])
  {
    var before := Run(calls[..|calls| - 1]);
    RowAfter(before, calls[|calls| - 1], id);
    if id in before.st.rows { LeasesBelongToRunningRows(calls[..|calls| - 1], id); }
  }

  /** A waiting row waits until the deadline of the park that suspended it, n, and
      nothing hit it since. */
  lemma {:induction false} WaitsUntilItsDeadline(calls: seq<Call>, id: SubmissionId) returns (n: nat)
    requires id in Run(calls).st.rows && Run(calls).st.rows[id].status == Waiting
    ensures HitsAt(calls, n, id) && calls[n].op.Park? && calls[n].op.until == Run(calls).st.rows[id].waitUntil
    ensures forall i :: n < i < |calls| ==> !HitsAt(calls, i, id)
  {
    var last := |calls| - 1;
    RowAfter(Run(calls[..last]), calls[last], id);
    if HitsAt(calls, last, id) {
      n := last;
    } else {
      Unchanged(calls, id);
      n := WaitsUntilItsDeadline(calls[..last], id);
      HitsBefore(calls, n, id);
      forall i | n < i < last
        ensures !HitsAt(calls, i, id)
      {
        HitsBefore(calls, i, id);
      }
    }
  }

  // ---- the durable attempt budget ----

  function Parks(calls: seq<Call>, id: SubmissionId): nat {
    if calls == [] then 0
    else
      Parks(calls[..|calls| - 1], id)
      + (if Hits(Run(calls[..|calls| - 1]), calls[|calls| - 1], id) && calls[|calls| - 1].op.Park? then 1 else 0)
  }

  /** How many non-resume claims pass the budget check of runSubmission, which
      looks at the attempt count of the claimed row. */
  function Drives(calls: seq<Call>, id: SubmissionId, maxAttempts: int): nat {
    if calls == [] then 0
    else
      var before := Run(calls[..|calls| - 1]);
      var last := calls[|calls| - 1];
      Drives(calls[..|calls| - 1], id, maxAttempts)
      + (if Hits(before, last, id) && last.op.Claim? && !before.st.rows[id].pendingResume
            && ClaimedRow(before.st, id, last.op).attemptCount <= Budget(maxAttempts) then 1 else 0)
  }

  function Count(w: World, id: SubmissionId): nat {
    if id in w.st.rows then w.st.rows[id].attemptCount else 0
  }

  lemma {:induction false} AttemptCountCountsClaims(calls: seq<Call>, id: SubmissionId)
    ensures Count(Run(calls), id) == Claims(calls, id, false)
  {
    if calls != [] {
      AttemptCountCountsClaims(calls[..|calls| - 1], id);
      RowAfter(Run(calls[..|calls| - 1]), calls[|calls| - 1], id);
    }
  }

  /** A park pays for at most one resume claim. */
  lemma {:induction false} ParksPayForResumes(calls: seq<Call>, id: SubmissionId)
    ensures Claims(calls, id, true)
         + (if id in Run(calls).st.rows && Run(calls).st.rows[id].pendingResume then 1 else 0) <= Parks(calls, id)
  {
    if calls != [] {
      ParksPayForResumes(calls[..|calls| - 1], id);
      RowAfter(Run(calls[..|calls| - 1]), calls[|calls| - 1], id);
    }
  }

  /** Crashes, releases, parks and resumes spend the budget exactly once. */
  lemma {:induction false} BudgetIsDurable(calls: seq<Call>, id: SubmissionId, maxAttempts: int)
    ensures Drives(calls, id, maxAttempts)
         == if Claims(calls, id, false) <= Budget(maxAttempts) then Claims(calls, id, false) else Budget(maxAttempts)
  {
    if calls != [] {
      BudgetIsDurable(calls[..|calls| - 1], id, maxAttempts);
      AttemptCountCountsClaims(calls[..|calls| - 1], id);
    }
  }
}
