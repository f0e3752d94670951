/** What the orphan cascade achieves, and why it lasts. */
module CascadeTheorems {
  import opened Records
  import opened Submissions
  import opened StoreModel
  import opened Handoff
  import opened CoordinatorSpec
  import opened WaitTheorems
  import opened Calls

  /** A settled parent is never woken: settling its child only adds the record. */
  lemma SettledParentIsNotWoken(sys: Sys, sub: Submission, payload: SettledPayload)
    requires sub.parent in sys.st.rows && sys.st.rows[sub.parent].status == Settled
    ensures var sys' := SettledRecordOnce(sys, sub, payload);
            && sys'.st.rows == sys.st.rows && sys'.st.order == sys.st.order
            && StoreEvolves(sys.st, sys'.st)
            && (forall conv :: conv != sub.conv ==> LogOf(sys'.st, conv) == LogOf(sys.st, conv))
            && Recorded(LogOf(sys'.st, sub.conv), sub.id)
               == (if Recorded(LogOf(sys.st, sub.conv), sub.id).Some? then Recorded(LogOf(sys.st, sub.conv), sub.id)
                   else Some(payload))
  {
    var log := LogOf(sys.st, sub.conv);
    var rec := Record(sys.ulid, sub.id, SubmissionSettled(payload));
    RecordedAppend(log, [rec], sub.id);
  }

  /** The kid's earlier record stands, or it is on record as cancelled. */
  ghost predicate OnRecord(st: Store, kid: Submission, st': Store) {
    var was := Recorded(LogOf(st, kid.conv), kid.id);
    Recorded(LogOf(st', kid.conv), kid.id)
    == if was.Some? then was
       else Some(SettledPayload(Failed, "cancelled: parent settled", CancelledByParent, ""))
  }

  /** Cancelling one child puts no record of another on file. */
  lemma CancelChildKeepsRecord(sys: Sys, kid: Submission, reason: Text, other: Submission)
    requires kid.parent in sys.st.rows && sys.st.rows[kid.parent].status == Settled && other.id != kid.id
    ensures Recorded(LogOf(CancelChild(sys, kid, reason).st, other.conv), other.id)
         == Recorded(LogOf(sys.st, other.conv), other.id)
  {
    if kid.status != Settled && Applies(sys.st, kid.id, Cancel(reason)) {
      var sys1 := sys.(st := Apply(sys.st, kid.id, Cancel(reason)));
      assert LogOf(sys1.st, other.conv) == LogOf(sys.st, other.conv);
      assert sys1.st.rows[kid.parent].status == Settled;
      RecordedAppend(LogOf(sys1.st, kid.conv), [Record(sys1.ulid, kid.id, SubmissionSettled(CANCELLED))], other.id);
      var sys2 := RecordOnly(sys1, kid, CANCELLED);
      assert SettledRecordOnce(sys1, kid, CANCELLED) == sys2;
      assert Recorded(LogOf(sys2.st, other.conv), other.id) == Recorded(LogOf(sys1.st, other.conv), other.id);
    }
  }

  /** One child of the cascade: closed, and on record if it was settled here. */
  lemma CancelChildCloses(sys: Sys, parent: SubmissionId, kid: Submission, reason: Text)
    requires parent in sys.st.rows && sys.st.rows[parent].status == Settled && kid.parent == parent
    ensures var st' := CancelChild(sys, kid, reason).st;
            && StoreEvolves(sys.st, st') && st'.rows.Keys == sys.st.rows.Keys && st'.order == sys.st.order
            && (kid.id in sys.st.rows && (kid.status == Settled ==> sys.st.rows[kid.id].status == Settled) ==>
                  st'.rows[kid.id].Closed())
            && (kid.id in sys.st.rows && sys.st.rows[kid.id].status in {Queued, Waiting} && kid.status != Settled ==>
                  st'.rows[kid.id].status == Settled && OnRecord(sys.st, kid, st'))
  {
    if kid.status != Settled && Applies(sys.st, kid.id, Cancel(reason)) {
      TransitionEvolves(sys.st.rows[kid.id], Cancel(reason));
      var sys1 := sys.(st := Apply(sys.st, kid.id, Cancel(reason)));
      assert StoreEvolves(sys.st, sys1.st);
      assert sys1.st.rows[parent].status == Settled;
      SettledParentIsNotWoken(sys1, kid, CANCELLED);
      StoreEvolvesTransitive(sys.st, sys1.st, SettledRecordOnce(sys1, kid, CANCELLED).st);
    }
  }

  lemma {:induction false} CancelChildrenEvolves(sys: Sys, parent: SubmissionId, kids: seq<Submission>, reason: Text)
    requires parent in sys.st.rows && sys.st.rows[parent].status == Settled
    requires forall i {:trigger kids[i]} :: 0 <= i < |kids| ==> kids[i].parent == parent
    ensures var st' := CancelChildren(sys, kids, reason).st;
            StoreEvolves(sys.st, st') && st'.rows.Keys == sys.st.rows.Keys && st'.order == sys.st.order
    decreases |kids|
  {
    if kids != [] {
      CancelChildCloses(sys, parent, kids[0], reason);
      var sys1 := CancelChild(sys, kids[0], reason);
      assert Evolves(sys.st.rows[parent], sys1.st.rows[parent]);
      CancelChildrenEvolves(sys1, parent, kids[1..], reason);
      StoreEvolvesTransitive(sys.st, sys1.st, CancelChildren(sys1, kids[1..], reason).st);
    }
  }

  lemma {:induction false} CancelChildrenCloses(sys: Sys, parent: SubmissionId, kids: seq<Submission>, reason: Text,
                                                i: nat)
    requires parent in sys.st.rows && sys.st.rows[parent].status == Settled
    requires forall j {:trigger kids[j]} :: 0 <= j < |kids| ==> kids[j].parent == parent
    requires i < |kids| && kids[i].id in sys.st.rows
    requires kids[i].status == Settled ==> sys.st.rows[kids[i].id].status == Settled
    ensures var st' := CancelChildren(sys, kids, reason).st;
            kids[i].id in st'.rows && st'.rows[kids[i].id].Closed()
    decreases |kids|
  {
    CancelChildCloses(sys, parent, kids[0], reason);
    var sys1 := CancelChild(sys, kids[0], reason);
    assert Evolves(sys.st.rows[parent], sys1.st.rows[parent]);
    if i == 0 {
      CancelChildrenEvolves(sys1, parent, kids[1..], reason);
      assert Evolves(sys1.st.rows[kids[0].id], CancelChildren(sys1, kids[1..], reason).st.rows[kids[0].id]);
    } else {
      assert Evolves(sys.st.rows[kids[i].id], sys1.st.rows[kids[i].id]);
      CancelChildrenCloses(sys1, parent, kids[1..], reason, i - 1);
    }
  }

  /** After the cascade of a settled parent every child is settled, terminalizing
      or flagged; nothing already decided in the store is taken back. */
  lemma CascadeClosesChildren(sys: Sys, parent: SubmissionId, reason: Text)
    requires WellFormed(sys.st) && parent in sys.st.rows && sys.st.rows[parent].status == Settled
    ensures var st' := CancelChildren(sys, Children(sys.st, parent), reason).st;
            ChildrenClosed(st', parent) && StoreEvolves(sys.st, st') && st'.rows.Keys == sys.st.rows.Keys
  {
    var kids := Children(sys.st, parent);
    ChildrenMembers(sys.st, parent);
    forall i {:trigger kids[i]} | 0 <= i < |kids|
      ensures kids[i].parent == parent && kids[i].id in sys.st.rows && sys.st.rows[kids[i].id] == kids[i]
    {
      assert kids[i] in kids;
    }
    CancelChildrenEvolves(sys, parent, kids, reason);
    var st' := CancelChildren(sys, kids, reason).st;
    forall id | id in st'.rows && st'.rows[id].parent == parent
      ensures st'.rows[id].Closed()
    {
      assert Evolves(sys.st.rows[id], st'.rows[id]);
      var i := ChildIndex(sys.st, parent, id);
      CancelChildrenCloses(sys, parent, kids, reason, i);
    }
  }

  lemma {:induction false} CancelChildrenRecords(sys: Sys, parent: SubmissionId, kids: seq<Submission>, reason: Text,
                                                 i: nat)
    requires parent in sys.st.rows && sys.st.rows[parent].status == Settled
    requires forall j {:trigger kids[j]} :: 0 <= j < |kids| ==> kids[j].parent == parent
    requires forall j, k :: 0 <= j < k < |kids| ==> kids[j].id != kids[k].id
    requires i < |kids| && kids[i].id in sys.st.rows && kids[i].id != parent
    requires sys.st.rows[kids[i].id].status in {Queued, Waiting} && kids[i].status != Settled
    ensures var st' := CancelChildren(sys, kids, reason).st;
            && kids[i].id in st'.rows && st'.rows[kids[i].id].status == Settled
            && OnRecord(sys.st, kids[i], st')
    decreases |kids|
  {
    CancelChildCloses(sys, parent, kids[0], reason);
    var sys1 := CancelChild(sys, kids[0], reason);
    assert Evolves(sys.st.rows[parent], sys1.st.rows[parent]);
    if i == 0 {
      CancelChildrenEvolves(sys1, parent, kids[1..], reason);
      var st' := CancelChildren(sys1, kids[1..], reason).st;
      assert Evolves(sys1.st.rows[kids[0].id], st'.rows[kids[0].id]);
      RecordStays(sys1.st, st', kids[0]);
    } else {
      CancelChildLeavesOthers(sys, kids[0], reason, kids[i].id);
      CancelChildKeepsRecord(sys, kids[0], reason, kids[i]);
      CancelChildrenRecords(sys1, parent, kids[1..], reason, i - 1);
    }
  }

  lemma CancelChildLeavesOthers(sys: Sys, kid: Submission, reason: Text, other: SubmissionId)
    requires kid.parent in sys.st.rows && sys.st.rows[kid.parent].status == Settled
    requires other in sys.st.rows && other != kid.id
    ensures CancelChild(sys, kid, reason).st.rows.Keys == sys.st.rows.Keys
    ensures CancelChild(sys, kid, reason).st.rows[other] == sys.st.rows[other]
  {
    if kid.status != Settled && Applies(sys.st, kid.id, Cancel(reason)) {
      TransitionEvolves(sys.st.rows[kid.id], Cancel(reason));
      var sys1 := sys.(st := Apply(sys.st, kid.id, Cancel(reason)));
      assert sys1.st.rows[kid.parent].status == Settled;
      SettledParentIsNotWoken(sys1, kid, CANCELLED);
    }
  }

  lemma RecordStays(st: Store, st': Store, kid: Submission)
    requires StoreEvolves(st, st') && Recorded(LogOf(st, kid.conv), kid.id).Some?
    ensures Recorded(LogOf(st', kid.conv), kid.id) == Recorded(LogOf(st, kid.conv), kid.id)
  {
    var log, log' := LogOf(st, kid.conv), LogOf(st', kid.conv);
    assert kid.conv in st.logs;
    RecordedAppend(log, log'[|log|..], kid.id);
    assert log' == log + log'[|log|..];
  }

  /** A child that was queued or waiting is settled by the cascade itself, as
      cancelled on record unless a settled record stood there before. */
  lemma CascadeRecordsTheSettled(sys: Sys, parent: SubmissionId, reason: Text, id: SubmissionId)
    requires WellFormed(sys.st) && parent in sys.st.rows && sys.st.rows[parent].status == Settled
    requires id in Kids(sys.st, parent) && sys.st.rows[id].status in {Queued, Waiting}
    ensures var st' := CancelChildren(sys, Children(sys.st, parent), reason).st;
            && id in st'.rows && st'.rows[id].status == Settled
            && OnRecord(sys.st, sys.st.rows[id], st')
  {
    var kids := Children(sys.st, parent);
    ChildrenMembers(sys.st, parent);
    ChildrenAreDistinct(sys.st, parent);
    forall i {:trigger kids[i]} | 0 <= i < |kids|
      ensures kids[i].parent == parent
    {
      assert kids[i] in kids;
    }
    var i := ChildIndex(sys.st, parent, id);
    CancelChildrenRecords(sys, parent, kids, reason, i);
  }

  /** A closed child never gets a drive again, whatever calls follow: a claim of
      its row loses, or hands over a flagged row that settles cancelled. */
  lemma ClosedIsNeverDriven(calls: seq<Call>, more: seq<Call>, id: SubmissionId, claim: RowOp,
                            initError: Option<Text>, maxAttempts: int, timeout: int, now: int,
                            reread: Option<Submission>)
    requires id in Run(calls).st.rows && Run(calls).st.rows[id].Closed() && claim.Claim?
    ensures var st := Run(calls + more).st;
            && id in st.rows && st.rows[id].Closed()
            && (Applies(st, id, claim) ==>
                  Decide(ClaimedRow(st, id, claim), initError, maxAttempts, timeout, now, reread) == Settle(CANCELLED))
  {
    DecisionsArePermanent(calls, more);
    assert Evolves(Run(calls).st.rows[id], Run(calls + more).st.rows[id]);
  }

  /** Nor is a submission past its durability timeout, however often it is claimed
      later; the clock does not run back. */
  lemma LateIsNeverDriven(calls: seq<Call>, more: seq<Call>, id: SubmissionId, claim: RowOp, initError: Option<Text>,
                          maxAttempts: int, timeout: int, was: int, now: int, reread: Option<Submission>)
    requires id in Run(calls).st.rows && claim.Claim? && was <= now
    requires was > Run(calls).st.rows[id].createdAt + (if timeout <= 0 then 3_600_000_000_000 else timeout)
    ensures var st := Run(calls + more).st;
            Applies(st, id, claim) ==>
              Decide(ClaimedRow(st, id, claim), initError, maxAttempts, timeout, now, reread).Settle?
  {
    DecisionsArePermanent(calls, more);
    assert Evolves(Run(calls).st.rows[id], Run(calls + more).st.rows[id]);
  }

  /** A claimed submission is driven exactly when nothing stands against it. */
  lemma DrivenIff(sub: Submission, initError: Option<Text>, maxAttempts: int, timeout: int, now: int,
                  reread: Option<Submission>)
    ensures Decide(sub, initError, maxAttempts, timeout, now, reread).Drive?
       <==> && !sub.cancelRequested && initError.None?
            && sub.attemptCount <= (if maxAttempts <= 0 then 10 else maxAttempts)
            && now - sub.createdAt <= (if timeout <= 0 then 3_600_000_000_000 else timeout)
            && !(reread.Some? && reread.value.cancelRequested)
  {
  }

  /** No call of the history admits a child of the parent. A parent is settled after
      its drive has ended, and the tool that admits its children lives in the drive. */
  predicate AdmitsNoChild(calls: seq<Call>, parent: SubmissionId) {
    forall i :: 0 <= i < |calls| && calls[i].Admit? ==> calls[i].sub.parent != parent
  }

  lemma OneCallKeepsChildrenClosed(w: World, c: Call, parent: SubmissionId)
    requires ChildrenClosed(w.st, parent) && (c.Admit? ==> c.sub.parent != parent)
    ensures ChildrenClosed(Next(w, c).st, parent)
  {
    NextEvolves(w, c);
    forall id | id in Next(w, c).st.rows && Next(w, c).st.rows[id].parent == parent
      ensures Next(w, c).st.rows[id].Closed()
    {
      if id in w.st.rows { assert Evolves(w.st.rows[id], Next(w, c).st.rows[id]); }
    }
  }

  /** What the cascade achieved lasts: once every child of the parent is closed,
      every child is closed after any further calls that admit none of its children. */
  lemma {:induction false} ChildrenStayClosed(calls: seq<Call>, more: seq<Call>, parent: SubmissionId)
    requires ChildrenClosed(Run(calls).st, parent) && AdmitsNoChild(more, parent)
    ensures ChildrenClosed(Run(calls + more).st, parent)
    decreases |more|
  {
    if more == [] {
      assert calls + more == calls;
    } else {
      var n := |more| - 1;
      assert AdmitsNoChild(more[..n], parent) by {
        assert forall i :: 0 <= i < n ==> more[..n][i] == more[i];
      }
      ChildrenStayClosed(calls, more[..n], parent);
      RunOne(calls + more[..n], more[n]);
      assert calls + more == calls + more[..n] + [more[n]];
      OneCallKeepsChildrenClosed(Run(calls + more[..n]), more[n], parent);
    }
  }

  /** Every drive begun under a non-resume claim is one of the counted drives, so
      BudgetIsDurable bounds how many there ever are. */
  lemma DrivesAreCounted(calls: seq<Call>, claim: Call, initError: Option<Text>, maxAttempts: int, timeout: int,
                         now: int, reread: Option<Submission>)
    requires claim.Do? && claim.op.Claim? && Hits(Run(calls), claim, claim.id)
    requires !Run(calls).st.rows[claim.id].pendingResume
    requires Decide(ClaimedRow(Run(calls).st, claim.id, claim.op), initError, maxAttempts, timeout, now, reread).Drive?
    ensures Drives(calls + [claim], claim.id, maxAttempts) == Drives(calls, claim.id, maxAttempts) + 1
    ensures Drives(calls + [claim], claim.id, maxAttempts) <= Budget(maxAttempts)
  {
    assert (calls + [claim])[..|calls|] == calls;
    BudgetIsDurable(calls + [claim], claim.id, maxAttempts);
  }
}
