/** The store under the hypothesis that record ids are minted fresh, and that the
    coordinator's functions keep it so. The hypothesis is relative to the rows whose
    wakes may be replayed, walked: of other rows and logs only that ids were minted. */
module Tidiness {
  import opened Records
  import opened Submissions
  import opened StoreModel
  import opened Handoff
  import opened CoordinatorSpec
  import opened Reducer
  import C = Calls

  /** The logs that the wakes walk, those of children, hold distinct ids; all ids
      were minted before ulid. */
  ghost predicate Minted(st: Store, ulid: RecordId, walked: set<SubmissionId>) {
    ulid != NONE && Below(st, ulid) && forall id :: id in walked && id in st.rows ==> Walkable(st, st.rows[id])
  }

  ghost predicate Walkable(st: Store, r: Submission) {
    r.parent in st.rows ==> Distinct(LogOf(st, r.conv))
  }

  predicate HasId(log: Log, id: RecordId) {
    exists i :: 0 <= i < |log| && log[i].id == id
  }

  /** The spawn record id minted for the row awaits its record, or has it. */
  ghost predicate RefReady(st: Store, ulid: RecordId, r: Submission) {
    r.parent in st.rows ==>
      var log, ref := LogOf(st, st.rows[r.parent].conv), ParentRef(LogOf(st, r.conv));
      && st.rows[r.parent].conv != r.conv
      && (ref == NONE || HasSpawn(log, r.parentCallId) || (ref < ulid && !HasId(log, ref)))
  }

  ghost predicate RefsReady(st: Store, ulid: RecordId, walked: set<SubmissionId>) {
    forall id :: id in walked && id in st.rows ==> RefReady(st, ulid, st.rows[id])
  }

  predicate IsChild(st: Store, id: SubmissionId) {
    id in st.rows && st.rows[id].parent in st.rows
  }

  /** Two calls of one conversation were given different spawn record ids. */
  ghost predicate RefsApart(st: Store, walked: set<SubmissionId>) {
    forall x, y | x in walked && y in walked && IsChild(st, x) && IsChild(st, y) ::
      ParentConv(st, st.rows[x]) == ParentConv(st, st.rows[y])
      && ParentRef(LogOf(st, st.rows[x].conv)) == ParentRef(LogOf(st, st.rows[y].conv)) != NONE ==>
        st.rows[x].parentCallId == st.rows[y].parentCallId
  }

  ghost predicate Tidy(sys: Sys, walked: set<SubmissionId>) {
    && Minted(sys.st, sys.ulid, walked) && RefsReady(sys.st, sys.ulid, walked)
    && RefsApart(sys.st, walked)
  }

  /** The submission is a row of the store, as some listing returned it. */
  ghost predicate Listed(st: Store, sub: Submission) {
    sub.id in st.rows && SameIdentity(st.rows[sub.id], sub)
  }

  ghost predicate AllListed(st: Store, subs: seq<Submission>) {
    forall i {:trigger subs[i]} :: 0 <= i < |subs| ==> Listed(st, subs[i])
  }

  lemma ListedRows(st: Store, p: Submission -> bool)
    requires WellFormed(st)
    ensures AllListed(st, Filter(p, Rows(st)))
  {
    var subs := Filter(p, Rows(st));
    FilterMembers(p, Rows(st));
    RowsMembers(st);
    forall i {:trigger subs[i]} | 0 <= i < |subs|
      ensures Listed(st, subs[i])
    {
      assert subs[i] in subs;
    }
  }

  lemma ListedRow(st: Store, p: Submission -> bool, i: nat)
    requires WellFormed(st) && i < |Filter(p, Rows(st))|
    ensures var sub := Filter(p, Rows(st))[i]; sub.id in st.rows && st.rows[sub.id] == sub && p(sub)
  {
    FilterMembers(p, Rows(st));
    RowsMembers(st);
    assert Filter(p, Rows(st))[i] in Filter(p, Rows(st));
  }

  lemma TidyIsSettleable(sys: Sys, sub: Submission, walked: set<SubmissionId>)
    requires Tidy(sys, walked) && Listed(sys.st, sub) && sub.id in walked
    ensures Settleable(sys, sub)
  {
    assert RefReady(sys.st, sys.ulid, sys.st.rows[sub.id]) && Walkable(sys.st, sys.st.rows[sub.id]);
  }

  // ---- the parts are kept ----

  /** Same rows up to what no call changes, same spawn record ids. */
  ghost predicate SameRefs(st: Store, st': Store) {
    && st'.rows.Keys == st.rows.Keys
    && (forall id :: id in st.rows ==> SameIdentity(st.rows[id], st'.rows[id]))
    && forall conv {:trigger LogOf(st', conv)} :: ParentRef(LogOf(st', conv)) == ParentRef(LogOf(st, conv))
  }

  lemma SameRefsKeepApart(st: Store, st': Store, walked: set<SubmissionId>)
    requires RefsApart(st, walked) && SameRefs(st, st')
    ensures RefsApart(st', walked)
  {
    forall x, y | x in walked && y in walked && IsChild(st', x) && IsChild(st', y)
      ensures ParentConv(st', st'.rows[x]) == ParentConv(st', st'.rows[y])
              && ParentRef(LogOf(st', st'.rows[x].conv)) == ParentRef(LogOf(st', st'.rows[y].conv)) != NONE ==>
                st'.rows[x].parentCallId == st'.rows[y].parentCallId
    {
      assert SameIdentity(st.rows[x], st'.rows[x]) && SameIdentity(st.rows[y], st'.rows[y]);
      assert ParentConv(st', st'.rows[x]) == ParentConv(st, st.rows[x]);
      assert ParentConv(st', st'.rows[y]) == ParentConv(st, st.rows[y]);
    }
  }

  lemma {:induction false} RefIgnores(log: Log, rec: Record)
    requires !rec.body.ConversationCreated?
    ensures ParentRef(log + [rec]) == ParentRef(log)
  {
    if log == [] {
      assert [] + [rec] == [rec] && [rec][1..] == [];
    } else {
      assert (log + [rec])[1..] == log[1..] + [rec];
      RefIgnores(log[1..], rec);
    }
  }

  lemma AppendSameRefs(st: Store, conv: ConversationId, rec: Record)
    requires !rec.body.ConversationCreated?
    ensures SameRefs(st, AppendTo(st, conv, [rec]))
  {
    RefIgnores(LogOf(st, conv), rec);
  }

  lemma SpawnInLonger(log: Log, rec: Record, c: CallId)
    ensures HasSpawn(log, c) ==> HasSpawn(log + [rec], c)
    ensures rec.body.TaskSpawned? && rec.body.callId == c ==> HasSpawn(log + [rec], c)
  {
    if HasSpawn(log, c) {
      var i :| 0 <= i < |log| && log[i].body.TaskSpawned? && log[i].body.callId == c;
      assert (log + [rec])[i] == log[i];
    }
    assert (log + [rec])[|log|] == rec;
  }

  /** A record with an id of its own, below the next ULID. */
  lemma AppendKeepsMinted(st: Store, ulid: RecordId, conv: ConversationId, rec: Record, ulid': RecordId,
                          walked: set<SubmissionId>)
    requires Minted(st, ulid, walked) && rec.id != NONE && !HasId(LogOf(st, conv), rec.id)
    requires rec.id < ulid' && ulid <= ulid'
    ensures Minted(AppendTo(st, conv, [rec]), ulid', walked)
  {
    var st' := AppendTo(st, conv, [rec]);
    forall c {:trigger LogOf(st', c)}
      ensures forall i :: 0 <= i < |LogOf(st', c)| ==> LogOf(st', c)[i].id < ulid'
    {
      assert LogOf(st', c) == if c == conv then LogOf(st, c) + [rec] else LogOf(st, c);
      assert forall i :: 0 <= i < |LogOf(st, c)| ==> LogOf(st, c)[i].id < ulid;
    }
    forall id | id in walked && id in st'.rows
      ensures Walkable(st', st'.rows[id])
    {
      assert Walkable(st, st.rows[id]);
      assert st'.rows == st.rows;
      if st.rows[id].parent in st.rows && st.rows[id].conv == conv {
        AppendKeepsDistinct(LogOf(st, conv), rec);
      }
    }
  }

  lemma AppendKeepsDistinct(log: Log, rec: Record)
    requires Distinct(log) && rec.id != NONE && !HasId(log, rec.id)
    ensures Distinct(log + [rec])
  {
  }

  /** Of one row: the record is not the one that awaits it. */
  lemma AppendKeepsReady(st: Store, ulid: RecordId, conv: ConversationId, rec: Record, ulid': RecordId, r: Submission)
    requires RefReady(st, ulid, r) && ulid <= ulid' && !rec.body.ConversationCreated?
    requires r.parent in st.rows && st.rows[r.parent].conv == conv ==>
               rec.id != ParentRef(LogOf(st, r.conv)) || (rec.body.TaskSpawned? && rec.body.callId == r.parentCallId)
    ensures RefReady(AppendTo(st, conv, [rec]), ulid', r)
  {
    var st' := AppendTo(st, conv, [rec]);
    RefIgnores(LogOf(st, conv), rec);
    assert ParentRef(LogOf(st', r.conv)) == ParentRef(LogOf(st, r.conv));
    if r.parent in st.rows && st.rows[r.parent].conv == conv {
      SpawnInLonger(LogOf(st, conv), rec, r.parentCallId);
    }
  }

  // ---- the steps keep the store tidy ----

  lemma TidyApply(sys: Sys, id: SubmissionId, op: RowOp, walked: set<SubmissionId>)
    requires Tidy(sys, walked)
    ensures Tidy(sys.(st := Apply(sys.st, id, op)), walked)
  {
    var st, st' := sys.st, Apply(sys.st, id, op);
    if Applies(st, id, op) { TransitionEvolves(st.rows[id], op); }
    assert forall conv :: LogOf(st', conv) == LogOf(st, conv);
    SameRefsKeepApart(st, st', walked);
    forall x | x in walked && x in st'.rows
      ensures RefReady(st', sys.ulid, st'.rows[x])
    {
      assert RefReady(st, sys.ulid, st.rows[x]);
    }
    forall x | x in walked && x in st'.rows
      ensures Walkable(st', st'.rows[x])
    {
      assert Walkable(st, st.rows[x]);
    }
  }

  /** A record under a new ULID. */
  lemma TidyMint(sys: Sys, conv: ConversationId, rec: Record, walked: set<SubmissionId>)
    requires Tidy(sys, walked) && rec.id == sys.ulid && !rec.body.ConversationCreated?
    ensures Tidy(Sys(AppendTo(sys.st, conv, [rec]), sys.ulid + 1), walked)
  {
    var st, st' := sys.st, AppendTo(sys.st, conv, [rec]);
    AppendKeepsMinted(st, sys.ulid, conv, rec, sys.ulid + 1, walked);
    AppendSameRefs(st, conv, rec);
    SameRefsKeepApart(st, st', walked);
    forall x | x in walked && x in st'.rows
      ensures RefReady(st', sys.ulid + 1, st'.rows[x])
    {
      var r := st.rows[x];
      assert RefReady(st, sys.ulid, r);
      if r.parent in st.rows && ParentRef(LogOf(st, r.conv)) == rec.id && st.rows[r.parent].conv == conv {
        SpawnInLonger(LogOf(st, conv), rec, r.parentCallId);
        RefIgnores(LogOf(st, conv), rec);
      } else {
        AppendKeepsReady(st, sys.ulid, conv, rec, sys.ulid + 1, r);
      }
    }
  }

  /** The spawn record that was awaited. */
  lemma TidyRepair(sys: Sys, child: Submission, walked: set<SubmissionId>)
    requires Tidy(sys, walked) && Listed(sys.st, child) && child.id in walked && child.parent in sys.st.rows
    ensures Tidy(sys.(st := RepairSpawn(sys.st, child)), walked)
  {
    var st, conv := sys.st, sys.st.rows[child.parent].conv;
    var rec := SpawnOf(ParentRef(LogOf(st, child.conv)), child);
    assert RefReady(st, sys.ulid, st.rows[child.id]);
    if !HasSpawn(LogOf(st, conv), child.parentCallId) && rec.id != NONE {
      var st' := AppendTo(st, conv, [rec]);
      AppendKeepsMinted(st, sys.ulid, conv, rec, sys.ulid, walked);
      AppendSameRefs(st, conv, rec);
      SameRefsKeepApart(st, st', walked);
      forall x | x in walked && x in st'.rows
        ensures RefReady(st', sys.ulid, st'.rows[x])
      {
        assert RefReady(st, sys.ulid, st.rows[x]);
        AppendKeepsReady(st, sys.ulid, conv, rec, sys.ulid, st.rows[x]);
      }
    }
  }

  lemma TidyOutcome(sys: Sys, child: Submission, payload: SettledPayload, walked: set<SubmissionId>)
    requires Tidy(sys, walked) && child.parent in sys.st.rows
    ensures Tidy(AppendOutcome(sys, child, payload), walked)
  {
    var conv := sys.st.rows[child.parent].conv;
    TidyMint(sys, conv, WakeOutcome(sys.ulid, child, payload, LogOf(sys.st, child.conv)), walked);
  }

  lemma TidyWake(sys: Sys, child: Submission, payload: SettledPayload, walked: set<SubmissionId>)
    requires Tidy(sys, walked) && Listed(sys.st, child) && child.id in walked
    ensures Tidy(WakeParent(sys, child, payload), walked)
  {
    if child.parent in sys.st.rows && !sys.st.rows[child.parent].Terminal() {
      var sys1 := sys.(st := RepairSpawn(sys.st, child));
      TidyRepair(sys, child, walked);
      TidyOutcome(sys1, child, payload, walked);
      TidyApply(AppendOutcome(sys1, child, payload), child.parent, Resume, walked);
    }
  }

  lemma TidyRecordOnce(sys: Sys, sub: Submission, payload: SettledPayload, walked: set<SubmissionId>)
    requires Tidy(sys, walked) && Listed(sys.st, sub) && sub.id in walked
    ensures Tidy(SettledRecordOnce(sys, sub, payload), walked)
  {
    TidyMint(sys, sub.conv, Record(sys.ulid, sub.id, SubmissionSettled(payload)), walked);
    TidyWake(RecordOnly(sys, sub, payload), sub, EffectivePayload(sys.st, sub, payload), walked);
  }

  lemma TidyFinalizeAndWake(sys: Sys, sub: Submission, effective: SettledPayload, walked: set<SubmissionId>)
    requires Tidy(sys, walked) && Listed(sys.st, sub) && sub.id in walked
    ensures Tidy(FinalizeAndWake(sys, sub, effective), walked)
  {
    TidyApply(sys, sub.id, Finalize, walked);
    if Applies(sys.st, sub.id, Finalize) {
      TransitionEvolves(sys.st.rows[sub.id], Finalize);
      TidyWake(sys.(st := Apply(sys.st, sub.id, Finalize)), sub, effective, walked);
    }
  }

  lemma TidyComplete(sys: Sys, sub: Submission, payload: SettledPayload, walked: set<SubmissionId>)
    requires Tidy(sys, walked) && Listed(sys.st, sub) && sub.id in walked
    ensures Tidy(Complete(sys, sub, payload), walked)
  {
    TidyRecordOnce(sys, sub, payload, walked);
    RecordOnceEvolves(sys, sub, payload);
    StillListed(sys.st, SettledRecordOnce(sys, sub, payload).st, sub);
    TidyFinalizeAndWake(SettledRecordOnce(sys, sub, payload), sub, EffectivePayload(sys.st, sub, payload), walked);
  }

  lemma TidyReclaim(sys: Sys, sub: Submission, walked: set<SubmissionId>)
    requires Tidy(sys, walked) && Listed(sys.st, sub) && sub.id in walked
    ensures Tidy(Reclaim(sys, sub), walked)
  {
    var sys1 := sys.(st := Apply(sys.st, sub.id, Release(sub.attemptId, "")));
    var sys2 := sys1.(st := Apply(sys1.st, sub.id, Cancel(CANCELLED.error)));
    TidyApply(sys, sub.id, Release(sub.attemptId, ""), walked);
    TidyApply(sys1, sub.id, Cancel(CANCELLED.error), walked);
    ApplyEvolves(sys.st, sub.id, Release(sub.attemptId, ""));
    ApplyEvolves(sys1.st, sub.id, Cancel(CANCELLED.error));
    StillListed(sys.st, sys1.st, sub);
    StillListed(sys1.st, sys2.st, sub);
    TidyRecordOnce(sys2, sub, CANCELLED, walked);
  }

  // ---- the whole functions evolve the store ----

  lemma ApplyEvolves(st: Store, id: SubmissionId, op: RowOp)
    ensures C.StoreEvolves(st, Apply(st, id, op))
  {
    if Applies(st, id, op) { TransitionEvolves(st.rows[id], op); }
  }

  lemma AppendEvolves(st: Store, conv: ConversationId, recs: Log)
    ensures C.StoreEvolves(st, AppendTo(st, conv, recs))
  {
  }

  lemma WakeEvolves(sys: Sys, child: Submission, payload: SettledPayload)
    ensures C.StoreEvolves(sys.st, WakeParent(sys, child, payload).st)
  {
    if child.parent in sys.st.rows && !sys.st.rows[child.parent].Terminal() {
      var st1 := RepairSpawn(sys.st, child);
      var st2 := AppendOutcome(sys.(st := st1), child, payload).st;
      AppendEvolves(sys.st, sys.st.rows[child.parent].conv, [SpawnOf(ParentRef(LogOf(sys.st, child.conv)), child)]);
      AppendEvolves(st1, sys.st.rows[child.parent].conv,
                    [WakeOutcome(sys.ulid, child, payload, LogOf(st1, child.conv))]);
      assert C.StoreEvolves(sys.st, st1) && C.StoreEvolves(st1, st2);
      C.StoreEvolvesTransitive(sys.st, st1, st2);
      ApplyEvolves(st2, child.parent, Resume);
      C.StoreEvolvesTransitive(sys.st, st2, Apply(st2, child.parent, Resume));
    }
  }

  lemma RecordOnceEvolves(sys: Sys, sub: Submission, payload: SettledPayload)
    ensures C.StoreEvolves(sys.st, SettledRecordOnce(sys, sub, payload).st)
  {
    var sys1 := RecordOnly(sys, sub, payload);
    AppendEvolves(sys.st, sub.conv, [Record(sys.ulid, sub.id, SubmissionSettled(payload))]);
    assert C.StoreEvolves(sys.st, sys1.st);
    WakeEvolves(sys1, sub, EffectivePayload(sys.st, sub, payload));
    C.StoreEvolvesTransitive(sys.st, sys1.st, WakeParent(sys1, sub, EffectivePayload(sys.st, sub, payload)).st);
  }

  lemma FinalizeAndWakeEvolves(sys: Sys, sub: Submission, effective: SettledPayload)
    ensures C.StoreEvolves(sys.st, FinalizeAndWake(sys, sub, effective).st)
  {
    var sys1 := sys.(st := Apply(sys.st, sub.id, Finalize));
    ApplyEvolves(sys.st, sub.id, Finalize);
    WakeEvolves(sys1, sub, effective);
    C.StoreEvolvesTransitive(sys.st, sys1.st, WakeParent(sys1, sub, effective).st);
    C.StoreEvolvesTransitive(sys.st, sys.st, sys1.st);
  }

  lemma CompleteEvolves(sys: Sys, sub: Submission, payload: SettledPayload)
    ensures C.StoreEvolves(sys.st, Complete(sys, sub, payload).st)
  {
    var sys1, effective := SettledRecordOnce(sys, sub, payload), EffectivePayload(sys.st, sub, payload);
    RecordOnceEvolves(sys, sub, payload);
    FinalizeAndWakeEvolves(sys1, sub, effective);
    C.StoreEvolvesTransitive(sys.st, sys1.st, FinalizeAndWake(sys1, sub, effective).st);
  }

  lemma ReclaimEvolves(sys: Sys, sub: Submission)
    ensures C.StoreEvolves(sys.st, Reclaim(sys, sub).st)
  {
    var sys1 := sys.(st := Apply(sys.st, sub.id, Release(sub.attemptId, "")));
    var sys2 := sys1.(st := Apply(sys1.st, sub.id, Cancel(CANCELLED.error)));
    ApplyEvolves(sys.st, sub.id, Release(sub.attemptId, ""));
    ApplyEvolves(sys1.st, sub.id, Cancel(CANCELLED.error));
    RecordOnceEvolves(sys2, sub, CANCELLED);
    C.StoreEvolvesTransitive(sys.st, sys1.st, sys2.st);
    C.StoreEvolvesTransitive(sys.st, sys2.st, SettledRecordOnce(sys2, sub, CANCELLED).st);
  }

  lemma StillListed(st: Store, st': Store, sub: Submission)
    requires C.StoreEvolves(st, st') && Listed(st, sub)
    ensures Listed(st', sub)
  {
    assert Evolves(st.rows[sub.id], st'.rows[sub.id]);
  }

  lemma AllStillListed(st: Store, st': Store, subs: seq<Submission>)
    requires C.StoreEvolves(st, st') && AllListed(st, subs)
    ensures AllListed(st', subs)
  {
    forall i {:trigger subs[i]} | 0 <= i < |subs|
      ensures Listed(st', subs[i])
    {
      StillListed(st, st', subs[i]);
    }
  }

  lemma CompleteKeepsListed(sys: Sys, sub: Submission, payload: SettledPayload, subs: seq<Submission>)
    requires AllListed(sys.st, subs)
    ensures AllListed(Complete(sys, sub, payload).st, subs)
  {
    CompleteEvolves(sys, sub, payload);
    AllStillListed(sys.st, Complete(sys, sub, payload).st, subs);
  }

  lemma ReclaimKeepsListed(sys: Sys, sub: Submission, subs: seq<Submission>)
    requires AllListed(sys.st, subs)
    ensures AllListed(Reclaim(sys, sub).st, subs)
  {
    ReclaimEvolves(sys, sub);
    AllStillListed(sys.st, Reclaim(sys, sub).st, subs);
  }
}
