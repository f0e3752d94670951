/** Whose payload a settled record carries, over every run of the protocol. */
module Authorship {
  import opened Records
  import opened Submissions
  import opened StoreModel
  import opened Handoff
  import opened Settlement
  import opened SettlementSafety
  import opened SettlementTheorems
  import C = Calls

  // ---- where a settlement begins ----

  /** Event n reserves the row with the payload. */
  predicate Reserves(es: seq<Event>, n: nat, id: SubmissionId, payload: SettledPayload) {
    n < |es| && es[n].Reserve? && es[n].id == id && es[n].payload == payload && Enabled(Run(es[..n]), es[n])
  }

  /** Event n takes up a settlement that a crash interrupted. */
  predicate Recovers(es: seq<Event>, n: nat, id: SubmissionId) {
    n < |es| && es[n].BeginFinalize? && es[n].id == id && Enabled(Run(es[..n]), es[n])
  }

  /** Event n settles the row as cancelled: by the cascade, or by a reclaim of a flagged row. */
  predicate Cancels(es: seq<Event>, n: nat, id: SubmissionId) {
    n < |es| && Enabled(Run(es[..n]), es[n])
    && ((es[n].CascadeCancel? && es[n].id == id && Run(es[..n]).w.st.rows[id].status != Running)
        || (es[n].ReclaimFlagged? && es[n].id == id))
  }

  ghost predicate Reserved(es: seq<Event>, id: SubmissionId, payload: SettledPayload) {
    exists n: nat :: Reserves(es, n, id, payload)
  }

  ghost predicate Recovered(es: seq<Event>, id: SubmissionId) {
    exists n: nat :: Recovers(es, n, id)
  }

  ghost predicate Cancelled(es: seq<Event>, id: SubmissionId) {
    exists n: nat :: Cancels(es, n, id)
  }

  /** The payload is the one a reservation of the row brought, or the indeterminate
      one of a recovery, or that of a cancel. */
  ghost predicate Sourced(es: seq<Event>, id: SubmissionId, payload: SettledPayload) {
    || Reserved(es, id, payload)
    || (Recovered(es, id)
        && payload
           == SettledPayload(Failed, "process crashed during settlement; run outcome unknown", Indeterminate, ""))
    || (Cancelled(es, id)
        && payload == SettledPayload(Failed, "cancelled: parent settled", CancelledByParent, ""))
  }

  lemma SourcedStays(es: seq<Event>, e: Event, id: SubmissionId, payload: SettledPayload)
    requires Sourced(es, id, payload)
    ensures Sourced(es + [e], id, payload)
  {
    var es' := es + [e];
    assert forall n :: 0 <= n < |es| ==> es'[n] == es[n] && es'[..n] == es[..n];
    if Reserved(es, id, payload) {
      var n: nat :| Reserves(es, n, id, payload);
      assert Reserves(es', n, id, payload);
    } else if Recovered(es, id) && payload == INDETERMINATE {
      var n: nat :| Recovers(es, n, id);
      assert Recovers(es', n, id);
    } else {
      var n: nat :| Cancels(es, n, id);
      assert Cancels(es', n, id);
    }
  }

  // ---- every payload has its source ----

  /** What an actor may still record has its source. */
  ghost predicate ActorsSourced(es: seq<Event>, acts: map<nat, Actor>) {
    forall k :: k in acts && acts[k].Authoring() ==> Sourced(es, acts[k].child, acts[k].effective)
  }

  /** An actor that is new, or authors, after the event authored before it, or began
      with a payload that the event brings. */
  lemma NewAuthor(es: seq<Event>, e: Event, k: nat)
    requires k in Run(es + [e]).acts && Run(es + [e]).acts[k].Authoring()
    ensures var a := Run(es + [e]).acts[k];
            (k in Run(es).acts && Run(es).acts[k].Authoring()
             && Run(es).acts[k].child == a.child && Run(es).acts[k].effective == a.effective)
            || Sourced(es + [e], a.child, a.effective)
  {
    var s, es' := Run(es), es + [e];
    RunSnoc(es, e);
    assert es'[..|es|] == es && es'[|es|] == e;
    if Enabled(s, e) {
      match e {
        case Reserve(id, _, payload, j) => if k == j { assert Reserves(es', |es|, id, payload); }
        case BeginFinalize(id, j) => if k == j { assert Recovers(es', |es|, id); }
        case CascadeCancel(id, _, j) => if k == j { assert k !in s.acts; assert Cancels(es', |es|, id); }
        case ReclaimFlagged(id, _, j) => if k == j { assert Cancels(es', |es|, id); }
        case Step(j, _) => if k == j { AuthorAdvances(s.w.st, s.acts[j]); }
        case _ =>
      }
    }
  }

  lemma AuthorAdvances(st: Store, a: Actor)
    requires a.child in st.rows && Advance(st, a).Some? && Advance(st, a).value.Authoring()
    ensures a.Authoring() && Advance(st, a).value.child == a.child && Advance(st, a).value.effective == a.effective
  {
  }

  lemma {:induction false} AuthorsAreSourced(es: seq<Event>)
    ensures ActorsSourced(es, Run(es).acts)
  {
    if es != [] {
      var before, e := es[..|es| - 1], es[|es| - 1];
      assert before + [e] == es;
      AuthorsAreSourced(before);
      forall k | k in Run(es).acts && Run(es).acts[k].Authoring()
        ensures Sourced(es, Run(es).acts[k].child, Run(es).acts[k].effective)
      {
        NewAuthor(before, e, k);
        if k in Run(before).acts && Run(before).acts[k].Authoring()
           && Run(before).acts[k].child == Run(es).acts[k].child
           && Run(before).acts[k].effective == Run(es).acts[k].effective {
          SourcedStays(before, e, Run(es).acts[k].child, Run(es).acts[k].effective);
        }
      }
    }
  }

  /** A settled record that is new in a log was appended by an authoring actor. */
  lemma NewRecord(s: State, e: Event, conv: ConversationId, id: SubmissionId) returns (k: nat)
    requires Recorded(LogOf(s.w.st, conv), id).None? && Recorded(LogOf(Next(s, e).w.st, conv), id).Some?
    ensures k in s.acts && s.acts[k].Authoring() && s.acts[k].child == id
    ensures Recorded(LogOf(Next(s, e).w.st, conv), id) == Some(s.acts[k].effective)
  {
    var call := AppendOf(s, e, conv);
    var recs: Log := call.recs;
    RecordedAppend(LogOf(s.w.st, conv), recs, id);
    if e.Other? {
      NothingSettledIn(recs, id);
    } else {
      k := e.k;
      EffectRecords(s.w.st, s.acts[k], e.newId, recs, id);
    }
  }

  lemma EffectRecords(st: Store, a: Actor, newId: RecordId, recs: Log, id: SubmissionId)
    requires a.child in st.rows && Recorded(recs, id).Some?
    requires Effect(st, a, newId).Some? && Effect(st, a, newId).value.Append? && Effect(st, a, newId).value.recs == recs
    ensures a.Authoring() && a.child == id && Recorded(recs, id) == Some(a.effective)
  {
    assert |recs| == 1 && recs[1..] == [];
  }

  /** In every run each recorded payload is the one a reservation of its row brought,
      or the indeterminate failure of a recovery, or the failure of a cancel. */
  lemma {:induction false} PayloadHasItsSource(es: seq<Event>, conv: ConversationId, id: SubmissionId)
    requires Recorded(LogOf(Run(es).w.st, conv), id).Some?
    ensures Sourced(es, id, Recorded(LogOf(Run(es).w.st, conv), id).value)
  {
    var before, e := es[..|es| - 1], es[|es| - 1];
    assert before + [e] == es;
    if Recorded(LogOf(Run(before).w.st, conv), id).Some? {
      PayloadHasItsSource(before, conv, id);
      RecordedPayloadIsFinal(before, [e], conv, id);
      SourcedStays(before, e, id, Recorded(LogOf(Run(es).w.st, conv), id).value);
    } else {
      var k := NewRecord(Run(before), e, conv, id);
      AuthorsAreSourced(before);
      SourcedStays(before, e, id, Run(before).acts[k].effective);
    }
  }

  // ---- the payload of a reserved row ----

  /** Once terminal, always terminal. */
  lemma TerminalFrom(es: seq<Event>, m: nat, n: nat, id: SubmissionId)
    requires m <= n <= |es| && id in Run(es[..m]).w.st.rows && Run(es[..m]).w.st.rows[id].Terminal()
    ensures id in Run(es[..n]).w.st.rows && Run(es[..n]).w.st.rows[id].Terminal()
  {
    assert es[..m] + es[m..n] == es[..n];
    RunsEvolve(es[..m], es[m..n]);
    TerminalStays(Run(es[..m]).w.st, Run(es[..n]).w.st, id);
  }

  /** A reservation, and a cancel that settles, leave the row terminal. */
  lemma TerminalAfter(es: seq<Event>, n: nat, id: SubmissionId)
    requires (exists p :: Reserves(es, n, id, p)) || Cancels(es, n, id)
    ensures n < |es| && id in Run(es[..n]).w.st.rows && Run(es[..n]).w.st.rows[id].Open()
    ensures id in Run(es[..n + 1]).w.st.rows && Run(es[..n + 1]).w.st.rows[id].Terminal()
  {
    var s, e := Run(es[..n]), es[n];
    assert es[..n + 1][..n] == es[..n];
    assert Run(es[..n + 1]) == Next(s, e);
    if e.Reserve? {
      NextWorldOne(s, e, C.Do(id, RowOp.Reserve(e.attempt)));
    } else if e.CascadeCancel? {
      NextWorldOne(s, e, C.Do(id, Cancel(e.reason)));
    } else {
      ReclaimStore(s, e);
    }
  }

  /** So at most one of them ever hits a row. */
  lemma BeginsOnce(es: seq<Event>, m: nat, n: nat, id: SubmissionId)
    requires (exists p :: Reserves(es, m, id, p)) || Cancels(es, m, id)
    requires (exists p :: Reserves(es, n, id, p)) || Cancels(es, n, id)
    ensures m == n
  {
    TerminalAfter(es, m, id);
    TerminalAfter(es, n, id);
    if m < n {
      TerminalFrom(es, m + 1, n, id);
    } else if n < m {
      TerminalFrom(es, n + 1, m, id);
    }
  }

  /** What startup finds stuck, a crash left reserved. */
  lemma {:induction false} StuckAfterCrash(es: seq<Event>, id: SubmissionId) returns (c: nat)
    requires id in Run(es).stuck
    ensures c < |es| && es[c].Crash? && id in Run(es[..c]).w.st.rows && Run(es[..c]).w.st.rows[id].Terminal()
  {
    var n := |es| - 1;
    if es[n].Crash? {
      c := n;
    } else {
      StuckWasStuck(Run(es[..n]), es[n], id);
      c := StuckAfterCrash(es[..n], id);
      assert es[..n][..c] == es[..c];
    }
  }

  lemma StuckWasStuck(s: State, e: Event, id: SubmissionId)
    requires id in Next(s, e).stuck && !e.Crash?
    ensures id in s.stuck
  {
  }

  /** The record of a row that a run reserved carries the payload of that
      reservation, unless the process crashed after it: then it may carry the
      indeterminate failure. It never carries anything else. */
  lemma SettledAsReserved(es: seq<Event>, n: nat, id: SubmissionId, payload: SettledPayload, conv: ConversationId)
    requires Reserves(es, n, id, payload) && Recorded(LogOf(Run(es).w.st, conv), id).Some?
    ensures
      var recorded := Recorded(LogOf(Run(es).w.st, conv), id).value;
      || recorded == payload
      || (recorded
            == SettledPayload(Failed, "process crashed during settlement; run outcome unknown", Indeterminate, "")
          && exists c :: n < c < |es| && es[c].Crash?)
  {
    var recorded := Recorded(LogOf(Run(es).w.st, conv), id).value;
    PayloadHasItsSource(es, conv, id);
    if Reserved(es, id, recorded) {
      var m: nat :| Reserves(es, m, id, recorded);
      BeginsOnce(es, m, n, id);
    } else if Recovered(es, id) && recorded == INDETERMINATE {
      CrashFollows(es, n, id, payload);
    } else {
      var m: nat :| Cancels(es, m, id);
      BeginsOnce(es, m, n, id);
    }
  }

  lemma CrashFollows(es: seq<Event>, n: nat, id: SubmissionId, payload: SettledPayload)
    requires Reserves(es, n, id, payload) && Recovered(es, id)
    ensures exists c :: n < c < |es| && es[c].Crash?
  {
    var m: nat :| Recovers(es, m, id);
    var c := StuckAfterCrash(es[..m], id);
    assert es[..m][..c] == es[..c] && es[..m][c] == es[c];
    TerminalAfter(es, n, id);
    if c <= n { TerminalFrom(es, c, n, id); }
    assert n < c < |es| && es[c].Crash?;
  }
}
