/** What the protocol guarantees, and where it does not. */
module SettlementTheorems {
  import opened Records
  import opened Submissions
  import opened StoreModel
  import opened Handoff
  import opened Settlement
  import opened SettlementSafety
  import C = Calls

  // ---- settlement exactly once ----

  /** In every run a submission has at most one settled record in all logs
      together, and none while it is open. */
  lemma SettledAtMostOnce(es: seq<Event>, id: SubmissionId, conv: ConversationId)
    requires id in Run(es).w.st.rows
    ensures SettledCount(LogOf(Run(es).w.st, conv), id)
         <= if conv == Run(es).w.st.rows[id].conv && Run(es).w.st.rows[id].Terminal() then 1 else 0
  {
    RunKeepsInv(es);
    var st := Run(es).w.st;
    if conv != st.rows[id].conv {
      var log := LogOf(st, conv);
      forall i | 0 <= i < |log|
        ensures !IsSettledOf(log[i], id)
      {
      }
    }
  }

  lemma StaysTerminalizingOrGoesThrough(s: State, e: Event, id: SubmissionId)
    requires Inv(s) && id in s.w.st.rows
    requires s.w.st.rows[id].status == Terminalizing || id in s.through
    ensures id in Next(s, e).w.st.rows
    ensures Next(s, e).w.st.rows[id].status == Terminalizing || id in Next(s, e).through
  {
    if Enabled(s, e) && id !in s.through {
      if e.Step? && s.acts[e.k].pc.Finalizing? {
        assert ActorOk(s.w.st, s.acts[e.k]);
        FinalizeStore(s, e);
      } else {
        NextStore(s, e);
      }
    } else {
      NextStore(s, e);
    }
  }

  lemma CallKeepsTerminal(w: C.World, call: C.Call)
    ensures C.StoreEvolves(w.st, C.Next(w, call).st)
    ensures !(call.Do? && call.op.Finalize?) ==>
      forall id :: id in w.st.rows && w.st.rows[id].Terminal() ==>
        C.Next(w, call).st.rows[id].status == w.st.rows[id].status
  {
    C.NextEvolves(w, call);
  }

  /** Every event evolves the store; all but a finalization leave terminal rows alone. */
  lemma NextStore(s: State, e: Event)
    ensures C.StoreEvolves(s.w.st, Next(s, e).w.st)
    ensures !(Enabled(s, e) && e.Step? && s.acts[e.k].pc.Finalizing?) ==>
      forall id :: id in s.w.st.rows && s.w.st.rows[id].Terminal() ==>
        Next(s, e).w.st.rows[id].status == s.w.st.rows[id].status
  {
    var calls := CallsOf(s, e);
    if calls == [] {
      NextWorld(s, e);
    } else if |calls| == 1 {
      assert calls == [calls[0]];
      NextWorldOne(s, e, calls[0]);
      CallKeepsTerminal(s.w, calls[0]);
    } else {
      ReclaimStore(s, e);
    }
  }

  lemma RunLast(es: seq<Event>, more: seq<Event>)
    requires more != []
    ensures Run(es + more) == Next(Run(es + more[..|more| - 1]), more[|more| - 1])
  {
    assert (es + more)[..|es + more| - 1] == es + more[..|more| - 1];
  }

  lemma {:induction false} OnceTerminalizing(es: seq<Event>, more: seq<Event>, id: SubmissionId)
    requires id in Run(es).w.st.rows && Run(es).w.st.rows[id].status == Terminalizing
    ensures id in Run(es + more).w.st.rows
    ensures Run(es + more).w.st.rows[id].status == Terminalizing || id in Run(es + more).through
    decreases |more|
  {
    if more == [] {
      assert es + more == es;
    } else {
      var n := |more| - 1;
      var s := Run(es + more[..n]);
      OnceTerminalizing(es, more[..n], id);
      RunKeepsInv(es + more[..n]);
      StaysTerminalizingOrGoesThrough(s, more[n], id);
      RunLast(es, more);
    }
  }

  /** A row that reached settled through terminalizing has exactly one settled
      record, whatever crashes lay between. */
  lemma ThroughSettlementExactlyOnce(es: seq<Event>, more: seq<Event>, id: SubmissionId)
    requires id in Run(es).w.st.rows && Run(es).w.st.rows[id].status == Terminalizing
    requires id in Run(es + more).w.st.rows && Run(es + more).w.st.rows[id].status == Settled
    ensures SettledCount(LogOf(Run(es + more).w.st, Run(es + more).w.st.rows[id].conv), id) == 1
  {
    OnceTerminalizing(es, more, id);
    RunKeepsInv(es + more);
  }

  lemma {:induction false} RunsEvolve(es: seq<Event>, more: seq<Event>)
    ensures C.StoreEvolves(Run(es).w.st, Run(es + more).w.st)
    decreases |more|
  {
    if more == [] {
      assert es + more == es;
    } else {
      var n := |more| - 1;
      RunsEvolve(es, more[..n]);
      NextStore(Run(es + more[..n]), more[n]);
      RunLast(es, more);
      C.StoreEvolvesTransitive(Run(es).w.st, Run(es + more[..n]).w.st, Run(es + more).w.st);
    }
  }

  /** A recorded payload never changes. */
  lemma RecordedPayloadIsFinal(es: seq<Event>, more: seq<Event>, conv: ConversationId, id: SubmissionId)
    requires Recorded(LogOf(Run(es).w.st, conv), id).Some?
    ensures Recorded(LogOf(Run(es + more).w.st, conv), id) == Recorded(LogOf(Run(es).w.st, conv), id)
  {
    RunsEvolve(es, more);
    var log, log' := LogOf(Run(es).w.st, conv), LogOf(Run(es + more).w.st, conv);
    assert log <= log' && log' == log + log'[|log|..];
    RecordedAppend(log, log'[|log|..], id);
  }

  /** What a settling actor hands to the wake is the recorded payload, and the
      outcome it appends to the parent is made from it. */
  lemma WakeCarriesTheRecordedPayload(es: seq<Event>, k: nat)
    requires k in Run(es).acts && Run(es).acts[k].Waking() && !Run(es).acts[k].mode.Backstop?
    ensures Run(es).acts[k].child in Run(es).w.st.rows
    ensures
      var a, st := Run(es).acts[k], Run(es).w.st;
      && Recorded(LogOf(st, st.rows[a.child].conv), a.child) == Some(a.effective)
      && (a.pc.WakeOutcomeAppend? ==>
            Carries(a.effective, LogOf(st, st.rows[a.child].conv), a.pc.isError, a.pc.content))
  {
    RunKeepsInv(es);
    assert ActorOk(Run(es).w.st, Run(es).acts[k]);
  }

  // ---- the sibling wake ----

  predicate Resumes(s: State, k: nat) {
    && k in s.acts && s.acts[k].pc.WakeResume? && s.acts[k].child in s.w.st.rows
    && s.w.st.rows[s.acts[k].child].parent in s.w.st.rows
    && s.w.st.rows[s.w.st.rows[s.acts[k].child].parent].status == Waiting
  }

  /** When a wake's ResumeSubmission succeeds, every child it listed has its
      outcome in the parent's log, except one that a cancel closed under the
      open parent. */
  lemma ResumeFindsTheListedAnswered(es: seq<Event>, k: nat, id: SubmissionId)
    requires Resumes(Run(es), k) && id in Run(es).acts[k].pc.listed && id !in Run(es).voided
    ensures id in Run(es).w.st.rows
    ensures
      var st := Run(es).w.st;
      var parent := st.rows[Run(es).acts[k].child].parent;
      HasOutcome(LogOf(st, st.rows[parent].conv), st.rows[id].parentCallId)
  {
    RunKeepsInv(es);
    assert ActorOk(Run(es).w.st, Run(es).acts[k]);
  }

  /** So has a child that is settled, listed or not. */
  lemma ResumeFindsTheSettledAnswered(es: seq<Event>, k: nat, id: SubmissionId)
    requires Resumes(Run(es), k) && id !in Run(es).voided
    requires
      var st := Run(es).w.st;
      id in Kids(st, st.rows[Run(es).acts[k].child].parent) && st.rows[id].status == Settled
    ensures
      var st := Run(es).w.st;
      var parent := st.rows[Run(es).acts[k].child].parent;
      HasOutcome(LogOf(st, st.rows[parent].conv), st.rows[id].parentCallId)
  {
    RunKeepsInv(es);
    assert ActorOk(Run(es).w.st, Run(es).acts[k]);
    assert Answered(Run(es).w.st, id);
  }

  /** So every child has its outcome when each is settled or was listed, and none
      was cancelled under the open parent. */
  lemma ResumeFindsAllAnswered(es: seq<Event>, k: nat)
    requires Resumes(Run(es), k)
    requires
      var st := Run(es).w.st;
      var kids := Kids(st, st.rows[Run(es).acts[k].child].parent);
      && kids !! Run(es).voided
      && forall id :: id in kids ==> id in Run(es).acts[k].pc.listed || st.rows[id].status == Settled
    ensures AllAnswered(Run(es).w.st, Run(es).w.st.rows[Run(es).acts[k].child].parent)
  {
    var st := Run(es).w.st;
    var parent := st.rows[Run(es).acts[k].child].parent;
    forall id | id in Kids(st, parent)
      ensures HasOutcome(LogOf(st, st.rows[parent].conv), st.rows[id].parentCallId)
    {
      if id in Run(es).acts[k].pc.listed {
        ResumeFindsTheListedAnswered(es, k, id);
      } else {
        ResumeFindsTheSettledAnswered(es, k, id);
      }
    }
  }

  /** The log of the parent answers the call of every child. */
  ghost predicate AllAnswered(st: Store, parent: SubmissionId)
    requires parent in st.rows
  {
    forall id :: id in Kids(st, parent) ==> HasOutcome(LogOf(st, st.rows[parent].conv), st.rows[id].parentCallId)
  }

  // ---- who authors outcomes ----

  /** Some other party (expiry, the dangling-call reconciler, the agent) appended
      an outcome for the call. */
  predicate ForeignOutcome(es: seq<Event>, conv: ConversationId, callId: CallId) {
    exists i :: 0 <= i < |es| && Authors(es[i], conv, callId)
  }

  predicate Authors(e: Event, conv: ConversationId, callId: CallId) {
    e.Other? && e.call.Append? && Allowed(e.call) && e.call.conv == conv && HasOutcome(e.call.recs, callId)
  }

  /** What another party answered is answered. */
  lemma ForeignIsAnswered(es: seq<Event>, conv: ConversationId, callId: CallId)
    requires ForeignOutcome(es, conv, callId)
    ensures HasOutcome(LogOf(Run(es).w.st, conv), callId)
  {
    var i :| 0 <= i < |es| && Authors(es[i], conv, callId);
    AuthorLands(es[..i], es[i], conv, callId);
    assert es[..i] + [es[i]] + es[i + 1..] == es;
    RunsEvolve(es[..i] + [es[i]], es[i + 1..]);
    OutcomeStays(Run(es[..i] + [es[i]]).w.st, Run(es).w.st, conv, callId);
  }

  lemma AuthorLands(es: seq<Event>, e: Event, conv: ConversationId, callId: CallId)
    requires Authors(e, conv, callId)
    ensures HasOutcome(LogOf(Run(es + [e]).w.st, conv), callId)
  {
    RunSnoc(es, e);
    NextWorldOne(Run(es), e, e.call);
    var log: Log, recs: Log := LogOf(Run(es).w.st, conv), e.call.recs;
    var j :| 0 <= j < |recs| && recs[j].body.ToolOutcome? && recs[j].body.callId == callId;
    assert (log + recs)[|log| + j] == recs[j];
  }

  /** Some actor of the child was in flight: its settlement began, or a wake. */
  ghost predicate Begun(es: seq<Event>, id: SubmissionId) {
    exists n, k :: 0 <= n <= |es| && HasActor(Run(es[..n]).acts, k, id)
  }

  predicate HasActor(acts: map<nat, Actor>, k: nat, id: SubmissionId) {
    k in acts && acts[k].child == id
  }

  lemma ActorsHaveBegun(es: seq<Event>, k: nat)
    requires k in Run(es).acts
    ensures Begun(es, Run(es).acts[k].child)
  {
    assert es[..|es|] == es;
    assert HasActor(Run(es[..|es|]).acts, k, Run(es).acts[k].child);
  }

  lemma BegunStays(es: seq<Event>, n: nat, id: SubmissionId)
    requires n <= |es| && Begun(es[..n], id)
    ensures Begun(es, id)
  {
    var m, k :| 0 <= m <= n && HasActor(Run(es[..n][..m]).acts, k, id);
    assert es[..n][..m] == es[..m];
  }

  /** Actors work on rows past their reservation, or closed. */
  lemma ActorsWorkOnTerminal(es: seq<Event>, k: nat)
    requires k in Run(es).acts
    ensures var id := Run(es).acts[k].child; id in Run(es).w.st.rows && Run(es).w.st.rows[id].Terminal()
  {
    RunKeepsInv(es);
    assert ActorOk(Run(es).w.st, Run(es).acts[k]);
  }

  lemma TerminalStays(st: Store, st': Store, id: SubmissionId)
    requires C.StoreEvolves(st, st') && id in st.rows && st.rows[id].Terminal()
    ensures id in st'.rows && st'.rows[id].Terminal()
  {
    assert Evolves(st.rows[id], st'.rows[id]);
  }

  lemma BegunIsTerminal(es: seq<Event>, id: SubmissionId)
    requires Begun(es, id)
    ensures id in Run(es).w.st.rows && Run(es).w.st.rows[id].Terminal()
  {
    var n, k :| 0 <= n <= |es| && HasActor(Run(es[..n]).acts, k, id);
    ActorsWorkOnTerminal(es[..n], k);
    RunsEvolve(es[..n], es[n..]);
    assert es[..n] + es[n..] == es;
    TerminalStays(Run(es[..n]).w.st, Run(es).w.st, id);
  }

  /** A child whose settlement or wake began and whose outcome the call is. */
  ghost predicate ByChild(es: seq<Event>, conv: ConversationId, callId: CallId) {
    exists x :: Begun(es, x) && Answers(Run(es).w.st, x, conv, callId)
  }

  /** The call of child x, made in the conversation. */
  predicate Answers(st: Store, x: SubmissionId, conv: ConversationId, callId: CallId) {
    && x in st.rows && st.rows[x].Terminal() && st.rows[x].parent in st.rows
    && ParentConv(st, st.rows[x]) == conv && st.rows[x].parentCallId == callId
  }

  lemma ByChildStays(es: seq<Event>, n: nat, conv: ConversationId, callId: CallId)
    requires n <= |es| && ByChild(es[..n], conv, callId)
    ensures ByChild(es, conv, callId)
  {
    var x :| Begun(es[..n], x) && Answers(Run(es[..n]).w.st, x, conv, callId);
    BegunStays(es, n, x);
    assert es[..n] + es[n..] == es;
    RunsEvolve(es[..n], es[n..]);
    AnswersStays(Run(es[..n]).w.st, Run(es).w.st, x, conv, callId);
  }

  lemma AnswersStays(st: Store, st': Store, x: SubmissionId, conv: ConversationId, callId: CallId)
    requires C.StoreEvolves(st, st') && Answers(st, x, conv, callId)
    ensures Answers(st', x, conv, callId)
  {
    assert Evolves(st.rows[x], st'.rows[x]);
    assert Evolves(st.rows[st.rows[x].parent], st'.rows[st.rows[x].parent]);
  }

  /** An outcome that is new in a log came with an append of another party, or
      from the wake of a terminal child. */
  lemma NewOutcome(s: State, e: Event, conv: ConversationId, callId: CallId)
    requires ActorsOk(s) && !HasOutcome(LogOf(s.w.st, conv), callId)
    requires HasOutcome(LogOf(Next(s, e).w.st, conv), callId)
    ensures Authors(e, conv, callId)
         || (e.Step? && e.k in s.acts && Answers(s.w.st, s.acts[e.k].child, conv, callId))
  {
    var call := AppendOf(s, e, conv);
    var log: Log, recs: Log := LogOf(s.w.st, conv), call.recs;
    var i :| 0 <= i < |log + recs| && (log + recs)[i].body.ToolOutcome? && (log + recs)[i].body.callId == callId;
    assert i >= |log| && recs[i - |log|] == (log + recs)[i];
    if e.Step? {
      var a := s.acts[e.k];
      assert ActorOk(s.w.st, a);
      assert a.pc.WakeOutcomeAppend? && s.w.st.rows[a.child].parentCallId == callId;
    }
  }

  /** A log changes only by an append to it, the event's one call. */
  lemma AppendOf(s: State, e: Event, conv: ConversationId) returns (call: C.Call)
    requires LogOf(Next(s, e).w.st, conv) != LogOf(s.w.st, conv)
    ensures call.Append? && call.conv == conv && CallsOf(s, e) == [call] && Enabled(s, e)
    ensures LogOf(Next(s, e).w.st, conv) == LogOf(s.w.st, conv) + call.recs
    ensures e.Other? || (e.Step? && Effect(s.w.st, s.acts[e.k], e.newId) == Some(call))
  {
    var calls := CallsOf(s, e);
    NextWorld(s, e);
    if |calls| == 2 {
      ReclaimWorld(s, e);
    }
    call := calls[0];
    assert calls == [call];
    NextWorldOne(s, e, call);
  }

  lemma {:induction false} OutcomesHaveAuthors(es: seq<Event>, conv: ConversationId, callId: CallId)
    requires HasOutcome(LogOf(Run(es).w.st, conv), callId)
    ensures ForeignOutcome(es, conv, callId) || ByChild(es, conv, callId)
  {
    if es != [] {
      var n := |es| - 1;
      var s := Run(es[..n]);
      if HasOutcome(LogOf(s.w.st, conv), callId) {
        OutcomesHaveAuthors(es[..n], conv, callId);
        if ForeignOutcome(es[..n], conv, callId) { ForeignStays(es, n, conv, callId); }
      } else {
        RunKeepsInv(es[..n]);
        NewOutcome(s, es[n], conv, callId);
        if !ForeignOutcome(es, conv, callId) { ActorsHaveBegun(es[..n], es[n].k); }
      }
      if ByChild(es[..n], conv, callId) { ByChildStays(es, n, conv, callId); }
    }
  }

  lemma ForeignStays(es: seq<Event>, n: nat, conv: ConversationId, callId: CallId)
    requires n <= |es| && ForeignOutcome(es[..n], conv, callId)
    ensures ForeignOutcome(es, conv, callId)
  {
    var i :| 0 <= i < n && Authors(es[..n][i], conv, callId);
    assert es[i] == es[..n][i];
  }

  /** No other child of the conversation was spawned under the child's call. */
  ghost predicate SoleCall(st: Store, id: SubmissionId) {
    && id in st.rows && st.rows[id].parent in st.rows
    && forall x | x in st.rows && st.rows[x].parent in st.rows ::
         ParentConv(st, st.rows[x]) == ParentConv(st, st.rows[id])
         && st.rows[x].parentCallId == st.rows[id].parentCallId
         ==> x == id
  }

  /** Another party answered the call of the child. */
  ghost predicate AnsweredByOther(es: seq<Event>, id: SubmissionId) {
    var st := Run(es).w.st;
    id in st.rows && ForeignOutcome(es, ParentConv(st, st.rows[id]), st.rows[id].parentCallId)
  }

  /** The call is the child's own: no other child has it, no other party answered it. */
  ghost predicate OwnCall(es: seq<Event>, id: SubmissionId) {
    SoleCall(Run(es).w.st, id) && !AnsweredByOther(es, id)
  }

  /** In every run, the call of a child is unanswered as long as neither its
      settlement nor a wake of it began, if the call is the child's own. */
  lemma UnansweredUntilBegun(es: seq<Event>, id: SubmissionId)
    requires OwnCall(es, id) && !Begun(es, id)
    ensures var st := Run(es).w.st;
            !HasOutcome(LogOf(st, ParentConv(st, st.rows[id])), st.rows[id].parentCallId)
  {
    var st := Run(es).w.st;
    var conv, c := ParentConv(st, st.rows[id]), st.rows[id].parentCallId;
    if HasOutcome(LogOf(st, conv), c) {
      OutcomesHaveAuthors(es, conv, c);
    }
  }

  /** So it is when the child was neither reserved nor closed. */
  lemma OpenChildIsUnanswered(es: seq<Event>, id: SubmissionId)
    requires OwnCall(es, id) && Run(es).w.st.rows[id].Open()
    ensures var st := Run(es).w.st;
            !HasOutcome(LogOf(st, ParentConv(st, st.rows[id])), st.rows[id].parentCallId)
  {
    if Begun(es, id) { BegunIsTerminal(es, id); }
    UnansweredUntilBegun(es, id);
  }

  /** The children of the resumed parent that its wake never listed. */
  ghost predicate Unlisted(s: State, k: nat, id: SubmissionId)
    requires Resumes(s, k)
  {
    id in Kids(s.w.st, s.w.st.rows[s.acts[k].child].parent) && id !in s.acts[k].pc.listed
  }

  /** A child of the resumed parent that another party's cancel closed while the
      parent was open. */
  ghost predicate Closed(s: State, k: nat, id: SubmissionId)
    requires Resumes(s, k)
  {
    id in Kids(s.w.st, s.w.st.rows[s.acts[k].child].parent) && id in s.voided
  }

  /** A child that no answer reached: it was admitted after the listing and is
      still open, or another party's cancel closed it, and nobody else answered. */
  ghost predicate Escaped(es: seq<Event>, k: nat, id: SubmissionId)
    requires Resumes(Run(es), k)
  {
    && ((Unlisted(Run(es), k, id) && Run(es).w.st.rows[id].Open()) || Closed(Run(es), k, id))
    && !AnsweredByOther(es, id)
  }

  /** An unlisted child amid its own settlement, or a closed one that a settlement
      or wake took up: whether its outcome has landed only the log tells. */
  ghost predicate Undecided(es: seq<Event>, k: nat, id: SubmissionId)
    requires Resumes(Run(es), k)
  {
    || (Unlisted(Run(es), k, id) && Run(es).w.st.rows[id].status == Terminalizing)
    || (Closed(Run(es), k, id) && Begun(es, id))
  }

  /** When does a wake's resume find every child answered? Let no other child have
      the call of an unlisted or closed one. Then an escaped child is unanswered
      unless it is undecided; and when no child is undecided, the resume is
      premature exactly when some child escaped. */
  lemma ResumeFindsAllAnsweredIff(es: seq<Event>, k: nat)
    requires Resumes(Run(es), k)
    requires forall id :: Unlisted(Run(es), k, id) || Closed(Run(es), k, id) ==> SoleCall(Run(es).w.st, id)
    ensures
      var answered := AllAnswered(Run(es).w.st, Run(es).w.st.rows[Run(es).acts[k].child].parent);
      && (answered ==> forall id :: Escaped(es, k, id) ==> Undecided(es, k, id))
      && ((forall id :: !Undecided(es, k, id)) ==> (answered <==> forall id :: !Escaped(es, k, id)))
  {
    var st := Run(es).w.st;
    var parent := st.rows[Run(es).acts[k].child].parent;
    if AllAnswered(st, parent) {
      forall id | Escaped(es, k, id)
        ensures Undecided(es, k, id)
      {
        EscapedIsUnanswered(es, k, id);
      }
    }
    if forall id :: !Undecided(es, k, id) && !Escaped(es, k, id) {
      forall id | id in Kids(st, parent)
        ensures HasOutcome(LogOf(st, st.rows[parent].conv), st.rows[id].parentCallId)
      {
        assert !Undecided(es, k, id) && !Escaped(es, k, id);
        ReachedIsAnswered(es, k, id);
      }
    }
  }

  lemma EscapedIsUnanswered(es: seq<Event>, k: nat, id: SubmissionId)
    requires Resumes(Run(es), k) && Escaped(es, k, id) && SoleCall(Run(es).w.st, id)
    ensures Undecided(es, k, id)
         || !HasOutcome(LogOf(Run(es).w.st, ParentConv(Run(es).w.st, Run(es).w.st.rows[id])),
                        Run(es).w.st.rows[id].parentCallId)
  {
    if Run(es).w.st.rows[id].Open() {
      OpenChildIsUnanswered(es, id);
    } else if !Begun(es, id) {
      UnansweredUntilBegun(es, id);
    }
  }

  lemma ReachedIsAnswered(es: seq<Event>, k: nat, id: SubmissionId)
    requires Resumes(Run(es), k) && !Escaped(es, k, id) && !Undecided(es, k, id)
    requires id in Kids(Run(es).w.st, Run(es).w.st.rows[Run(es).acts[k].child].parent)
    ensures
      var st := Run(es).w.st;
      var parent := st.rows[Run(es).acts[k].child].parent;
      HasOutcome(LogOf(st, st.rows[parent].conv), st.rows[id].parentCallId)
  {
    if AnsweredByOther(es, id) {
      ForeignIsAnswered(es, ParentConv(Run(es).w.st, Run(es).w.st.rows[id]), Run(es).w.st.rows[id].parentCallId);
    } else if id in Run(es).acts[k].pc.listed {
      ResumeFindsTheListedAnswered(es, k, id);
    } else {
      assert Unlisted(Run(es), k, id);
      ResumeFindsTheSettledAnswered(es, k, id);
    }
  }

  // ---- no wake is lost ----

  /** The parent waits although every child is settled, and neither did it park
      after the last wake nor was that wake lost. */
  ghost predicate WakeDue(s: State, p: SubmissionId) {
    && p in s.w.st.rows && s.w.st.rows[p].status == Waiting && p != NONE
    && Kids(s.w.st, p) != {} && AllSettled(s.w.st, Kids(s.w.st, p))
    && p !in s.late && p !in s.lost
  }

  ghost predicate NoWakeLost(s: State) {
    forall p :: WakeDue(s, p) ==> InFlight(s.acts, s.w.st, p)
  }

  /** The children of p did not settle just now, and p waited before. */
  ghost predicate OnlyOld(s: State, s': State, p: SubmissionId) {
    && C.StoreEvolves(s.w.st, s'.w.st)
    && p in s.w.st.rows && s.w.st.rows[p].status == Waiting && p !in s.late && p !in s.lost
    && forall id :: id in s'.w.st.rows && s'.w.st.rows[id].parent == p && s'.w.st.rows[id].status == Settled ==>
         id in s.w.st.rows && s.w.st.rows[id].status == Settled
  }

  /** A wake that is due after such a change was due before it. */
  lemma DueBefore(s: State, s': State, p: SubmissionId)
    requires OnlyOld(s, s', p) && WakeDue(s', p)
    ensures WakeDue(s, p)
  {
    SameKids(s.w.st, s'.w.st, p);
    forall id | id in Kids(s.w.st, p)
      ensures s.w.st.rows[id].status == Settled
    {
      assert id in Kids(s'.w.st, p);
    }
  }

  /** Under settled children no child is new. */
  lemma SameKids(st: Store, st': Store, p: SubmissionId)
    requires C.StoreEvolves(st, st')
    requires forall id :: id in Kids(st', p) ==> id in st.rows
    ensures Kids(st, p) == Kids(st', p)
  {
    forall id | id in Kids(st', p)
      ensures id in Kids(st, p)
    {
      assert Evolves(st.rows[id], st'.rows[id]);
    }
    forall id | id in Kids(st, p)
      ensures id in Kids(st', p)
    {
      assert Evolves(st.rows[id], st'.rows[id]);
    }
  }

  lemma FlightContinues(s: State, s': State, p: SubmissionId)
    requires InFlight(s.acts, s.w.st, p) && p != NONE && C.StoreEvolves(s.w.st, s'.w.st)
    requires forall k :: k in s.acts && s.acts[k].Deciding() && ParentOf(s.w.st, s.acts[k].child) == p ==>
               k in s'.acts && s'.acts[k].Deciding() && s'.acts[k].child == s.acts[k].child
    ensures InFlight(s'.acts, s'.w.st, p)
  {
    var k :| k in s.acts && s.acts[k].Deciding() && ParentOf(s.w.st, s.acts[k].child) == p;
    assert Evolves(s.w.st.rows[s.acts[k].child], s'.w.st.rows[s.acts[k].child]);
  }

  // ---- each event keeps the wakes ----

  /** A call by another party: it parks p, closes its last child, or leaves a
      wake that was due. */
  lemma OtherKeepsWake(s: State, call: C.Call, p: SubmissionId)
    requires Allowed(call) && WakeDue(Next(s, Other(call)), p) && NoWakeLost(s)
    ensures InFlight(Next(s, Other(call)).acts, Next(s, Other(call)).w.st, p)
  {
    var s' := Next(s, Other(call));
    NextWorldOne(s, Other(call), call);
    C.NextEvolves(s.w, call);
    if Parks(s.w, call) && call.id == p {
      ParkKeepsSettled(s, call, p);
    } else if Closes(s.w, call) && ParentOf(s.w.st, call.id) == p {
    } else {
      OtherIsOld(s, call, p);
      DueBefore(s, s', p);
    }
    FlightContinues(s, s', p);
  }

  lemma ParkKeepsSettled(s: State, call: C.Call, p: SubmissionId)
    requires Parks(s.w, call) && call.id == p && AllSettled(C.Next(s.w, call).st, Kids(C.Next(s.w, call).st, p))
    ensures AllSettled(s.w.st, Kids(s.w.st, p))
  {
    var st' := C.Next(s.w, call).st;
    assert st'.rows == s.w.st.rows[p := Transition(s.w.st.rows[p], call.op).value];
    forall id | id in Kids(s.w.st, p)
      ensures s.w.st.rows[id].status == Settled
    {
      assert id in Kids(st', p);
    }
  }

  /** A call by another party settles a row only by closing it, and only parking
      makes a row wait. */
  lemma OtherMoves(w: C.World, call: C.Call, id: SubmissionId)
    requires Allowed(call) && id in C.Next(w, call).st.rows
    ensures C.Next(w, call).st.rows[id].status == Settled ==>
              id in w.st.rows && (w.st.rows[id].status == Settled || (Closes(w, call) && call.id == id))
    ensures C.Next(w, call).st.rows[id].status == Waiting ==>
              id in w.st.rows && (w.st.rows[id].status == Waiting || (Parks(w, call) && call.id == id))
  {
  }

  lemma OtherIsOld(s: State, call: C.Call, p: SubmissionId)
    requires Allowed(call) && WakeDue(Next(s, Other(call)), p)
    requires !(Parks(s.w, call) && call.id == p) && !(Closes(s.w, call) && ParentOf(s.w.st, call.id) == p)
    ensures OnlyOld(s, Next(s, Other(call)), p)
  {
    var st' := C.Next(s.w, call).st;
    NextWorldOne(s, Other(call), call);
    C.NextEvolves(s.w, call);
    OtherMoves(s.w, call, p);
    forall id | id in st'.rows && st'.rows[id].parent == p && st'.rows[id].status == Settled
      ensures id in s.w.st.rows && s.w.st.rows[id].status == Settled
    {
      OtherMoves(s.w, call, id);
      assert id in s.w.st.rows ==> Evolves(s.w.st.rows[id], st'.rows[id]);
    }
    assert p !in s.late && p !in s.lost;
  }

  lemma ReserveKeepsWake(s: State, e: Event, p: SubmissionId)
    requires e.Reserve? && Enabled(s, e) && WakeDue(Next(s, e), p) && NoWakeLost(s)
    ensures InFlight(Next(s, e).acts, Next(s, e).w.st, p)
  {
    var call := C.Do(e.id, RowOp.Reserve(e.attempt));
    NextWorldOne(s, e, call);
    C.NextEvolves(s.w, call);
    DueBefore(s, Next(s, e), p);
    FlightContinues(s, Next(s, e), p);
  }

  lemma CascadeCancelKeepsWake(s: State, e: Event, p: SubmissionId)
    requires e.CascadeCancel? && Enabled(s, e) && WakeDue(Next(s, e), p) && NoWakeLost(s)
    ensures InFlight(Next(s, e).acts, Next(s, e).w.st, p)
  {
    var call := C.Do(e.id, Cancel(e.reason));
    NextWorldOne(s, e, call);
    C.NextEvolves(s.w, call);
    var r, r' := s.w.st.rows[e.id], Transition(s.w.st.rows[e.id], Cancel(e.reason)).value;
    assert Evolves(r, r') && Next(s, e).w.st.rows == s.w.st.rows[e.id := r'];
    assert p != e.id && p != r.parent;
    DueBefore(s, Next(s, e), p);
    FlightContinues(s, Next(s, e), p);
  }

  /** A reclaim that closes a child begins a deciding wake. */
  lemma ReclaimKeepsWake(s: State, e: Event, p: SubmissionId)
    requires e.ReclaimFlagged? && Enabled(s, e) && WakeDue(Next(s, e), p) && NoWakeLost(s)
    ensures InFlight(Next(s, e).acts, Next(s, e).w.st, p)
  {
    ReclaimStore(s, e);
    if s.w.st.rows[e.id].parent == p {
      assert Next(s, e).acts[e.k].Deciding();
      assert ParentOf(Next(s, e).w.st, e.id) == p;
    } else {
      ReclaimIsOld(s, e, p);
      DueBefore(s, Next(s, e), p);
      FlightContinues(s, Next(s, e), p);
    }
  }

  lemma ReclaimIsOld(s: State, e: Event, p: SubmissionId)
    requires e.ReclaimFlagged? && Enabled(s, e) && WakeDue(Next(s, e), p) && s.w.st.rows[e.id].parent != p
    ensures OnlyOld(s, Next(s, e), p)
  {
    ReclaimWorld(s, e);
    ReclaimStore(s, e);
    var r := s.w.st.rows[e.id];
    var r' := Transition(Transition(r, Release(e.attempt, "")).value, Cancel("cancelled: parent settled")).value;
    assert Next(s, e).w.st == s.w.st.(rows := s.w.st.rows[e.id := r']) && r'.status == Settled;
    assert p != e.id;
  }

  /** A step that does not finalize settles no row and parks none. */
  lemma StepStore(s: State, e: Event)
    requires e.Step? && Enabled(s, e) && !s.acts[e.k].pc.Finalizing?
    ensures Next(s, e).w.st.rows.Keys == s.w.st.rows.Keys
    ensures forall id :: id in s.w.st.rows ==>
      Next(s, e).w.st.rows[id] == s.w.st.rows[id]
      || (s.w.st.rows[id].status == Waiting && Next(s, e).w.st.rows[id].status == Queued)
  {
    match Effect(s.w.st, s.acts[e.k], e.newId) {
      case Some(call) => NextWorldOne(s, e, call);
      case None => NextWorld(s, e);
    }
  }

  /** A deciding actor of a waiting parent whose children are settled goes on to
      its resume. */
  lemma DecidesOn(st: Store, a: Actor, p: SubmissionId)
    requires a.child in st.rows && ActorOk(st, a) && a.Deciding() && st.rows[a.child].parent == p
    requires p in st.rows && st.rows[p].status == Waiting && p != NONE && AllSettled(st, Kids(st, p))
    ensures !a.pc.Finalizing?
    ensures a.pc.WakeResume? || (Advance(st, a).Some? && Advance(st, a).value.Deciding()
                                 && Advance(st, a).value.child == a.child)
  {
    if a.pc.WakeList? {
      assert AllSettled(st, Kids(st, p) - {a.child});
    }
  }

  lemma DecidingStep(s: State, e: Event, p: SubmissionId)
    requires e.Step? && Enabled(s, e) && ActorOk(s.w.st, s.acts[e.k]) && WakeDue(s, p) && WakeDue(Next(s, e), p)
    requires s.acts[e.k].Deciding() && ParentOf(s.w.st, s.acts[e.k].child) == p
    ensures e.k in Next(s, e).acts && Next(s, e).acts[e.k].Deciding()
    ensures Next(s, e).acts[e.k].child == s.acts[e.k].child
  {
    var a := s.acts[e.k];
    DecidesOn(s.w.st, a, p);
    if a.pc.WakeResume? {
      NextWorldOne(s, e, C.Do(p, Resume));
    }
  }

  lemma FinalizeBrings(s: State, e: Event, p: SubmissionId)
    requires e.Step? && Enabled(s, e) && s.acts[e.k].pc.Finalizing? && ActorOk(s.w.st, s.acts[e.k])
    requires ParentOf(s.w.st, s.acts[e.k].child) == p && p != NONE
    ensures InFlight(Next(s, e).acts, Next(s, e).w.st, p)
  {
    FinalizeStore(s, e);
    assert Next(s, e).acts[e.k].Deciding();
  }

  lemma StepIsOld(s: State, e: Event, p: SubmissionId)
    requires e.Step? && Enabled(s, e) && WakeDue(Next(s, e), p) && ActorOk(s.w.st, s.acts[e.k])
    requires !(s.acts[e.k].pc.Finalizing? && ParentOf(s.w.st, s.acts[e.k].child) == p)
    ensures OnlyOld(s, Next(s, e), p)
  {
    NextStore(s, e);
    if s.acts[e.k].pc.Finalizing? { FinalizeStore(s, e); } else { StepStore(s, e); }
  }

  lemma StepKeepsWake(s: State, e: Event, p: SubmissionId)
    requires e.Step? && Enabled(s, e) && WakeDue(Next(s, e), p) && NoWakeLost(s) && ActorOk(s.w.st, s.acts[e.k])
    ensures InFlight(Next(s, e).acts, Next(s, e).w.st, p)
  {
    if s.acts[e.k].pc.Finalizing? && ParentOf(s.w.st, s.acts[e.k].child) == p {
      FinalizeBrings(s, e, p);
    } else {
      StepIsOld(s, e, p);
      DueBefore(s, Next(s, e), p);
      if s.acts[e.k].Deciding() && ParentOf(s.w.st, s.acts[e.k].child) == p { DecidingStep(s, e, p); }
      NextStore(s, e);
      FlightContinues(s, Next(s, e), p);
    }
  }

  /** The actors that begin, stop or vanish without a store call. */
  lemma RestKeepsWake(s: State, e: Event, p: SubmissionId)
    requires e.BeginFinalize? || e.BeginBackstop? || e.Abort? || e.Crash?
    requires Enabled(s, e) && WakeDue(Next(s, e), p) && NoWakeLost(s)
    ensures InFlight(Next(s, e).acts, Next(s, e).w.st, p)
  {
    var s' := Next(s, e);
    assert s'.w == s.w;
    if e.BeginBackstop? && ParentOf(s.w.st, e.id) == p {
      assert s'.acts[e.k].Deciding();
    } else {
      assert WakeDue(s, p);
      var k :| k in s.acts && s.acts[k].Deciding() && ParentOf(s.w.st, s.acts[k].child) == p;
      if !(e.Abort? && e.k == k) { assert !e.Crash? ==> k in s'.acts && s'.acts[k] == s.acts[k]; }
    }
  }

  lemma NextKeepsWakes(s: State, e: Event)
    requires ActorsOk(s) && NoWakeLost(s)
    ensures NoWakeLost(Next(s, e))
  {
    if Enabled(s, e) {
      forall p | WakeDue(Next(s, e), p)
        ensures InFlight(Next(s, e).acts, Next(s, e).w.st, p)
      {
        match e {
          case Other(call) => OtherKeepsWake(s, call, p);
          case Reserve(_, _, _, _) => ReserveKeepsWake(s, e, p);
          case CascadeCancel(_, _, _) => CascadeCancelKeepsWake(s, e, p);
          case ReclaimFlagged(_, _, _) => ReclaimKeepsWake(s, e, p);
          case Step(_, _) => StepKeepsWake(s, e, p);
          case _ => RestKeepsWake(s, e, p);
        }
      }
    }
  }

  lemma {:induction false} RunKeepsWakes(es: seq<Event>)
    ensures NoWakeLost(Run(es))
  {
    if es != [] {
      RunKeepsInv(es[..|es| - 1]);
      RunKeepsWakes(es[..|es| - 1]);
      NextKeepsWakes(Run(es[..|es| - 1]), es[|es| - 1]);
    }
  }

  /** Once every child is settled and no wake of a settled child is in flight, the
      parent no longer waits, unless it parked after the last of those wakes, or
      the last of them died, or a cancel closed the last child. */
  lemma LastFinalizerWakesTheParent(es: seq<Event>, p: SubmissionId)
    requires p in Run(es).w.st.rows && p != NONE && Kids(Run(es).w.st, p) != {}
    requires Unattended(Run(es).acts, Run(es).w.st, p)
    ensures Run(es).w.st.rows[p].status == Waiting ==> p in Run(es).late || p in Run(es).lost
  {
    RunKeepsWakes(es);
  }
}
