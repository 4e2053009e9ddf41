/**
 Whose answer a thread takes on the shared-memory channels, after any number of
 timeouts: exactly when it is sure to be the thread's own.
 */
module MdIpcAnswers {
  import opened MdIpc
  import opened MdIpcTimeouts
  import opened Runs

  // ---------------------------------------------------------------- tickets in circulation

  /** From the call up to the writing of the request. */
  predicate Unposted(at: Label) {
    TAKE_T <= at <= PUT_REQUEST
  }

  /** The ticket of a call that has been made, and is not that of a request still to be written. */
  ghost predicate Spent(s: State, k: nat) {
    k < s.nextTicket && forall t :: t in s.threads && Unposted(s.threads[t].at) ==> s.threads[t].ticket != k
  }

  /** The peer may pick the channel's request up, now or when the thread at HAND_OFF goes on. */
  ghost predicate HandedOver(s: State, c: nat) {
    && Shape(s) && c < NUM_CHANNELS
    && (s.chans[c].own == OWN_NDK || (s.holder[c] in s.threads && s.threads[s.holder[c] as Tid].at == HAND_OFF))
  }

  /** Whatever the peer serves, or may come to serve, on a channel that can be used is a request already written. */
  ghost predicate DebtsOk(s: State, c: nat) {
    || Stranded(s, c)
    || (&& Shape(s) && c < NUM_CHANNELS
        && (!s.jobs[c].NoJob? ==> Spent(s, s.jobs[c].ticket))
        && (HandedOver(s, c) ==> Spent(s, TicketOf(s.chans[c].body))))
  }

  /** Calls under way have tickets of their own. */
  ghost predicate OwnTickets(s: State) {
    && (forall t :: t in s.threads && s.threads[t].at != IDLE ==> s.threads[t].ticket < s.nextTicket)
    && (forall t, u :: t in s.threads && u in s.threads && t != u && s.threads[t].at != IDLE && s.threads[u].at != IDLE ==>
          s.threads[t].ticket != s.threads[u].ticket)
  }

  ghost predicate TicketInv(s: State) {
    ReplyInv(s) && OwnTickets(s) && forall c {:trigger DebtsOk(s, c)} :: 0 <= c < NUM_CHANNELS ==> DebtsOk(s, c)
  }

  lemma ClaimGoesOn(t: Tid, v: View)
    requires InObtain(v.th.at)
    ensures var w := ObtainStep(t, v); w.th.ticket == v.th.ticket
  {
  }

  lemma LaterGoesOn(t: Tid, v: View)
    requires GET_MSG_ID <= v.th.at
    ensures var w := StepOf(t, v); w.th.ticket == v.th.ticket && (Unposted(w.th.at) ==> v.th.at < PUT_REQUEST)
  {
  }

  /** A thread's own step keeps its call, and does not take it back before its request. */
  lemma CallGoesOn(t: Tid, v: View)
    requires CanGo(v)
    ensures var w := StepOf(t, v); w.th.ticket == v.th.ticket && (Unposted(w.th.at) ==> Unposted(v.th.at) && v.th.at != PUT_REQUEST)
  {
    if InObtain(v.th.at) { ClaimGoesOn(t, v); } else { LaterGoesOn(t, v); }
  }

  lemma StepKeepsTickets(s: State, step: Step)
    requires Inv(s) && Enabled(s, step) && OwnTickets(s)
    ensures OwnTickets(Do(s, step))
  {
    if step.Go? { CallGoesOn(step.t, Look(s, step.t)); }
  }

  lemma SpentStays(s: State, step: Step, k: nat)
    requires Inv(s) && Enabled(s, step) && Spent(s, k)
    ensures Spent(Do(s, step), k)
  {
    if step.Go? { CallGoesOn(step.t, Look(s, step.t)); }
  }

  /** The writing of a request spends its ticket. */
  lemma PostingSpends(s: State, t: Tid)
    requires Inv(s) && OwnTickets(s) && Enabled(s, Go(t)) && s.threads[t].at == PUT_REQUEST
    ensures Spent(Do(s, Go(t)), s.threads[t].ticket)
  {
    CallGoesOn(t, Look(s, t));
  }

  /** Nothing but the writing of a request puts new words where the peer will look. */
  lemma PutsNewWords(t: Tid, v: View)
    requires CanGo(v) && v.holder == t && Claims(v.th.at)
    ensures var w := StepOf(t, v);
      && (w.chan.body == v.chan.body || (v.th.at == PUT_REQUEST && w.chan.body == Request(v.th.ticket)))
      && (w.chan.own == OWN_NDK ==> v.chan.own == OWN_NDK || v.th.at == HAND_OFF)
      && (w.th.at == HAND_OFF ==> v.th.at == PUT_REQUEST && w.chan.body == Request(v.th.ticket))
  {
  }

  lemma HandedOverBefore(s: State, t: Tid, c: nat, s': State)
    requires Inv(s) && Enabled(s, Go(t)) && s' == Do(s, Go(t)) && HandedOver(s', c)
    ensures s'.jobs == s.jobs
    ensures (s.threads[t].at == PUT_REQUEST && s'.chans[c].body == Request(s.threads[t].ticket))
            || (HandedOver(s, c) && s'.chans[c].body == s.chans[c].body)
  {
    LookIsOk(s, t);
    assert ChanOk(s, c);
    StepIsGood(t, Look(s, t));
    if s.holder[c] == t { PutsNewWords(t, Look(s, t)); }
  }

  lemma GoKeepsDebts(s: State, t: Tid, c: nat, s': State)
    requires TicketInv(s) && Enabled(s, Go(t)) && s' == Do(s, Go(t)) && Inv(s') && c < NUM_CHANNELS && !Stranded(s, c)
    ensures DebtsOk(s', c)
  {
    assert DebtsOk(s, c);
    if !s.jobs[c].NoJob? { SpentStays(s, Go(t), s.jobs[c].ticket); }
    if HandedOver(s', c) {
      HandedOverBefore(s, t, c, s');
      if s.threads[t].at == PUT_REQUEST { PostingSpends(s, t); }
      if HandedOver(s, c) { SpentStays(s, Go(t), TicketOf(s.chans[c].body)); }
    }
  }

  lemma CallKeepsDebts(s: State, step: Step, c: nat)
    requires TicketInv(s) && Enabled(s, step) && step.Call? && c < NUM_CHANNELS && !Stranded(s, c)
    ensures DebtsOk(Do(s, step), c)
  {
    assert DebtsOk(s, c) && ChanOk(s, c);
    if !s.jobs[c].NoJob? { SpentStays(s, step, s.jobs[c].ticket); }
    if HandedOver(s, c) { SpentStays(s, step, TicketOf(s.chans[c].body)); }
  }

  lemma PeerKeepsDebts(s: State, step: Step, c: nat)
    requires TicketInv(s) && Enabled(s, step) && (step.NdkPickup? || step.NdkAnswer? || step.NdkSignal?) && c < NUM_CHANNELS && !Stranded(s, c)
    ensures DebtsOk(Do(s, step), c)
  {
    assert DebtsOk(s, c);
    if !s.jobs[c].NoJob? { SpentStays(s, step, s.jobs[c].ticket); }
    if HandedOver(s, c) { SpentStays(s, step, TicketOf(s.chans[c].body)); }
  }

  lemma StepKeepsDebts(s: State, step: Step)
    requires TicketInv(s) && Enabled(s, step) && !step.NdkRogue?
    ensures TicketInv(Do(s, step))
  {
    StepKeepsReply(s, step);
    StepKeepsTickets(s, step);
    forall c | 0 <= c < NUM_CHANNELS
      ensures DebtsOk(Do(s, step), c)
    {
      if Stranded(s, c) { StrandedStays(s, step, c); }
      else if step.Go? { GoKeepsDebts(s, step.t, c, Do(s, step)); }
      else if step.Call? { CallKeepsDebts(s, step, c); }
      else { PeerKeepsDebts(s, step, c); }
    }
  }

  lemma {:induction false} RunKeepsDebts(ss: seq<State>, steps: seq<Step>, i: nat)
    requires IsRun(ss, steps) && PeerAnswersRequests(steps) && i < |ss|
    ensures TicketInv(ss[i])
  {
    RunKeepsReply(ss, steps, i);
    if i == 0 {
      forall c | 0 <= c < NUM_CHANNELS ensures DebtsOk(ss[0], c) { assert ChanOk(ss[0], c); }
    } else {
      RunKeepsDebts(ss, steps, i - 1);
      StepKeepsDebts(ss[i - 1], steps[i - 1]);
    }
  }

  // ---------------------------------------------------------------- nothing owed: one's own answer

  /** Call k of thread t, if still under way, has reached its request, and the peer owed nothing there. */
  ghost predicate OwedNothing(s: State, t: Tid, k: nat) {
    && Shape(s) && t in s.threads && k < s.nextTicket
    && (s.threads[t].ticket == k && s.threads[t].at != IDLE ==>
          && s.threads[t].at >= PUT_REQUEST
          && (s.threads[t].at == PUT_REQUEST ==> s.jobs[s.threads[t].ch].NoJob?)
          && (HAND_OFF <= s.threads[t].at <= COPY ==> s.clean[s.threads[t].ch]))
  }

  lemma OwnStepOwesNothing(t: Tid, v: View)
    requires CanGo(v) && v.th.at >= PUT_REQUEST && (v.th.at == PUT_REQUEST ==> v.job.NoJob?) && (HAND_OFF <= v.th.at <= COPY ==> v.clean)
    ensures var w := StepOf(t, v);
            w.th.ch == v.th.ch && w.th.at != PUT_REQUEST && (w.th.at == IDLE || w.th.at >= PUT_REQUEST) && (HAND_OFF <= w.th.at <= COPY ==> w.clean)
  {
  }

  /** A step of another thread touches nothing of a channel that is held. */
  lemma OthersStepOwesNothing(s: State, u: Tid, t: Tid, s': State)
    requires Inv(s) && Enabled(s, Go(u)) && s' == Do(s, Go(u)) && Shape(s') && t in s.threads && t != u && Claims(s.threads[t].at)
    ensures var c := s.threads[t].ch; s'.threads[t] == s.threads[t] && s'.jobs[c] == s.jobs[c] && s'.clean[c] == s.clean[c]
  {
    LookIsOk(s, u);
    LookIsOk(s, t);
    StepIsGood(u, Look(s, u));
  }

  lemma GoOwesNothing(s: State, u: Tid, t: Tid, k: nat, s': State)
    requires Inv(s) && Enabled(s, Go(u)) && s' == Do(s, Go(u)) && Shape(s') && OwedNothing(s, t, k)
    ensures OwedNothing(s', t, k)
  {
    CallGoesOn(u, Look(s, u));
    if s.threads[t].ticket == k && s.threads[t].at != IDLE {
      if u == t { OwnStepOwesNothing(t, Look(s, t)); } else { OthersStepOwesNothing(s, u, t, s'); }
    }
  }

  lemma StepOwesNothing(s: State, step: Step, t: Tid, k: nat)
    requires ReplyInv(s) && Enabled(s, step) && !step.NdkRogue? && OwedNothing(s, t, k)
    ensures OwedNothing(Do(s, step), t, k)
  {
    if step.Go? {
      StepKeepsInv(s, step);
      GoOwesNothing(s, step.t, t, k, Do(s, step));
    } else {
      LookIsOk(s, t);
      assert ChannelReplyOk(s, s.threads[t].ch);
    }
  }

  lemma {:induction false} ContinuationOwesNothing(s: State, more: seq<Step>, s': State, t: Tid, k: nat)
    requires ReplyInv(s) && Leads(Next, s, more, s') && PeerAnswersRequests(more) && OwedNothing(s, t, k)
    ensures ReplyInv(s') && OwedNothing(s', t, k)
    decreases |more|
  {
    if more != [] {
      StepKeepsReply(s, more[0]);
      StepOwesNothing(s, more[0], t, k);
      ContinuationOwesNothing(Do(s, more[0]), more[1..], s', t, k);
    }
  }

  // ---------------------------------------------------------------- the exact condition

  /** A continuation in which the peer answers only requests it has picked up, however late. */
  ghost predicate Continues(s: State, more: seq<Step>, s': State) {
    Leads(Next, s, more, s') && PeerAnswersRequests(more)
  }

  /** Call k of thread t is about to read its status, or to copy its data. */
  ghost predicate Takes(s: State, t: Tid, k: nat) {
    Shape(s) && t in s.threads && s.threads[t].ticket == k && (s.threads[t].at == READ_STATUS || s.threads[t].at == COPY)
  }

  /** What the thread's channel holds. */
  ghost function Taken(s: State, t: Tid): Body
    requires Shape(s) && t in s.threads
  {
    s.chans[s.threads[t].ch].body
  }

  lemma OwnAnswerTaken(s: State, t: Tid, more: seq<Step>, s': State)
    requires TicketInv(s) && t in s.threads && s.threads[t].at == PUT_REQUEST && s.jobs[s.threads[t].ch].NoJob?
    requires Continues(s, more, s') && Takes(s', t, s.threads[t].ticket)
    ensures IsAnswerTo(Taken(s', t), s.threads[t].ticket)
  {
    ContinuationOwesNothing(s, more, s', t, s.threads[t].ticket);
    LookIsOk(s', t);
    assert ChannelReplyOk(s', s'.threads[t].ch);
  }

  /** A debt on the channel is to a request written before. */
  lemma DebtIsForeign(s: State, t: Tid)
    requires TicketInv(s) && t in s.threads && s.threads[t].at == PUT_REQUEST && !s.jobs[s.threads[t].ch].NoJob?
    ensures s.jobs[s.threads[t].ch].ticket != s.threads[t].ticket
  {
    LookIsOk(s, t);
    assert DebtsOk(s, s.threads[t].ch);
  }

  lemma {:induction false} LeadsKeepsInv(s: State, steps: seq<Step>, s': State)
    requires Inv(s) && Leads(Next, s, steps, s')
    ensures Inv(s')
    decreases |steps|
  {
    if steps != [] {
      StepKeepsInv(s, steps[0]);
      LeadsKeepsInv(Do(s, steps[0]), steps[1..], s');
    }
  }

  /**
   The exact condition, after any number of timeouts, at the moment a request is
   written: whatever status that call comes to read, and whatever data it copies, is
   its own answer in every continuation if and only if the peer owes nothing on the
   channel.
   */
  lemma OwnAnswerIff(ss: seq<State>, steps: seq<Step>, i: nat, t: Tid)
    requires IsRun(ss, steps) && PeerAnswersRequests(steps) && i < |ss|
    requires t in ss[i].threads && ss[i].threads[t].at == PUT_REQUEST && Posts(ss[i].threads[t])
    ensures Shape(ss[i])
    ensures ss[i].jobs[ss[i].threads[t].ch].NoJob? <==>
            (forall more: seq<Step>, s' | Continues(ss[i], more, s') && Takes(s', t, ss[i].threads[t].ticket) ::
               IsAnswerTo(Taken(s', t), ss[i].threads[t].ticket))
  {
    var s := ss[i];
    RunKeepsDebts(ss, steps, i);
    if s.jobs[s.threads[t].ch].NoJob? {
      forall more: seq<Step>, s' | Continues(s, more, s') && Takes(s', t, s.threads[t].ticket)
        ensures IsAnswerTo(Taken(s', t), s.threads[t].ticket)
      {
        OwnAnswerTaken(s, t, more, s');
      }
    } else {
      DebtIsForeign(s, t);
      var more, s' := LateAnswerCanBeTaken(s, t);
      LeadsKeepsInv(s, more, s');
      assert Continues(s, more, s') && Takes(s', t, s.threads[t].ticket);
      assert !IsAnswerTo(Taken(s', t), s.threads[t].ticket);
    }
  }
}
