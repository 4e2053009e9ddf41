/**
 Whose response a read on the serial bus goes by.  There a response is taken for
 one's own whatever slot it comes from, and only the bus lock, held up to the end
 of the wait, keeps transactions apart.
 */
module BdbSerial {
  import opened Wrappers
  import opened BdbBus
  import opened BdbTickets
  import opened Runs

  /** A response that waits in the FIFO, or can still come: on the serial bus writes get none. */
  predicate Due(s: State, r: Req) {
    (r in s.pend && !r.isWrite) || exists j :: 0 <= j < |s.fifo| && s.fifo[j].req == r
  }

  /** No read is pending, and the FIFO is empty. */
  predicate NothingDue(s: State) {
    s.fifo == [] && forall j :: 0 <= j < |s.pend| ==> s.pend[j].isWrite
  }

  // ---------------------------------------------------------------- nothing due: one's own response

  /** From its window access on, up to the end of call k, only its own response can come. */
  ghost predicate Alone(s: State, t: Tid, k: nat) {
    && t in s.threads && k < s.nextTicket
    && (s.threads[t].ticket == k ==> !s.threads[t].isWrite && (s.threads[t].at == IDLE || s.threads[t].at >= TOUCH))
    && (s.threads[t].ticket == k && s.threads[t].at == TOUCH ==> NothingDue(s))
    && (s.threads[t].ticket == k && TOUCH < s.threads[t].at <= TAKE ==> forall r :: Due(s, r) ==> r == Own(t, s.threads[t]))
  }

  /** The own step: the bus lock is held, and what comes is its own. */
  lemma OwnStepStaysAlone(s: State, t: Tid, nudge: bool, k: nat)
    requires TicketInv(s) && !s.parallel && Enabled(s, Go(t, nudge)) && Alone(s, t, k)
    ensures Alone(Do(s, Go(t, nudge)), t, k)
  {
    StepMoves(false, t, Look(s, t), nudge);
    assert ThreadOk(false, t, Look(s, t));
    if s.threads[t].at == TOUCH { IssuesOwn(false, t, Look(s, t)); }
    var s' := Do(s, Go(t, nudge));
    forall r | Due(s', r) && s'.threads[t].ticket == k && TOUCH < s'.threads[t].at <= TAKE
      ensures r == Own(t, s'.threads[t])
    {
      if r !in s'.pend {
        var j :| 0 <= j < |s'.fifo| && s'.fifo[j].req == r;
        assert s'.fifo[j] == s.fifo[if s'.fifo == s.fifo then j else j + 1];
      }
      assert Due(s, r) || r == Issued(t, Look(s, t));
    }
  }

  /** Another thread's step: without the bus lock it neither puts on the bus nor takes off it. */
  lemma OthersStepStaysAlone(s: State, u: Tid, nudge: bool, t: Tid, k: nat)
    requires TicketInv(s) && !s.parallel && Enabled(s, Go(u, nudge)) && Alone(s, t, k) && u != t
    ensures Alone(Do(s, Go(u, nudge)), t, k)
  {
    StepMoves(false, u, Look(s, u), nudge);
    assert ThreadOk(false, t, Look(s, t)) && ThreadOk(false, u, Look(s, u));
    var s' := Do(s, Go(u, nudge));
    assert s'.threads[t] == s.threads[t];
    if s.threads[t].ticket == k && TOUCH <= s.threads[t].at <= TAKE {
      assert s'.pend == s.pend && s'.fifo == s.fifo;
      forall r ensures Due(s', r) <==> Due(s, r) { }
    }
  }

  lemma BusStepStaysAlone(s: State, step: Step, t: Tid, k: nat)
    requires TicketInv(s) && !s.parallel && Enabled(s, step) && Alone(s, t, k) && (step.Answer? || step.Swallow?)
    ensures Alone(Do(s, step), t, k)
  {
    var s' := Do(s, step);
    forall r | Due(s', r)
      ensures Due(s, r)
    {
      if r !in s'.pend {
        var j :| 0 <= j < |s'.fifo| && s'.fifo[j].req == r;
        assert s'.fifo[j].req == if j < |s.fifo| then s.fifo[j].req else s.pend[step.j];
      }
    }
  }

  lemma StepStaysAlone(s: State, step: Step, t: Tid, k: nat)
    requires TicketInv(s) && !s.parallel && Enabled(s, step) && Alone(s, t, k)
    ensures Alone(Do(s, step), t, k)
  {
    match step
    case Go(u, nudge) => if u == t { OwnStepStaysAlone(s, t, nudge, k); } else { OthersStepStaysAlone(s, u, nudge, t, k); }
    case Call(_, _, _, _) => forall r ensures Due(Do(s, step), r) <==> Due(s, r) { }
    case _ => BusStepStaysAlone(s, step, t, k);
  }

  lemma {:induction false} ContinuationStaysAlone(s: State, more: seq<Step>, s': State, t: Tid, k: nat)
    requires TicketInv(s) && !s.parallel && Leads(Next, s, more, s') && Alone(s, t, k)
    ensures TicketInv(s') && !s'.parallel && Alone(s', t, k)
    decreases |more|
  {
    if more != [] {
      StepKeepsTickets(s, more[0]);
      StepStaysAlone(s, more[0], t, k);
      ContinuationStaysAlone(Do(s, more[0]), more[1..], s', t, k);
    }
  }

  // ---------------------------------------------------------------- something due: somebody else's

  /** The window access on the serial bus: a read waits, its request behind what was there. */
  lemma TouchThenWaits(s: State, t: Tid)
    requires TicketInv(s) && !s.parallel && t in s.threads && s.threads[t].at == TOUCH && !s.threads[t].isWrite
    ensures Enabled(s, Go(t, false))
    ensures var s' := Do(s, Go(t, false));
            t in s'.threads && s'.threads[t] == s.threads[t].(at := WAIT) && s'.fifo == s.fifo && s'.pend == s.pend + [Own(t, s.threads[t])]
  {
    assert ThreadOk(false, t, Look(s, t));
    IssuesOwn(false, t, Look(s, t));
  }

  lemma ForeignIfDue(s: State, t: Tid) returns (steps: seq<Step>, s': State)
    requires TicketInv(s) && !s.parallel && t in s.threads && s.threads[t].at == TOUCH && !s.threads[t].isWrite && !NothingDue(s)
    ensures Leads(Next, s, steps, s') && GoesBy(s', t, s.threads[t].ticket)
    ensures s'.fifo[0].req != Own(t, s'.threads[t])
  {
    assert Fresh(s, t);
    TouchThenWaits(s, t);
    LeadsOn(Next, s, [], s, Go(t, false));
    steps, s' := [] + [Go(t, false)], Do(s, Go(t, false));
    if s.fifo == [] {
      var j :| 0 <= j < |s.pend| && !s.pend[j].isWrite;
      assert s'.pend[j] == s.pend[j] && OnBus(s, s.pend[j]);
      LeadsOn(Next, s, steps, s', Answer(j, false));
      steps, s' := steps + [Answer(j, false)], Do(s', Answer(j, false));
    } else {
      assert OnBus(s, s.fifo[0].req);
    }
  }

  // ---------------------------------------------------------------- the exact condition

  ghost predicate GoesOn(s: State, more: seq<Step>, s': State) {
    Leads(Next, s, more, s')
  }

  /**
   The exact condition on the serial bus, after any number of timeouts: at the
   window access, a read goes by its own response in every continuation if and only
   if no other read is pending and the FIFO is empty.
   */
  lemma OwnReadIff(ss: seq<State>, steps: seq<Step>, i: nat, t: Tid)
    requires IsRun(ss, steps) && !ss[0].parallel && i < |ss|
    requires t in ss[i].threads && ss[i].threads[t].at == TOUCH && !ss[i].threads[t].isWrite
    ensures NothingDue(ss[i]) <==>
            (forall more: seq<Step>, s' | GoesOn(ss[i], more, s') && GoesBy(s', t, ss[i].threads[t].ticket) ::
               s'.fifo[0].req == Own(t, s'.threads[t]))
  {
    var s := ss[i];
    var k := s.threads[t].ticket;
    RunKeepsTickets(ss, steps, i);
    if NothingDue(s) {
      assert Fresh(s, t);
      forall more: seq<Step>, s' | GoesOn(s, more, s') && GoesBy(s', t, k)
        ensures s'.fifo[0].req == Own(t, s'.threads[t])
      {
        ContinuationStaysAlone(s, more, s', t, k);
        assert Due(s', s'.fifo[0].req);
      }
    } else {
      var more, s' := ForeignIfDue(s, t);
      assert GoesOn(s, more, s') && GoesBy(s', t, k);
    }
  }

  // ---------------------------------------------------------------- up to the first timeout nothing is due

  predicate NoReads(pend: seq<Req>) {
    forall j :: 0 <= j < |pend| ==> pend[j].isWrite
  }

  /** What is due while thread t has the bus: nothing from the flush to the window access, then its own alone. */
  predicate HolderOk(s: State, t: Tid)
    requires t in s.threads
  {
    var th := s.threads[t];
    HoldsBus(false, th) ==>
      && (th.at != WAIT ==> NoReads(s.pend))
      && (th.at == FLUSH_POP ==> s.fifo != [])
      && (FLUSH_POP < th.at <= DROP_BUS_EARLY ==> s.fifo == [])
      && (th.at == WAIT ==> (forall j :: 0 <= j < |s.pend| ==> s.pend[j].isWrite || s.pend[j] == Own(t, th))
                            && (s.fifo != [] ==> s.fifo[0].req == Own(t, th) && NoReads(s.pend)))
      && (th.at == TAKE ==> s.fifo != [] && s.fifo[0].req == Own(t, th))
  }

  /** Serial mode with no timeout so far: one response at most, which a failed read may have left, and no read pending while the bus is free. */
  ghost predicate SerialInv(s: State) {
    && TicketInv(s) && !s.parallel && !s.late && |s.fifo| <= 1
    && (if s.bus == NOBODY then NoReads(s.pend) else s.bus in s.threads)
    && forall t {:trigger HolderOk(s, t)} :: t in s.threads ==> HolderOk(s, t)
  }

  /** The thread's own step. */
  lemma OwnStepKeepsSerial(s: State, t: Tid, nudge: bool)
    requires SerialInv(s) && Enabled(s, Go(t, nudge)) && !Do(s, Go(t, nudge)).late
    ensures var s' := Do(s, Go(t, nudge)); HolderOk(s', t) && |s'.fifo| <= 1 && if s'.bus == NOBODY then NoReads(s'.pend) else s'.bus in s'.threads
  {
    assert HolderOk(s, t) && ThreadOk(false, t, Look(s, t));
    GoMovesEntries(s, t, nudge);
    GoMovesThread(s, t, nudge);
  }

  lemma GoKeepsSerial(s: State, t: Tid, nudge: bool)
    requires SerialInv(s) && Enabled(s, Go(t, nudge)) && !Do(s, Go(t, nudge)).late
    ensures SerialInv(Do(s, Go(t, nudge)))
  {
    StepKeepsTickets(s, Go(t, nudge));
    OwnStepKeepsSerial(s, t, nudge);
    var s' := Do(s, Go(t, nudge));
    GoMovesEntries(s, t, nudge);
    forall u | u in s'.threads
      ensures HolderOk(s', u)
    {
      assert HolderOk(s, u) && ThreadOk(false, u, Look(s, u)) && ThreadOk(false, t, Look(s, t)) && ThreadOk(false, u, Look(s', u));
    }
  }

  /** Only the read of the thread that has the bus is answered, and it is the one there is. */
  lemma AnswerIsAwaited(s: State, j: nat, err: bool)
    requires SerialInv(s) && Enabled(s, Answer(j, err))
    ensures s.bus in s.threads && s.threads[s.bus].at == WAIT && s.pend[j] == Own(s.bus, s.threads[s.bus])
    ensures s.fifo == [] && forall k :: 0 <= k < |s.pend| && k != j ==> s.pend[k].isWrite
  {
    assert !s.pend[j].isWrite && s.bus != NOBODY;
    assert HolderOk(s, s.bus) && ThreadOk(false, s.bus, Look(s, s.bus));
    forall k | 0 <= k < |s.pend| && k != j ensures s.pend[k].isWrite {
      assert s.pend[k].ticket != s.pend[j].ticket;
    }
  }

  lemma BusKeepsSerial(s: State, step: Step)
    requires SerialInv(s) && Enabled(s, step) && (step.Answer? || step.Swallow?)
    ensures SerialInv(Do(s, step))
  {
    StepKeepsTickets(s, step);
    var s' := Do(s, step);
    if step.Answer? { AnswerIsAwaited(s, step.j, step.err); }
    assert forall k :: 0 <= k < |s'.pend| ==> s'.pend[k] == s.pend[if k < step.j then k else k + 1];
    forall u | u in s'.threads
      ensures HolderOk(s', u)
    {
      assert HolderOk(s, u) && ThreadOk(false, u, Look(s, u));
    }
  }

  lemma {:induction false} RunKeepsSerial(ss: seq<State>, steps: seq<Step>, i: nat)
    requires IsRun(ss, steps) && i < |ss| && !ss[0].parallel && !ss[i].late
    ensures SerialInv(ss[i])
    decreases i
  {
    if i == 0 {
      RunKeepsTickets(ss, steps, 0);
    } else {
      var s, step := ss[i - 1], steps[i - 1];
      RunKeepsSerial(ss, steps, i - 1);
      match step
      case Go(t, nudge) => GoKeepsSerial(s, t, nudge);
      case Call(_, _, _, _) =>
        StepKeepsTickets(s, step);
        forall u | u in ss[i].threads ensures HolderOk(ss[i], u) { assert HolderOk(s, u) && ThreadOk(false, u, Look(s, u)); }
      case _ => BusKeepsSerial(s, step);
    }
  }

  /**
   Up to the first timeout the condition always holds: whatever the order of the
   calls, and whatever responses failed reads left behind, the flush has cleared the
   way by the time of the window access, and what a read takes is the response to the
   very request it issued.
   */
  lemma SerialReadsGetTheirOwn(ss: seq<State>, steps: seq<Step>, i: nat, t: Tid, nudge: bool)
    requires IsRun(ss, steps) && i < |ss| && !ss[0].parallel && !ss[i].late && t in ss[i].threads
    ensures ss[i].threads[t].at == TOUCH ==> NothingDue(ss[i])
    ensures ss[i].threads[t].at == TAKE ==>
              && Enabled(ss[i], Go(t, nudge)) && ss[i].fifo != [] && ss[i].fifo[0].req == Own(t, ss[i].threads[t])
              && Do(ss[i], Go(t, nudge)).threads[t].got == Some(Own(t, ss[i].threads[t])) && Do(ss[i], Go(t, nudge)).fifo == []
  {
    RunKeepsSerial(ss, steps, i);
    assert HolderOk(ss[i], t) && ThreadOk(false, t, Look(ss[i], t));
  }

  // ---------------------------------------------------------------- the failing side is real

  const LEAVING: seq<Label> := [WAIT, DROP_BUS_LATE, DROP_SLOT, IDLE]

  /** Thread t is k labels past a wait that it gives up, its request still on the bus. */
  ghost predicate GivingUp(s: State, t: Tid, k: nat)
    requires k <= 3
  {
    && TicketInv(s) && !s.parallel && t in s.threads && s.threads[t].at == LEAVING[k] && !s.threads[t].isWrite && s.fifo == []
    && |s.pend| == 1 && !s.pend[0].isWrite && (k >= 2 ==> s.bus == NOBODY)
  }

  lemma GivesUpOn(s: State, t: Tid, k: nat)
    requires k < 3 && GivingUp(s, t, k)
    ensures Enabled(s, Go(t, true)) && GivingUp(Do(s, Go(t, true)), t, k + 1)
  {
    StepKeepsTickets(s, Go(t, true));
  }

  /** A read, up to its wait. */
  lemma ReadWaits(s: State, t: Tid) returns (steps: seq<Step>, s': State)
    requires TicketInv(s) && !s.parallel && t in s.threads && s.threads[t].at == IDLE && s.bus == NOBODY && s.fifo == [] && s.pend == []
    ensures Leads(Next, s, steps, s') && GivingUp(s', t, 0)
  {
    var a, touching := UpToTouch(s, t, 0, 0);
    TouchThenWaits(touching, t);
    StepKeepsTickets(touching, Go(t, false));
    LeadsOn(Next, s, a, touching, Go(t, false));
    steps, s' := a + [Go(t, false)], Do(touching, Go(t, false));
  }

  /** And past it, the time being up. */
  lemma ReadTimesOut(s: State, t: Tid) returns (steps: seq<Step>, s': State)
    requires TicketInv(s) && !s.parallel && t in s.threads && s.threads[t].at == IDLE && s.bus == NOBODY && s.fifo == [] && s.pend == []
    ensures Leads(Next, s, steps, s') && GivingUp(s', t, 3)
  {
    steps, s' := ReadWaits(s, t);
    for k := 0 to 3
      invariant Leads(Next, s, steps, s') && GivingUp(s', t, k)
    {
      GivesUpOn(s', t, k);
      LeadsOn(Next, s, steps, s', Go(t, true));
      steps, s' := steps + [Go(t, true)], Do(s', Go(t, true));
    }
  }

  /** The failing side is real: from any start, a thread that once gave up on slot 0 can go by that response on any slot. */
  lemma ForeignReadHappens(s: State, t: Tid, slot: nat, addr: nat) returns (steps: seq<Step>, s': State)
    requires Init(s) && !s.parallel && t in s.threads && slot < NUM_SLOTS
    ensures Leads(Next, s, steps, s') && t in s'.threads && GoesBy(s', t, s'.threads[t].ticket)
    ensures s'.fifo[0].req != Own(t, s'.threads[t])
  {
    RunKeepsTickets([s], [], 0);
    var a, idle := ReadTimesOut(s, t);
    var b, touching := UpToTouch(idle, t, slot, addr);
    LeadsThen(Next, s, a, idle, b, touching);
    var c;
    c, s' := ForeignIfDue(touching, t);
    LeadsThen(Next, s, a + b, touching, c, s');
    steps := a + b + c;
  }
}
