/**
 What holds of the requests and responses on the BDB bus in either mode, after any
 number of timeouts: every call has a ticket of its own, its request bears it, and
 is on the bus at most once.
 */
module BdbTickets {
  import opened Wrappers
  import opened BdbBus
  import opened Runs

  /** A request that is on the bus, or whose response waits in the FIFO. */
  predicate OnBus(s: State, r: Req) {
    r in s.pend || exists j :: 0 <= j < |s.fifo| && s.fifo[j].req == r
  }

  /** The request of a thread's current call. */
  function Own(t: Tid, th: Thread): Req {
    Req(th.slot, th.addr, th.isWrite, t, th.ticket)
  }

  /** About to take the head off the FIFO. */
  predicate Pops(at: Label) {
    at == FLUSH_POP || at == LATE_POP || at == TAKE
  }

  /** Between a look that showed a response for it at the head and the pop. */
  predicate Poised(th: Thread) {
    th.at == FLUSH_POP || (th.at == TAKE && th.seen)
  }

  ghost predicate Fresh(s: State, t: Tid)
    requires t in s.threads
  {
    s.threads[t].at != IDLE ==>
      && s.threads[t].ticket < s.nextTicket
      && (forall u :: u in s.threads && u != t && s.threads[u].at != IDLE ==> s.threads[u].ticket != s.threads[t].ticket)
      && (s.threads[t].at <= TOUCH ==> forall r :: OnBus(s, r) ==> r.ticket != s.threads[t].ticket)
  }

  /** Every call has a ticket of its own, and nothing on the bus bears it before the window access. */
  ghost predicate TicketsOk(s: State) {
    && (forall r :: OnBus(s, r) ==> r.ticket < s.nextTicket)
    && (forall t {:trigger Fresh(s, t)} :: t in s.threads ==> Fresh(s, t))
  }

  /** No two entries bear the same ticket. */
  ghost predicate NoTwins(pend: seq<Req>, fifo: seq<Resp>) {
    && (forall i, j :: 0 <= i < j < |pend| ==> pend[i].ticket != pend[j].ticket)
    && (forall i, j :: 0 <= i < j < |fifo| ==> fifo[i].req.ticket != fifo[j].req.ticket)
    && (forall i, j :: 0 <= i < |pend| && 0 <= j < |fifo| ==> pend[i].ticket != fifo[j].req.ticket)
  }

  ghost predicate TicketInv(s: State) {
    Inv(s) && TicketsOk(s) && NoTwins(s.pend, s.fifo)
  }

  // ---------------------------------------------------------------- what one step does to the bus

  /**
   What a step puts on the bus and takes off it, and where it leaves its thread:
   never before the window access again, and poised only after a look at a response
   that it goes by.
   */
  predicate Moves(parallel: bool, t: Tid, v: View, w: View) {
    && w.th.ticket == v.th.ticket && w.th.slot == v.th.slot && w.th.addr == v.th.addr && w.th.isWrite == v.th.isWrite
    && w.pend == (if v.th.at == TOUCH then v.pend + [Issued(t, v)] else v.pend)
    && w.fifo == (if Pops(v.th.at) then Pop(v.fifo) else v.fifo)
    && (w.th.at <= TOUCH && w.th.at != IDLE ==> v.th.at < TOUCH)
    && (Poised(w.th) ==> Mine(parallel, v) && !Pops(v.th.at))
  }

  lemma LockingMoves(parallel: bool, t: Tid, v: View, nudge: bool)
    requires TAKE_SLOT <= v.th.at <= TAKE_BUS
    ensures Moves(parallel, t, v, Prepare(parallel, t, v, nudge))
  {
  }

  lemma FlushingMoves(parallel: bool, t: Tid, v: View, nudge: bool)
    requires FLUSH_LOOK <= v.th.at <= FLUSH_POP
    ensures Moves(parallel, t, v, Prepare(parallel, t, v, nudge))
  {
  }

  lemma PollingMoves(parallel: bool, t: Tid, v: View, nudge: bool)
    requires POLL_READ <= v.th.at <= POLL_WRITE
    ensures Moves(parallel, t, v, Prepare(parallel, t, v, nudge))
  {
  }

  lemma DepthMoves(parallel: bool, t: Tid, v: View, nudge: bool)
    requires v.th.at == POLL_LOOK
    ensures Moves(parallel, t, v, Prepare(parallel, t, v, nudge))
  {
  }

  lemma RelockMoves(parallel: bool, t: Tid, v: View, nudge: bool)
    requires v.th.at == POLL_RELOCK
    ensures Moves(parallel, t, v, Prepare(parallel, t, v, nudge))
  {
  }

  lemma IssuingMoves(parallel: bool, t: Tid, v: View, nudge: bool)
    requires SET_CTRL <= v.th.at <= DROP_BUS_EARLY
    ensures Moves(parallel, t, v, Transact(parallel, t, v, nudge))
  {
  }

  lemma WaitMoves(parallel: bool, t: Tid, v: View, nudge: bool)
    requires v.th.at == WAIT
    ensures Moves(parallel, t, v, Transact(parallel, t, v, nudge))
  {
  }

  lemma TakingMoves(parallel: bool, t: Tid, v: View, nudge: bool)
    requires LATE_POP <= v.th.at <= TAKE
    ensures Moves(parallel, t, v, Transact(parallel, t, v, nudge))
  {
  }

  lemma LeavingMoves(parallel: bool, t: Tid, v: View, nudge: bool)
    requires v.th.at > TAKE
    ensures Moves(parallel, t, v, Transact(parallel, t, v, nudge))
  {
  }

  lemma StepMoves(parallel: bool, t: Tid, v: View, nudge: bool)
    requires v.th.at != IDLE
    ensures Moves(parallel, t, v, StepOf(parallel, t, v, nudge))
  {
    if v.th.at <= TAKE_BUS { LockingMoves(parallel, t, v, nudge); }
    else if v.th.at <= FLUSH_POP { FlushingMoves(parallel, t, v, nudge); }
    else if v.th.at <= POLL_WRITE { PollingMoves(parallel, t, v, nudge); }
    else if v.th.at == POLL_LOOK { DepthMoves(parallel, t, v, nudge); }
    else if v.th.at == POLL_RELOCK { RelockMoves(parallel, t, v, nudge); }
    else if v.th.at <= DROP_BUS_EARLY { IssuingMoves(parallel, t, v, nudge); }
    else if v.th.at == WAIT { WaitMoves(parallel, t, v, nudge); }
    else if v.th.at <= TAKE { TakingMoves(parallel, t, v, nudge); }
    else { LeavingMoves(parallel, t, v, nudge); }
  }

  lemma IssuesOwn(parallel: bool, t: Tid, v: View)
    requires v.th.at == TOUCH && ThreadOk(parallel, t, v)
    ensures Issued(t, v) == Own(t, v.th)
  {
    assert v.th.addr / WINDOW * WINDOW + v.th.addr % WINDOW == v.th.addr;
  }

  lemma GoMovesEntries(s: State, t: Tid, nudge: bool)
    requires Inv(s) && Enabled(s, Go(t, nudge))
    ensures var th, s' := s.threads[t], Do(s, Go(t, nudge));
      && s'.threads.Keys == s.threads.Keys && s'.nextTicket == s.nextTicket && s'.parallel == s.parallel
      && Own(t, s'.threads[t]) == Own(t, th)
      && (forall u :: u in s.threads && u != t ==> s'.threads[u] == s.threads[u])
      && s'.pend == (if th.at == TOUCH then s.pend + [Own(t, th)] else s.pend)
      && s'.fifo == (if Pops(th.at) then Pop(s.fifo) else s.fifo)
  {
    StepMoves(s.parallel, t, Look(s, t), nudge);
    assert ThreadOk(s.parallel, t, Look(s, t));
    if s.threads[t].at == TOUCH { IssuesOwn(s.parallel, t, Look(s, t)); }
  }

  lemma GoMovesThread(s: State, t: Tid, nudge: bool)
    requires Enabled(s, Go(t, nudge))
    ensures var th, th' := s.threads[t], Do(s, Go(t, nudge)).threads[t];
      && th'.ticket == th.ticket && th'.slot == th.slot
      && (th'.at <= TOUCH && th'.at != IDLE ==> th.at < TOUCH && th.at != IDLE)
      && (Poised(th') ==> Mine(s.parallel, Look(s, t)) && !Pops(th.at))
  {
    StepMoves(s.parallel, t, Look(s, t), nudge);
  }

  lemma GoKeepsOnBus(s: State, t: Tid, nudge: bool, r: Req)
    requires Inv(s) && Enabled(s, Go(t, nudge)) && OnBus(Do(s, Go(t, nudge)), r)
    ensures OnBus(s, r) || (s.threads[t].at == TOUCH && r == Own(t, s.threads[t]))
  {
    GoMovesEntries(s, t, nudge);
    var s' := Do(s, Go(t, nudge));
    if r !in s'.pend {
      var j :| 0 <= j < |s'.fifo| && s'.fifo[j].req == r;
      assert s'.fifo[j] == s.fifo[if s'.fifo == s.fifo then j else j + 1];
    }
  }

  /** Answers change the places of requests on the bus, not which there are. */
  lemma AnswerKeepsOnBus(s: State, j: nat, err: bool, r: Req)
    requires Enabled(s, Answer(j, err))
    ensures OnBus(Do(s, Answer(j, err)), r) <==> OnBus(s, r)
  {
    var s' := Do(s, Answer(j, err));
    assert s.pend == s.pend[..j] + [s.pend[j]] + s.pend[j + 1..];
    assert s'.fifo[|s.fifo|].req == s.pend[j];
    assert forall k :: 0 <= k < |s.fifo| ==> s'.fifo[k] == s.fifo[k];
  }

  // ---------------------------------------------------------------- every step keeps the tickets

  lemma GoKeepsTickets(s: State, t: Tid, nudge: bool)
    requires TicketInv(s) && Enabled(s, Go(t, nudge))
    ensures TicketsOk(Do(s, Go(t, nudge)))
  {
    var s' := Do(s, Go(t, nudge));
    GoMovesEntries(s, t, nudge);
    GoMovesThread(s, t, nudge);
    forall r | OnBus(s', r)
      ensures r.ticket < s'.nextTicket
    {
      GoKeepsOnBus(s, t, nudge, r);
      assert Fresh(s, t);
    }
    forall u | u in s'.threads
      ensures Fresh(s', u)
    {
      assert Fresh(s, u) && Fresh(s, t);
      forall r | OnBus(s', r)
        ensures s'.threads[u].at != IDLE && s'.threads[u].at <= TOUCH ==> r.ticket != s'.threads[u].ticket
      {
        GoKeepsOnBus(s, t, nudge, r);
      }
    }
  }

  lemma GoKeepsApart(s: State, t: Tid, nudge: bool)
    requires TicketInv(s) && Enabled(s, Go(t, nudge))
    ensures NoTwins(Do(s, Go(t, nudge)).pend, Do(s, Go(t, nudge)).fifo)
  {
    GoMovesEntries(s, t, nudge);
    if s.threads[t].at == TOUCH {
      assert Fresh(s, t);
      forall j | 0 <= j < |s.pend| ensures s.pend[j].ticket != s.threads[t].ticket { assert OnBus(s, s.pend[j]); }
      forall j | 0 <= j < |s.fifo| ensures s.fifo[j].req.ticket != s.threads[t].ticket { assert OnBus(s, s.fifo[j].req); }
    }
  }

  /** An answer, or a write swallowed on the serial bus. */
  lemma BusKeepsTickets(s: State, step: Step)
    requires TicketInv(s) && Enabled(s, step) && (step.Answer? || step.Swallow?)
    ensures TicketInv(Do(s, step))
  {
    var s' := Do(s, step);
    StepKeepsInv(s, step);
    forall r | OnBus(s', r) ensures OnBus(s, r) { if step.Answer? { AnswerKeepsOnBus(s, step.j, step.err, r); } }
    forall u | u in s'.threads ensures Fresh(s', u) { assert Fresh(s, u); }
    assert forall k :: 0 <= k < |s'.pend| ==> s'.pend[k] == s.pend[if k < step.j then k else k + 1];
  }

  lemma CallKeepsTickets(s: State, step: Step)
    requires TicketInv(s) && Enabled(s, step) && step.Call?
    ensures TicketInv(Do(s, step))
  {
    var s' := Do(s, step);
    StepKeepsInv(s, step);
    forall r ensures OnBus(s', r) <==> OnBus(s, r) { }
    forall u | u in s.threads && s.threads[u].at != IDLE ensures s.threads[u].ticket < s.nextTicket { assert Fresh(s, u); }
    forall u | u in s'.threads ensures Fresh(s', u) { assert Fresh(s, u); }
  }

  /** Every step keeps the tickets, in either mode, timeouts and pops of any kind included. */
  lemma StepKeepsTickets(s: State, step: Step)
    requires TicketInv(s) && Enabled(s, step)
    ensures TicketInv(Do(s, step)) && Do(s, step).parallel == s.parallel
  {
    match step
    case Go(t, nudge) =>
      StepKeepsInv(s, step);
      GoKeepsTickets(s, t, nudge);
      GoKeepsApart(s, t, nudge);
    case Call(_, _, _, _) => CallKeepsTickets(s, step);
    case _ => BusKeepsTickets(s, step);
  }

  lemma {:induction false} RunKeepsTickets(ss: seq<State>, steps: seq<Step>, i: nat)
    requires IsRun(ss, steps) && i < |ss|
    ensures TicketInv(ss[i]) && ss[i].parallel == ss[0].parallel
  {
    if i == 0 {
      RunKeepsInv(ss, steps, 0);
    } else {
      RunKeepsTickets(ss, steps, i - 1);
      StepKeepsTickets(ss[i - 1], steps[i - 1]);
    }
  }

  // ---------------------------------------------------------------- what a thread goes by

  /** The step function of all runs. */
  ghost function Next(s: State, step: Step): Option<State> {
    if Enabled(s, step) then Some(Do(s, step)) else None
  }

  /** Call k of thread t is looking at a response that it goes by, or is about to take it. */
  ghost predicate GoesBy(s: State, t: Tid, k: nat) {
    && t in s.threads && s.threads[t].ticket == k && s.fifo != []
    && ((s.threads[t].at == WAIT && Mine(s.parallel, Look(s, t))) || (s.threads[t].at == TAKE && s.threads[t].seen))
  }

  /** What it goes by is what it takes: the response's error is its failure, and a take pops that response. */
  lemma GoneByIsTaken(ss: seq<State>, steps: seq<Step>, i: nat, t: Tid, nudge: bool)
    requires IsRun(ss, steps) && i < |ss| && t in ss[i].threads && GoesBy(ss[i], t, ss[i].threads[t].ticket)
    ensures Enabled(ss[i], Go(t, nudge))
    ensures var th, head, next := ss[i].threads[t], ss[i].fifo[0], Do(ss[i], Go(t, nudge)).threads[t];
      && (th.at == WAIT ==> next.ok == !head.err && (next.at == TAKE <==> th.isWrite || !head.err))
      && (th.at == TAKE ==> next.got == Some(head.req) && Do(ss[i], Go(t, nudge)).fifo == ss[i].fifo[1..])
  {
    RunKeepsInv(ss, steps, i);
    assert ThreadOk(ss[i].parallel, t, Look(ss[i], t));
  }

  // ---------------------------------------------------------------- what a call reports

  /** A response for this thread is waiting: in parallel mode one from its slot, in serial mode any. */
  ghost predicate Sighted(s: State, t: Tid) {
    t in s.threads && s.fifo != [] && (s.parallel ==> s.fifo[0].req.slot == s.threads[t].slot)
  }

  /** Step i is the one with which thread t left its wait for good, in the call that it is in at j. */
  ghost predicate LeftWait(ss: seq<State>, steps: seq<Step>, i: nat, j: nat, t: Tid) {
    && i < j < |ss| && i < |steps| && steps[i].Go? && steps[i].t == t
    && t in ss[i].threads && ss[i].threads[t].at == WAIT
    && (Sighted(ss[i], t) || steps[i].nudge)
    && forall m {:trigger ss[m]} :: i < m <= j ==> t in ss[m].threads && ss[m].threads[t].at > LATE_POP && Own(t, ss[m].threads[t]) == Own(t, ss[i].threads[t])
  }

  /** What the rest of a call knows of its wait: a sighted response without an error is success, and only that. */
  ghost predicate Reported(ss: seq<State>, i: nat, j: nat, t: Tid)
    requires i < j < |ss| && t in ss[i].threads && t in ss[i + 1].threads && t in ss[j].threads
  {
    var th := ss[j].threads[t];
    && (th.seen <==> Sighted(ss[i], t))
    && (th.ok <==> Sighted(ss[i], t) && !ss[i].fifo[0].err)
    && (ss[i + 1].threads[t].at == TAKE <==> th.isWrite || th.ok)
  }

  /** The step out of the wait itself. */
  lemma LeavingWait(s: State, t: Tid, nudge: bool)
    requires Inv(s) && t in s.threads && s.threads[t].at == WAIT && Do(s, Go(t, nudge)).threads[t].at > LATE_POP
    ensures var th, next := s.threads[t], Do(s, Go(t, nudge)).threads[t];
      && (Sighted(s, t) || nudge)
      && (next.seen <==> Sighted(s, t)) && (next.ok <==> Sighted(s, t) && !s.fifo[0].err)
      && (next.at == TAKE <==> th.isWrite || next.ok)
  {
    assert ThreadOk(s.parallel, t, Look(s, t));
  }

  /** The steps after it change nothing of that. */
  lemma LaterSteps(s: State, t: Tid, nudge: bool)
    requires Inv(s) && t in s.threads && s.threads[t].at > LATE_POP
    ensures var th, next := s.threads[t], Do(s, Go(t, nudge)).threads[t];
      && (next.at > LATE_POP || (th.at == DROP_SLOT && next.at == IDLE)) && next.ok == th.ok && next.seen == th.seen
  {
  }

  /** Up to the control word nothing is waited for and nothing is taken. */
  predicate Early(th: Thread, next: Thread) {
    IDLE < next.at <= SET_CTRL && next.ok == th.ok && next.got == th.got && next.isWrite == th.isWrite
  }

  lemma LockingStaysEarly(parallel: bool, t: Tid, v: View, nudge: bool)
    requires IDLE < v.th.at <= FLUSH_LOOK
    ensures Early(v.th, Prepare(parallel, t, v, nudge).th)
  {
  }

  lemma PollingStaysEarly(parallel: bool, t: Tid, v: View, nudge: bool)
    requires FLUSH_LOOK < v.th.at <= POLL_RELOCK
    ensures Early(v.th, Prepare(parallel, t, v, nudge).th)
  {
  }

  lemma PrepareStaysEarly(parallel: bool, t: Tid, v: View, nudge: bool)
    requires IDLE < v.th.at <= POLL_RELOCK
    ensures Early(v.th, Prepare(parallel, t, v, nudge).th)
  {
    if v.th.at <= FLUSH_LOOK { LockingStaysEarly(parallel, t, v, nudge); } else { PollingStaysEarly(parallel, t, v, nudge); }
  }

  /** Only from its wait does a thread come past it. */
  lemma PassesWait(parallel: bool, t: Tid, v: View, nudge: bool)
    requires ThreadOk(parallel, t, v) && v.th.at > POLL_RELOCK && Transact(parallel, t, v, nudge).th.at > LATE_POP && (parallel || !v.th.isWrite)
    ensures v.th.at >= WAIT && v.th.at != LATE_POP
  {
  }

  /** Which step brings a thread past its wait, or keeps it there. */
  lemma ComesFrom(s: State, step: Step, t: Tid)
    requires Inv(s) && Enabled(s, step) && t in Do(s, step).threads && Do(s, step).threads[t].at > LATE_POP
    requires s.parallel || !Do(s, step).threads[t].isWrite
    ensures t in s.threads && Own(t, Do(s, step).threads[t]) == Own(t, s.threads[t])
    ensures if step.Go? && step.t == t then s.threads[t].at >= WAIT && s.threads[t].at != LATE_POP else Do(s, step).threads[t] == s.threads[t]
  {
    if step.Go? {
      GoMovesEntries(s, step.t, step.nudge);
      if step.t == t {
        var v := Look(s, t);
        assert ThreadOk(s.parallel, t, v);
        if v.th.at <= POLL_RELOCK { PrepareStaysEarly(s.parallel, t, v, step.nudge); } else { PassesWait(s.parallel, t, v, step.nudge); }
      }
    }
  }

  /**
   What a call reports, in either mode and after any number of timeouts: it has
   succeeded exactly if the look with which its wait ended showed a response for it,
   and that one carried no error.  A wait that ran out of time is a failure.  A read
   takes a response only after such a look, a posted write always takes one.  A
   serial write waits for nothing, and is set apart below.
   */
  lemma {:induction false} SuccessIff(ss: seq<State>, steps: seq<Step>, j: nat, t: Tid) returns (i: nat)
    requires IsRun(ss, steps) && j < |ss| && t in ss[j].threads && ss[j].threads[t].at > LATE_POP
    requires ss[j].parallel || !ss[j].threads[t].isWrite
    ensures LeftWait(ss, steps, i, j, t) && Reported(ss, i, j, t)
    decreases j
  {
    var s, step := ss[j - 1], steps[j - 1];
    RunKeepsInv(ss, steps, j - 1);
    ComesFrom(s, step, t);
    if step.Go? && step.t == t && s.threads[t].at == WAIT {
      LeavingWait(s, t, step.nudge);
      i := j - 1;
    } else {
      i := SuccessIff(ss, steps, j - 1, t);
      if step.Go? && step.t == t { LaterSteps(s, t, step.nudge); }
    }
  }

  /** A call holds no answer until it takes one, a failed read never does, nor does a serial write, which is a success by the time it leaves. */
  predicate Tidy(parallel: bool, th: Thread) {
    th.at != IDLE ==>
      && (th.at <= TAKE ==> th.got == None)
      && (!th.isWrite && th.at == TAKE ==> th.ok)
      && (!th.isWrite && !th.ok ==> th.got == None)
      && (!parallel && th.isWrite ==> th.got == None && (th.at == DROP_SLOT ==> th.ok))
  }

  lemma TransactKeepsTidy(parallel: bool, t: Tid, v: View, nudge: bool)
    requires ThreadOk(parallel, t, v) && Tidy(parallel, v.th) && v.th.at > POLL_RELOCK
    ensures Tidy(parallel, Transact(parallel, t, v, nudge).th)
  {
  }

  lemma StepKeepsTidy(parallel: bool, t: Tid, v: View, nudge: bool)
    requires ThreadOk(parallel, t, v) && Tidy(parallel, v.th) && v.th.at != IDLE
    ensures Tidy(parallel, StepOf(parallel, t, v, nudge).th)
  {
    if v.th.at <= POLL_RELOCK { PrepareStaysEarly(parallel, t, v, nudge); } else { TransactKeepsTidy(parallel, t, v, nudge); }
  }

  lemma {:induction false} RunKeepsTidy(ss: seq<State>, steps: seq<Step>, j: nat, t: Tid)
    requires IsRun(ss, steps) && j < |ss| && t in ss[j].threads
    ensures Tidy(ss[j].parallel, ss[j].threads[t])
    decreases j
  {
    if j > 0 {
      var s, step := ss[j - 1], steps[j - 1];
      RunKeepsInv(ss, steps, j - 1);
      RunKeepsTidy(ss, steps, j - 1, t);
      assert ThreadOk(s.parallel, t, Look(s, t));
      if step.Go? && step.t == t { StepKeepsTidy(s.parallel, t, Look(s, t), step.nudge); }
    }
  }

  /** What a call comes back with: a failed read holds no answer, a serial write has succeeded, and the last step hands all on. */
  lemma CallReturns(ss: seq<State>, steps: seq<Step>, j: nat, t: Tid, nudge: bool)
    requires IsRun(ss, steps) && j < |ss| && t in ss[j].threads && ss[j].threads[t].at == DROP_SLOT
    ensures Enabled(ss[j], Go(t, nudge))
    ensures var th, back := ss[j].threads[t], Do(ss[j], Go(t, nudge)).threads[t];
      && back.at == IDLE && back.ok == th.ok && back.got == th.got
      && (!th.isWrite && !back.ok ==> back.got == None)
      && (th.isWrite && !ss[j].parallel ==> back.ok && back.got == None)
  {
    RunKeepsTidy(ss, steps, j, t);
  }

  // ---------------------------------------------------------------- a read up to its window access

  /** Steps that no timeout is among. */
  predicate Patient(steps: seq<Step>) {
    forall i :: 0 <= i < |steps| && steps[i].Go? ==> !steps[i].nudge
  }

  const APPROACH: seq<Label> := [TAKE_SLOT, TAKE_BUS, FLUSH_LOOK, SET_CTRL, TOUCH]

  /** Thread t, idle in s, is k steps into a read of this slot, nothing else having happened. */
  ghost predicate Approaching(s: State, s': State, t: Tid, slot: nat, k: nat)
    requires t in s.threads && k <= 4
  {
    && TicketInv(s') && s'.threads.Keys == s.threads.Keys && s'.parallel == s.parallel
    && s'.threads[t].at == APPROACH[k] && s'.threads[t].slot == slot && s'.threads[t].ticket == s.nextTicket && !s'.threads[t].isWrite
    && s'.nextTicket == s.nextTicket + 1 && s'.pend == s.pend && s'.fifo == [] && s'.late == s.late
    && s'.holders == (if k == 0 || !s.parallel then s.holders else s.holders + {t}) && (k <= 1 ==> s'.bus == NOBODY)
    && forall u :: u in s.threads && u != t ==> s'.threads[u] == s.threads[u]
  }

  lemma OneStepNearer(s: State, s': State, t: Tid, slot: nat, k: nat)
    requires t in s.threads && k < 4 && Approaching(s, s', t, slot, k) && (s.parallel ==> SlotFree(s, slot))
    ensures Enabled(s', Go(t, false)) && Approaching(s, Do(s', Go(t, false)), t, slot, k + 1)
  {
    assert ThreadOk(s'.parallel, t, Look(s', t));
    GoMovesEntries(s', t, false);
    StepKeepsTickets(s', Go(t, false));
  }

  lemma CallStarts(s: State, t: Tid, slot: nat, addr: nat)
    requires TicketInv(s) && t in s.threads && s.threads[t].at == IDLE && s.bus == NOBODY && s.fifo == [] && slot < NUM_SLOTS
    ensures Approaching(s, Do(s, Call(t, slot, addr, false)), t, slot, 0)
  {
    StepKeepsTickets(s, Call(t, slot, addr, false));
  }

  /** A read call, from idle to its window access, with the bus to itself and nothing in the FIFO. */
  lemma UpToTouch(s: State, t: Tid, slot: nat, addr: nat) returns (steps: seq<Step>, s': State)
    requires TicketInv(s) && t in s.threads && s.threads[t].at == IDLE && s.bus == NOBODY && s.fifo == []
    requires slot < NUM_SLOTS && (s.parallel ==> SlotFree(s, slot))
    ensures Leads(Next, s, steps, s') && Patient(steps) && Approaching(s, s', t, slot, 4)
  {
    LeadsOn(Next, s, [], s, Call(t, slot, addr, false));
    CallStarts(s, t, slot, addr);
    steps, s' := [] + [Call(t, slot, addr, false)], Do(s, Call(t, slot, addr, false));
    for k := 0 to 4
      invariant Leads(Next, s, steps, s') && Patient(steps) && Approaching(s, s', t, slot, k)
    {
      OneStepNearer(s, s', t, slot, k);
      LeadsOn(Next, s, steps, s', Go(t, false));
      steps, s' := steps + [Go(t, false)], Do(s', Go(t, false));
    }
  }
}
