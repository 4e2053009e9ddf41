/**
 Whose response a thread on the parallel bus acts on once waits may time out: the
 exact condition at its window access, over every run, and the exact condition on
 what other threads do between its look at the head of the FIFO and its own pop.
 */
module BdbReplies {
  import opened Wrappers
  import opened BdbBus
  import opened BdbTickets
  import opened Runs

  /** About to pop whatever heads the FIFO, its time being up. */
  predicate Blind(th: Thread) {
    th.at == LATE_POP || (th.at == TAKE && !th.seen)
  }

  /** Not a blind pop between another thread's look and its pop. */
  ghost predicate Orderly(s: State, step: Step) {
    step.Go? && step.t in s.threads && Blind(s.threads[step.t]) ==>
      forall u :: u in s.threads && u != step.t ==> !Poised(s.threads[u])
  }

  /** A poised thread still has its slot's response at the head. */
  ghost predicate PoisedOk(s: State, t: Tid)
    requires t in s.threads
  {
    Poised(s.threads[t]) ==> s.fifo != [] && s.fifo[0].req.slot == s.threads[t].slot
  }

  ghost predicate CalmInv(s: State) {
    && TicketInv(s) && s.parallel
    && (forall t {:trigger PoisedOk(s, t)} :: t in s.threads ==> PoisedOk(s, t))
  }

  // ---------------------------------------------------------------- the invariant is kept

  lemma GoKeepsPoised(s: State, t: Tid, nudge: bool, u: Tid)
    requires CalmInv(s) && Enabled(s, Go(t, nudge)) && Orderly(s, Go(t, nudge)) && u in s.threads
    ensures u in Do(s, Go(t, nudge)).threads && PoisedOk(Do(s, Go(t, nudge)), u)
  {
    GoMovesEntries(s, t, nudge);
    GoMovesThread(s, t, nudge);
    assert PoisedOk(s, u) && PoisedOk(s, t);
    if u != t && Poised(s.threads[u]) && Poised(s.threads[t]) { OneThreadPerSlot(s, t, u); }
  }

  /** Steps on the bus, and calls, pop nothing. */
  lemma OthersKeepPoised(s: State, step: Step, u: Tid)
    requires CalmInv(s) && Enabled(s, step) && !step.Go? && u in s.threads
    ensures u in Do(s, step).threads && PoisedOk(Do(s, step), u)
  {
    assert PoisedOk(s, u);
  }

  lemma StepKeepsCalm(s: State, step: Step)
    requires CalmInv(s) && Enabled(s, step) && Orderly(s, step)
    ensures CalmInv(Do(s, step))
  {
    StepKeepsTickets(s, step);
    forall u | u in Do(s, step).threads
      ensures PoisedOk(Do(s, step), u)
    {
      if step.Go? {
        GoMovesThread(s, step.t, step.nudge);
        GoKeepsPoised(s, step.t, step.nudge, u);
      } else {
        OthersKeepPoised(s, step, u);
      }
    }
  }

  ghost predicate OrderlyRun(ss: seq<State>, steps: seq<Step>) {
    IsRun(ss, steps) && ss[0].parallel && forall i :: 0 <= i < |steps| ==> Orderly(ss[i], steps[i])
  }

  lemma {:induction false} RunKeepsCalm(ss: seq<State>, steps: seq<Step>, i: nat)
    requires OrderlyRun(ss, steps) && i < |ss|
    ensures CalmInv(ss[i])
  {
    if i == 0 {
      RunKeepsInv(ss, steps, 0);
    } else {
      RunKeepsCalm(ss, steps, i - 1);
      StepKeepsCalm(ss[i - 1], steps[i - 1]);
    }
  }

  // ---------------------------------------------------------------- nothing owed: one's own response

  /** From its window access on, call k of thread t has nothing of its slot's on the bus but its own request. */
  ghost predicate Clear(s: State, t: Tid, k: nat)
    requires t in s.threads
  {
    && k < s.nextTicket
    && (s.threads[t].ticket == k ==> s.threads[t].at == IDLE || s.threads[t].at >= TOUCH)
    && (s.threads[t].ticket == k && TOUCH <= s.threads[t].at <= TAKE ==>
          forall r :: OnBus(s, r) && r.slot == s.threads[t].slot ==> r == Own(t, s.threads[t]))
  }

  lemma GoKeepsClear(s: State, u: Tid, nudge: bool, t: Tid, k: nat)
    requires TicketInv(s) && s.parallel && Enabled(s, Go(u, nudge)) && t in s.threads && Clear(s, t, k)
    ensures t in Do(s, Go(u, nudge)).threads && Clear(Do(s, Go(u, nudge)), t, k)
  {
    var s' := Do(s, Go(u, nudge));
    GoMovesEntries(s, u, nudge);
    GoMovesThread(s, u, nudge);
    if s'.threads[t].ticket == k && TOUCH <= s'.threads[t].at <= TAKE {
      forall r | OnBus(s', r) && r.slot == s'.threads[t].slot
        ensures r == Own(t, s'.threads[t])
      {
        GoKeepsOnBus(s, u, nudge, r);
        if u != t && s.threads[u].at == TOUCH && r == Own(u, s.threads[u]) { OneThreadPerSlot(s, t, u); }
      }
    }
  }

  lemma StepKeepsClear(s: State, step: Step, t: Tid, k: nat)
    requires TicketInv(s) && s.parallel && Enabled(s, step) && t in s.threads && Clear(s, t, k)
    ensures t in Do(s, step).threads && Clear(Do(s, step), t, k)
  {
    match step
    case Go(u, nudge) => GoKeepsClear(s, u, nudge, t, k);
    case Call(_, _, _, _) =>
      forall r ensures OnBus(Do(s, step), r) <==> OnBus(s, r) { }
    case Answer(j, err) =>
      forall r ensures OnBus(Do(s, step), r) <==> OnBus(s, r) { AnswerKeepsOnBus(s, j, err, r); }
    case Swallow(_) =>
  }

  /** Another thread's pop between thread t's look at the head and its own pop. */
  predicate Interrupts(s: State, step: Step, t: Tid) {
    && t in s.threads && s.threads[t].at == TAKE && s.threads[t].seen
    && step.Go? && step.t != t && step.t in s.threads && Pops(s.threads[step.t].at)
  }

  /** The step function of the runs in which nobody interrupts thread t, and that of the orderly ones. */
  ghost function QuietNext(t: Tid): (State, Step) -> Option<State> {
    (s: State, step: Step) => if Enabled(s, step) && !Interrupts(s, step, t) then Some(Do(s, step)) else None
  }

  ghost function OrderlyNext(s: State, step: Step): Option<State> {
    if Enabled(s, step) && Orderly(s, step) then Some(Do(s, step)) else None
  }

  /** If it is about to take what it has looked at, that is still at the head. */
  ghost predicate SeesHead(s: State, t: Tid)
    requires t in s.threads
  {
    s.threads[t].at == TAKE && s.threads[t].seen ==> s.fifo != [] && s.fifo[0].req.slot == s.threads[t].slot
  }

  lemma QuietKeepsHead(s: State, step: Step, t: Tid)
    requires TicketInv(s) && s.parallel && Enabled(s, step) && !Interrupts(s, step, t) && t in s.threads && SeesHead(s, t)
    ensures t in Do(s, step).threads && SeesHead(Do(s, step), t)
  {
    if step.Go? {
      GoMovesEntries(s, step.t, step.nudge);
      GoMovesThread(s, step.t, step.nudge);
    }
  }

  lemma {:induction false} ClearLeads(s: State, steps: seq<Step>, s': State, t: Tid, k: nat)
    requires TicketInv(s) && s.parallel && Leads(QuietNext(t), s, steps, s') && t in s.threads && Clear(s, t, k) && SeesHead(s, t)
    ensures TicketInv(s') && s'.parallel && t in s'.threads && Clear(s', t, k) && SeesHead(s', t)
    decreases |steps|
  {
    if steps != [] {
      StepKeepsTickets(s, steps[0]);
      StepKeepsClear(s, steps[0], t, k);
      QuietKeepsHead(s, steps[0], t);
      ClearLeads(Do(s, steps[0]), steps[1..], s', t, k);
    }
  }

  /** Nothing of this slot's is on the bus: no request unanswered, no response waiting. */
  ghost predicate OwesNothing(s: State, slot: nat) {
    forall r :: OnBus(s, r) ==> r.slot != slot
  }

  /** Whatever timeouts there are and whoever pops, as long as nobody pops between the thread's look and its pop. */
  lemma OwnIfNothingOwed(s: State, t: Tid, steps: seq<Step>, s': State)
    requires TicketInv(s) && s.parallel && t in s.threads && s.threads[t].at == TOUCH && OwesNothing(s, s.threads[t].slot)
    requires Leads(QuietNext(t), s, steps, s') && GoesBy(s', t, s.threads[t].ticket)
    ensures s'.fifo[0].req == Own(t, s'.threads[t])
  {
    assert Fresh(s, t);
    ClearLeads(s, steps, s', t, s.threads[t].ticket);
    assert OnBus(s', s'.fifo[0].req);
  }

  /** From a calm state, orderly steps interrupt nobody. */
  lemma OrderlyIsQuiet(s: State, step: Step, t: Tid)
    requires CalmInv(s) && Enabled(s, step) && Orderly(s, step)
    ensures !Interrupts(s, step, t)
  {
    if Interrupts(s, step, t) {
      assert PoisedOk(s, t) && PoisedOk(s, step.t);
      OneThreadPerSlot(s, t, step.t);
    }
  }

  lemma {:induction false} OrderlyLeadsQuietly(s: State, steps: seq<Step>, s': State, t: Tid)
    requires CalmInv(s) && Leads(OrderlyNext, s, steps, s')
    ensures Leads(QuietNext(t), s, steps, s')
    decreases |steps|
  {
    if steps != [] {
      OrderlyIsQuiet(s, steps[0], t);
      StepKeepsCalm(s, steps[0]);
      OrderlyLeadsQuietly(Do(s, steps[0]), steps[1..], s', t);
    }
  }

  // ---------------------------------------------------------------- something owed: somebody else's

  /** Thread t of call k waits, its slot's response stands at place i, and nothing in the FIFO is its own. */
  ghost predicate Ahead(s: State, t: Tid, k: nat, i: nat) {
    && TicketInv(s) && s.parallel && t in s.threads && s.threads[t].at == WAIT && s.threads[t].ticket == k
    && i < |s.fifo| && s.fifo[i].req.slot == s.threads[t].slot
    && forall j :: 0 <= j < |s.fifo| ==> s.fifo[j].req.ticket != k
  }

  /** Another thread that is poised takes its response off the head. */
  lemma PoisedPops(s: State, t: Tid, k: nat, i: nat, u: Tid)
    requires Ahead(s, t, k, i) && s.fifo[0].req.slot != s.threads[t].slot
    requires u in s.threads && u != t && Poised(s.threads[u])
    ensures Enabled(s, Go(u, false)) && Orderly(s, Go(u, false))
    ensures i > 0 && Ahead(Do(s, Go(u, false)), t, k, i - 1)
  {
    StepKeepsTickets(s, Go(u, false));
    GoMovesEntries(s, u, false);
  }

  /** Thread t runs into its timeout and pops the head itself. */
  lemma TimeoutPops(s: State, t: Tid, k: nat, i: nat)
    requires Ahead(s, t, k, i) && s.fifo[0].req.slot != s.threads[t].slot
    ensures Enabled(s, Go(t, true)) && Orderly(s, Go(t, true))
    ensures var mid := Do(s, Go(t, true));
      && Enabled(mid, Go(t, true)) && i > 0 && Ahead(Do(mid, Go(t, true)), t, k, i - 1)
      && (forall u :: u in s.threads && u != t ==> u in mid.threads && mid.threads[u] == s.threads[u])
  {
    var mid := Do(s, Go(t, true));
    GoMovesEntries(s, t, true);
    StepKeepsTickets(s, Go(t, true));
    GoMovesEntries(mid, t, true);
    StepKeepsTickets(mid, Go(t, true));
  }

  /** A continuation that is orderly and in which nobody interrupts thread t. */
  ghost predicate LeadsCalmly(s: State, steps: seq<Step>, s': State, t: Tid) {
    Leads(OrderlyNext, s, steps, s') && Leads(QuietNext(t), s, steps, s')
  }

  lemma CalmlyOn(s: State, steps: seq<Step>, mid: State, t: Tid, step: Step)
    requires LeadsCalmly(s, steps, mid, t) && Enabled(mid, step) && Orderly(mid, step) && !Interrupts(mid, step, t)
    ensures LeadsCalmly(s, steps + [step], Do(mid, step), t)
  {
    LeadsOn(OrderlyNext, s, steps, mid, step);
    LeadsOn(QuietNext(t), s, steps, mid, step);
  }

  /** One response less stands before the slot's; threads that are poised go first. */
  lemma OnePopped(s: State, steps: seq<Step>, mid: State, t: Tid, k: nat, i: nat) returns (more: seq<Step>, next: State)
    requires LeadsCalmly(s, steps, mid, t) && Ahead(mid, t, k, i) && mid.fifo[0].req.slot != mid.threads[t].slot
    ensures i > 0 && LeadsCalmly(s, more, next, t) && Ahead(next, t, k, i - 1)
  {
    if u :| u in mid.threads && u != t && Poised(mid.threads[u]) {
      PoisedPops(mid, t, k, i, u);
      CalmlyOn(s, steps, mid, t, Go(u, false));
      more, next := steps + [Go(u, false)], Do(mid, Go(u, false));
    } else {
      TimeoutPops(mid, t, k, i);
      var late := Do(mid, Go(t, true));
      CalmlyOn(s, steps, mid, t, Go(t, true));
      CalmlyOn(s, steps + [Go(t, true)], late, t, Go(t, true));
      more, next := steps + [Go(t, true)] + [Go(t, true)], Do(late, Go(t, true));
    }
  }

  /** Whatever stands before the slot's response gets popped. */
  lemma {:induction false} HeadReached(s: State, steps: seq<Step>, mid: State, t: Tid, k: nat, i: nat)
    returns (all: seq<Step>, s': State)
    requires LeadsCalmly(s, steps, mid, t) && Ahead(mid, t, k, i)
    ensures LeadsCalmly(s, all, s', t) && GoesBy(s', t, k) && s'.fifo[0].req.ticket != k
    decreases i
  {
    if mid.fifo[0].req.slot == mid.threads[t].slot {
      all, s' := steps, mid;
    } else {
      var more, next := OnePopped(s, steps, mid, t, k, i);
      all, s' := HeadReached(s, more, next, t, k, i - 1);
    }
  }

  /** Thread t, at its window access in s, waits in s' with its request on the bus, nothing else having happened. */
  ghost predicate Waiting(s: State, s': State, t: Tid)
    requires t in s.threads
  {
    && TicketInv(s') && s'.parallel && s'.threads.Keys == s.threads.Keys && s'.nextTicket == s.nextTicket
    && s'.threads[t] == s.threads[t].(at := WAIT, ok := true) && s'.bus == NOBODY && s'.holders == s.holders
    && s'.pend == s.pend + [Own(t, s.threads[t])] && s'.fifo == s.fifo
    && forall u :: u in s.threads && u != t ==> s'.threads[u] == s.threads[u]
  }

  /** The window access and the release of the bus lock: the thread waits, with its request behind what was there. */
  lemma TouchThenWait(s: State, t: Tid) returns (steps: seq<Step>, s': State)
    requires TicketInv(s) && s.parallel && t in s.threads && s.threads[t].at == TOUCH
    ensures LeadsCalmly(s, steps, s', t) && Leads(Next, s, steps, s') && Waiting(s, s', t)
  {
    assert ThreadOk(true, t, Look(s, t));
    var mid := Do(s, Go(t, false));
    GoMovesEntries(s, t, false);
    StepKeepsTickets(s, Go(t, false));
    GoMovesEntries(mid, t, false);
    StepKeepsTickets(mid, Go(t, false));
    steps, s' := [Go(t, false), Go(t, false)], Do(mid, Go(t, false));
    assert s.holders + {t} == s.holders;
    TwoSteps(OrderlyNext, s, Go(t, false), mid, Go(t, false), s');
    TwoSteps(QuietNext(t), s, Go(t, false), mid, Go(t, false), s');
    TwoSteps(Next, s, Go(t, false), mid, Go(t, false), s');
  }

  lemma TwoSteps(next: (State, Step) -> Option<State>, s: State, a: Step, mid: State, b: Step, s': State)
    requires next(s, a) == Some(mid) && next(mid, b) == Some(s')
    ensures Leads(next, s, [a, b], s')
  {
    LeadsOn(next, s, [], s, a);
    LeadsOn(next, s, [] + [a], mid, b);
    assert [] + [a] + [b] == [a, b];
  }

  /** Whatever a slot owes, in any state: an orderly continuation, with nobody interrupting the thread, brings it to the head. */
  lemma ForeignIfOwed(s: State, t: Tid, r: Req) returns (steps: seq<Step>, s': State)
    requires TicketInv(s) && s.parallel && t in s.threads && s.threads[t].at == TOUCH && OnBus(s, r) && r.slot == s.threads[t].slot
    ensures LeadsCalmly(s, steps, s', t) && GoesBy(s', t, s.threads[t].ticket)
    ensures s'.fifo[0].req.ticket != s.threads[t].ticket
  {
    var k := s.threads[t].ticket;
    var waiting;
    steps, waiting := TouchThenWait(s, t);
    assert Fresh(s, t);
    forall j | 0 <= j < |s.fifo| ensures s.fifo[j].req.ticket != k { assert OnBus(s, s.fifo[j].req); }
    if j :| 0 <= j < |s.fifo| && s.fifo[j].req == r {
      steps, s' := HeadReached(s, steps, waiting, t, k, j);
    } else {
      var j :| 0 <= j < |s.pend| && s.pend[j] == r;
      assert waiting.pend[j] == r;
      var answered := Do(waiting, Answer(j, false));
      StepKeepsTickets(waiting, Answer(j, false));
      CalmlyOn(s, steps, waiting, t, Answer(j, false));
      assert answered.fifo == s.fifo + [Resp(r, false)];
      steps, s' := HeadReached(s, steps + [Answer(j, false)], answered, t, k, |s.fifo|);
    }
  }

  // ---------------------------------------------------------------- the exact condition at the window access

  /** A continuation in which nobody pops between thread t's look and its own pop. */
  ghost predicate Continues(s: State, more: seq<Step>, s': State, t: Tid) {
    Leads(QuietNext(t), s, more, s')
  }

  /**
   The exact condition, at any window access of any run on the parallel bus, whatever
   timeouts and pops there were before: the thread goes by its own response, in every
   continuation in which no other thread pops between its look and its own pop, if
   and only if its slot owes nothing at that moment.
   */
  lemma OwnResponseIff(ss: seq<State>, steps: seq<Step>, i: nat, t: Tid)
    requires IsRun(ss, steps) && ss[0].parallel && i < |ss| && t in ss[i].threads && ss[i].threads[t].at == TOUCH
    ensures OwesNothing(ss[i], ss[i].threads[t].slot) <==>
            (forall more: seq<Step>, s' | Continues(ss[i], more, s', t) && GoesBy(s', t, ss[i].threads[t].ticket) ::
               s'.fifo[0].req == Own(t, s'.threads[t]))
  {
    var s := ss[i];
    RunKeepsTickets(ss, steps, i);
    if OwesNothing(s, s.threads[t].slot) {
      forall more: seq<Step>, s' | Continues(s, more, s', t) && GoesBy(s', t, s.threads[t].ticket)
        ensures s'.fifo[0].req == Own(t, s'.threads[t])
      {
        OwnIfNothingOwed(s, t, more, s');
      }
    } else {
      var r :| OnBus(s, r) && r.slot == s.threads[t].slot;
      var more, s' := ForeignIfOwed(s, t, r);
      assert Continues(s, more, s', t) && GoesBy(s', t, s.threads[t].ticket);
      assert s'.fifo[0].req != Own(t, s'.threads[t]);
    }
  }

  /** An orderly continuation. */
  ghost predicate ContinuesOrderly(s: State, more: seq<Step>, s': State) {
    Leads(OrderlyNext, s, more, s')
  }

  /** The same of orderly runs and their orderly continuations, in which nobody is ever interrupted. */
  lemma OrderlyResponseIff(ss: seq<State>, steps: seq<Step>, i: nat, t: Tid)
    requires OrderlyRun(ss, steps) && i < |ss| && t in ss[i].threads && ss[i].threads[t].at == TOUCH
    ensures OwesNothing(ss[i], ss[i].threads[t].slot) <==>
            (forall more: seq<Step>, s' | ContinuesOrderly(ss[i], more, s') && GoesBy(s', t, ss[i].threads[t].ticket) ::
               s'.fifo[0].req == Own(t, s'.threads[t]))
  {
    var s := ss[i];
    RunKeepsCalm(ss, steps, i);
    if OwesNothing(s, s.threads[t].slot) {
      forall more: seq<Step>, s' | ContinuesOrderly(s, more, s') && GoesBy(s', t, s.threads[t].ticket)
        ensures s'.fifo[0].req == Own(t, s'.threads[t])
      {
        OrderlyLeadsQuietly(s, more, s', t);
        OwnIfNothingOwed(s, t, more, s');
      }
    } else {
      var r :| OnBus(s, r) && r.slot == s.threads[t].slot;
      var more, s' := ForeignIfOwed(s, t, r);
      assert ContinuesOrderly(s, more, s') && GoesBy(s', t, s.threads[t].ticket);
      assert s'.fifo[0].req != Own(t, s'.threads[t]);
    }
  }

  // ---------------------------------------------------------------- the exact condition between the look and the pop

  /** Some thread takes the head off the FIFO. */
  predicate IsPop(s: State, step: Step) {
    step.Go? && step.t in s.threads && Pops(s.threads[step.t].at)
  }

  predicate NonePops(ss: seq<State>, steps: seq<Step>, i: nat, j: nat)
    requires i <= j <= |steps| < |ss|
  {
    forall n :: i <= n < j ==> !IsPop(ss[n], steps[n])
  }

  /** Nothing on the bus bears this ticket. */
  ghost predicate Gone(s: State, k: nat) {
    forall r :: OnBus(s, r) ==> r.ticket != k
  }

  /** Its own response is at the head, or else no longer on the bus. */
  ghost predicate AtHead(s: State, t: Tid)
    requires t in s.threads
  {
    s.fifo != [] && s.fifo[0].req == Own(t, s.threads[t])
  }

  lemma PopRemoves(s: State, u: Tid, nudge: bool, t: Tid)
    requires TicketInv(s) && Enabled(s, Go(u, nudge)) && Pops(s.threads[u].at) && t in s.threads && AtHead(s, t)
    ensures Gone(Do(s, Go(u, nudge)), s.threads[t].ticket)
  {
    GoMovesEntries(s, u, nudge);
    var s' := Do(s, Go(u, nudge));
    forall r | OnBus(s', r)
      ensures r.ticket != s.threads[t].ticket
    {
      if r in s'.pend {
        var i :| 0 <= i < |s.pend| && s.pend[i] == r;
        assert s.pend[i].ticket != s.fifo[0].req.ticket;
      } else {
        var j :| 0 <= j < |s'.fifo| && s'.fifo[j].req == r;
        assert s'.fifo[j] == s.fifo[j + 1];
      }
    }
  }

  /** Other threads' steps leave a waiting thread where it is, its response at the head unless they pop, and off the bus if it is. */
  lemma OthersStepHead(s: State, step: Step, t: Tid)
    requires TicketInv(s) && Enabled(s, step) && t in s.threads && s.threads[t].at == TAKE && (step.Go? ==> step.t != t)
    ensures t in Do(s, step).threads && Do(s, step).threads[t] == s.threads[t]
    ensures AtHead(s, t) && !IsPop(s, step) ==> AtHead(Do(s, step), t)
    ensures Gone(s, s.threads[t].ticket) ==> Gone(Do(s, step), s.threads[t].ticket)
  {
    assert Fresh(s, t);
    match step
    case Go(u, nudge) =>
      GoMovesEntries(s, u, nudge);
      forall r | OnBus(Do(s, step), r) && Gone(s, s.threads[t].ticket)
        ensures r.ticket != s.threads[t].ticket
      {
        GoKeepsOnBus(s, u, nudge, r);
      }
    case Call(_, _, _, _) =>
      forall r ensures OnBus(Do(s, step), r) <==> OnBus(s, r) { }
    case Answer(j, err) =>
      forall r ensures OnBus(Do(s, step), r) <==> OnBus(s, r) { AnswerKeepsOnBus(s, j, err, r); }
    case Swallow(j) =>
  }

  /** So its response stays at the head until a pop takes it away for good. */
  lemma HeadStaysOrLeaves(ss: seq<State>, steps: seq<Step>, j: nat, t: Tid, kept: bool)
    requires IsRun(ss, steps) && j < |steps| && (steps[j].Go? ==> steps[j].t != t)
    requires t in ss[j].threads && ss[j].threads[t].at == TAKE
    requires if kept then AtHead(ss[j], t) else Gone(ss[j], ss[j].threads[t].ticket)
    ensures t in ss[j + 1].threads && ss[j + 1].threads[t] == ss[j].threads[t]
    ensures if kept && !IsPop(ss[j], steps[j]) then AtHead(ss[j + 1], t) else Gone(ss[j + 1], ss[j].threads[t].ticket)
  {
    RunKeepsTickets(ss, steps, j);
    var s, step := ss[j], steps[j];
    OthersStepHead(s, step, t);
    if kept && IsPop(s, step) { PopRemoves(s, step.t, step.nudge, t); }
  }

  lemma NonePopsMore(ss: seq<State>, steps: seq<Step>, i: nat, j: nat)
    requires i < j <= |steps| < |ss|
    ensures NonePops(ss, steps, i, j) <==> NonePops(ss, steps, i, j - 1) && !IsPop(ss[j - 1], steps[j - 1])
  {
  }

  /** Thread t does nothing from i up to j. */
  predicate Rests(steps: seq<Step>, t: Tid, i: nat, j: nat)
    requires i <= j <= |steps|
  {
    forall n :: i <= n < j && steps[n].Go? ==> steps[n].t != t
  }

  lemma {:induction false} HeadStaysOrGoes(ss: seq<State>, steps: seq<Step>, i: nat, j: nat, t: Tid)
    requires IsRun(ss, steps) && i <= j < |ss| && t in ss[i].threads && ss[i].threads[t].at == TAKE && AtHead(ss[i], t)
    requires Rests(steps, t, i, j)
    ensures t in ss[j].threads && ss[j].threads[t] == ss[i].threads[t]
    ensures if NonePops(ss, steps, i, j) then AtHead(ss[j], t) else Gone(ss[j], ss[i].threads[t].ticket)
    decreases j
  {
    if j > i {
      HeadStaysOrGoes(ss, steps, i, j - 1, t);
      HeadStaysOrLeaves(ss, steps, j - 1, t, NonePops(ss, steps, i, j - 1));
      NonePopsMore(ss, steps, i, j);
    }
  }

  /**
   The exact condition between the look and the pop: a thread that has looked at its
   own response at the head still takes that response, whatever other threads do in
   the meantime, if and only if none of them pops.
   */
  lemma TakesOwnIff(ss: seq<State>, steps: seq<Step>, i: nat, j: nat, t: Tid, nudge: bool)
    requires IsRun(ss, steps) && ss[0].parallel && i <= j < |ss|
    requires t in ss[i].threads && ss[i].threads[t].at == TAKE && AtHead(ss[i], t) && Rests(steps, t, i, j)
    ensures Enabled(ss[j], Go(t, nudge))
    ensures Do(ss[j], Go(t, nudge)).threads[t].got == Some(Own(t, ss[i].threads[t])) <==> NonePops(ss, steps, i, j)
  {
    HeadStaysOrGoes(ss, steps, i, j, t);
    if !NonePops(ss, steps, i, j) && ss[j].fifo != [] { assert OnBus(ss[j], ss[j].fifo[0].req); }
  }

  lemma {:induction false} ClearStays(ss: seq<State>, steps: seq<Step>, i: nat, j: nat, t: Tid, k: nat)
    requires IsRun(ss, steps) && ss[0].parallel && i <= j < |ss| && t in ss[i].threads && Clear(ss[i], t, k)
    ensures t in ss[j].threads && Clear(ss[j], t, k)
    decreases j
  {
    if j > i {
      ClearStays(ss, steps, i, j - 1, t, k);
      RunKeepsTickets(ss, steps, j - 1);
      StepKeepsClear(ss[j - 1], steps[j - 1], t, k);
    }
  }

  /**
   A whole call, from a window access in i that found its slot owing nothing, over the
   look in l that it left its wait on, to the take in j: it takes its own response if
   and only if no other thread pops between the look and the take.  What others did
   before the look does not matter.
   */
  lemma CallTakesOwnIff(ss: seq<State>, steps: seq<Step>, i: nat, l: nat, j: nat, t: Tid, nudge: bool)
    requires IsRun(ss, steps) && ss[0].parallel && i <= l < j < |ss|
    requires t in ss[i].threads && ss[i].threads[t].at == TOUCH && OwesNothing(ss[i], ss[i].threads[t].slot)
    requires t in ss[l].threads && ss[l].threads[t].ticket == ss[i].threads[t].ticket && ss[l].threads[t].at == WAIT
    requires steps[l].Go? && steps[l].t == t && t in ss[l + 1].threads && ss[l + 1].threads[t].at == TAKE && ss[l + 1].threads[t].seen
    requires Rests(steps, t, l + 1, j)
    ensures Enabled(ss[j], Go(t, nudge))
    ensures Do(ss[j], Go(t, nudge)).threads[t].got == Some(Own(t, ss[l].threads[t])) <==> NonePops(ss, steps, l + 1, j)
  {
    RunKeepsTickets(ss, steps, i);
    assert Fresh(ss[i], t);
    ClearStays(ss, steps, i, l, t, ss[i].threads[t].ticket);
    RunKeepsTickets(ss, steps, l);
    GoMovesThread(ss[l], t, steps[l].nudge);
    GoMovesEntries(ss[l], t, steps[l].nudge);
    assert OnBus(ss[l], ss[l].fifo[0].req);
    TakesOwnIff(ss, steps, l + 1, j, t, nudge);
  }

  // ---------------------------------------------------------------- how the condition comes to hold or fail

  /** Up to the first timeout every step is orderly, and every window access finds its slot owing nothing. */
  lemma PunctualMeansClear(ss: seq<State>, steps: seq<Step>, i: nat, t: Tid)
    requires IsRun(ss, steps) && i < |ss| && ss[0].parallel && !ss[i].late
    requires t in ss[i].threads && ss[i].threads[t].at == TOUCH
    ensures OwesNothing(ss[i], ss[i].threads[t].slot)
    ensures forall step :: Orderly(ss[i], step)
  {
    var s := ss[i];
    RunKeepsReply(ss, steps, i);
    forall r | OnBus(s, r)
      ensures r.slot != s.threads[t].slot
    {
      if Owned(s, r) && r.slot == s.threads[t].slot { OneThreadPerSlot(s, t, r.owner); }
      if !Owned(s, r) { assert StaleHead(s) && r == s.fifo[0].req && ThreadOk(true, t, Look(s, t)); }
    }
    forall u | u in s.threads ensures !Blind(s.threads[u]) { assert HeadOk(s, u); }
  }

  /** Nobody's time is up. */
  ghost predicate NoneBlind(s: State) {
    forall t :: t in s.threads ==> !Blind(s.threads[t])
  }

  lemma PatientStaysSighted(s: State, step: Step)
    requires Inv(s) && s.parallel && NoneBlind(s) && Enabled(s, step) && (step.Go? ==> !step.nudge)
    ensures NoneBlind(Do(s, step)) && Orderly(s, step)
  {
    if step.Go? { assert ThreadOk(true, step.t, Look(s, step.t)); }
  }

  /** With nobody's time up, and no timeout, every step is orderly. */
  lemma {:induction false} PatientIsOrderly(s: State, steps: seq<Step>, s': State)
    requires Inv(s) && s.parallel && NoneBlind(s) && Leads(Next, s, steps, s') && Patient(steps)
    ensures Leads(OrderlyNext, s, steps, s')
    decreases |steps|
  {
    if steps != [] {
      PatientStaysSighted(s, steps[0]);
      StepKeepsInv(s, steps[0]);
      PatientIsOrderly(Do(s, steps[0]), steps[1..], s');
    }
  }

  lemma InitHasTickets(s: State)
    requires Init(s)
    ensures TicketInv(s)
  {
    RunKeepsTickets([s], [], 0);
  }

  /** A read that times out with nothing in the FIFO leaves its request on the bus and its locks free. */
  lemma AbandonsRequest(s: State, t: Tid)
    requires TicketInv(s) && s.parallel && t in s.threads && s.threads[t].at == WAIT && !s.threads[t].isWrite && s.fifo == []
    ensures Enabled(s, Go(t, true)) && Orderly(s, Go(t, true))
    ensures var mid := Do(s, Go(t, true)); Enabled(mid, Go(t, false)) && Orderly(mid, Go(t, false))
    ensures var s' := Do(Do(s, Go(t, true)), Go(t, false));
      && TicketInv(s') && s'.parallel && s'.threads.Keys == s.threads.Keys && s'.threads[t].at == IDLE
      && s'.pend == s.pend && s'.fifo == [] && s'.bus == s.bus && s'.holders == s.holders - {t}
  {
    var mid := Do(s, Go(t, true));
    assert ThreadOk(true, t, Look(s, t));
    StepKeepsTickets(s, Go(t, true));
    StepKeepsTickets(mid, Go(t, false));
  }

  /** Thread t is idle after giving up on a read of this slot; the request is still on the bus. */
  ghost predicate GaveUp(s: State, t: Tid, slot: nat) {
    && TicketInv(s) && s.parallel && t in s.threads && s.threads[t].at == IDLE && s.bus == NOBODY && s.holders == {} && s.fifo == []
    && |s.pend| == 1 && s.pend[0].slot == slot
  }

  lemma GivesUpOnRead(s: State, t: Tid, slot: nat, addr: nat) returns (steps: seq<Step>, s': State)
    requires Init(s) && s.parallel && t in s.threads && slot < NUM_SLOTS
    ensures Leads(OrderlyNext, s, steps, s') && GaveUp(s', t, slot)
  {
    InitHasTickets(s);
    var a, touching := UpToTouch(s, t, slot, addr);
    PatientIsOrderly(s, a, touching);
    var w, waiting := TouchThenWait(touching, t);
    LeadsThen(OrderlyNext, s, a, touching, w, waiting);
    AbandonsRequest(waiting, t);
    var mid := Do(waiting, Go(t, true));
    s' := Do(mid, Go(t, false));
    LeadsOn(OrderlyNext, s, a + w, waiting, Go(t, true));
    LeadsOn(OrderlyNext, s, a + w + [Go(t, true)], mid, Go(t, false));
    steps := a + w + [Go(t, true)] + [Go(t, false)];
    assert s'.pend == [Own(t, waiting.threads[t])];
  }

  lemma NobodyHolds(s: State)
    requires Inv(s) && s.parallel && s.holders == {}
    ensures NoneBlind(s)
  {
    forall t | t in s.threads ensures !Blind(s.threads[t]) { assert ThreadOk(true, t, Look(s, t)); }
  }

  /** The failing side is real: from any start, on any slot, a thread that once gave up can come to go by the response it gave up on. */
  lemma ForeignResponseHappens(s: State, t: Tid, slot: nat, addr: nat) returns (steps: seq<Step>, s': State)
    requires Init(s) && s.parallel && t in s.threads && slot < NUM_SLOTS
    ensures Leads(OrderlyNext, s, steps, s') && t in s'.threads && GoesBy(s', t, s'.threads[t].ticket)
    ensures s'.fifo[0].req != Own(t, s'.threads[t])
  {
    var a, idle := GivesUpOnRead(s, t, slot, addr);
    var b, touching := UpToTouch(idle, t, slot, addr);
    NobodyHolds(idle);
    PatientIsOrderly(idle, b, touching);
    LeadsThen(OrderlyNext, s, a, idle, b, touching);
    var c;
    c, s' := ForeignIfOwed(touching, t, touching.pend[0]);
    LeadsThen(OrderlyNext, s, a + b, touching, c, s');
    steps := a + b + c;
  }

  /** Two reads wait for their answers, the only ones on the bus. */
  ghost predicate BothWait(s: State, t: Tid, u: Tid) {
    && TicketInv(s) && s.parallel && t in s.threads && u in s.threads && t != u && s.fifo == []
    && s.threads[t].at == WAIT && s.threads[u].at == WAIT && s.threads[t].slot != s.threads[u].slot
    && !s.threads[t].isWrite && s.pend == [Own(t, s.threads[t]), Own(u, s.threads[u])]
  }

  /** A read on slot 0 waits for its answer, the only one on the bus. */
  ghost predicate OneWaits(s: State, t: Tid) {
    && TicketInv(s) && s.parallel && t in s.threads && s.fifo == [] && s.bus == NOBODY && s.holders == {t}
    && s.threads[t].at == WAIT && s.threads[t].slot == 0 && !s.threads[t].isWrite && s.pend == [Own(t, s.threads[t])]
  }

  lemma FirstRead(s: State, t: Tid) returns (a: seq<Step>, touching: State, b: seq<Step>, s': State)
    requires Init(s) && s.parallel && t in s.threads
    ensures Leads(OrderlyNext, s, a, touching) && t in touching.threads && touching.threads[t].at == TOUCH
    ensures OwesNothing(touching, touching.threads[t].slot)
    ensures Leads(Next, touching, b, s') && OneWaits(s', t) && s'.threads[t].ticket == touching.threads[t].ticket
    ensures s'.threads.Keys == s.threads.Keys && forall u :: u in s.threads && u != t ==> s'.threads[u].at == IDLE
  {
    InitHasTickets(s);
    a, touching := UpToTouch(s, t, 0, 0);
    PatientIsOrderly(s, a, touching);
    b, s' := TouchThenWait(touching, t);
    assert touching.pend == [] && touching.fifo == [];
  }

  lemma SecondRead(s: State, t: Tid, u: Tid) returns (b: seq<Step>, s': State)
    requires OneWaits(s, t) && u in s.threads && u != t && s.threads[u].at == IDLE
    ensures Leads(Next, s, b, s') && BothWait(s', t, u) && s'.threads[t].ticket == s.threads[t].ticket
  {
    var a, touching := UpToTouch(s, u, 1, 0);
    b, s' := TouchThenWait(touching, u);
    LeadsThen(Next, s, a, touching, b, s');
    b := a + b;
    assert s'.threads[t] == s.threads[t];
  }

  lemma FirstAnswered(s: State)
    requires s.parallel && s.pend != []
    ensures Enabled(s, Answer(0, false))
    ensures Do(s, Answer(0, false)) == s.(pend := s.pend[1..], fifo := s.fifo + [Resp(s.pend[0], false)])
  {
    assert s.pend[..0] + s.pend[1..] == s.pend[1..];
  }

  /** Both are answered, in order. */
  lemma BothAnswered(s: State, t: Tid, u: Tid) returns (steps: seq<Step>, s': State)
    requires BothWait(s, t, u)
    ensures Leads(Next, s, steps, s') && s'.threads == s.threads && s'.parallel
    ensures s'.fifo == [Resp(Own(t, s.threads[t]), false), Resp(Own(u, s.threads[u]), false)]
  {
    FirstAnswered(s);
    var s1 := Do(s, Answer(0, false));
    FirstAnswered(s1);
    s' := Do(s1, Answer(0, false));
    LeadsOn(Next, s, [], s, Answer(0, false));
    LeadsOn(Next, s, [] + [Answer(0, false)], s1, Answer(0, false));
    steps := [] + [Answer(0, false)] + [Answer(0, false)];
  }

  /** The second gives up, the first sees its response, the second pops it, and the first takes what comes next. */
  lemma Overtaken(s: State, t: Tid, u: Tid, rt: Req, ru: Req)
    requires s.parallel && t in s.threads && u in s.threads && t != u && s.fifo == [Resp(rt, false), Resp(ru, false)]
    requires s.threads[t].at == WAIT && s.threads[u].at == WAIT && !s.threads[t].isWrite
    requires rt.slot == s.threads[t].slot && rt.slot != s.threads[u].slot
    ensures var s1 := Do(s, Go(u, true)); var s2 := Do(s1, Go(t, false)); var s3 := Do(s2, Go(u, true)); var s' := Do(s3, Go(t, false));
      && Enabled(s, Go(u, true)) && Enabled(s1, Go(t, false)) && Enabled(s2, Go(u, true)) && Enabled(s3, Go(t, false))
      && t in s'.threads && s'.threads[t].ticket == s.threads[t].ticket && s'.threads[t].slot == s.threads[t].slot
      && s'.threads[t].ok && s'.threads[t].got == Some(ru)
  {
    var s1 := Do(s, Go(u, true));
    assert s1.threads[u].at == LATE_POP && s1.fifo == s.fifo && s1.threads[t] == s.threads[t];
    var s2 := Do(s1, Go(t, false));
    assert s2.threads[t].at == TAKE && s2.threads[t].ok && s2.fifo == s.fifo && s2.threads[u].at == LATE_POP;
    var s3 := Do(s2, Go(u, true));
    assert s3.fifo == [Resp(ru, false)] && s3.threads[t] == s2.threads[t];
  }

  /**
   It happens: a blind pop by a thread of another slot, between the look and the pop
   of a thread whose slot owed nothing, makes the latter take a response from the
   other slot, and report success.
   */
  lemma BlindPopMisleads(s: State, t: Tid, u: Tid) returns (a: seq<Step>, touching: State, b: seq<Step>, s': State)
    requires Init(s) && s.parallel && t in s.threads && u in s.threads && t != u
    ensures Leads(OrderlyNext, s, a, touching) && t in touching.threads && touching.threads[t].at == TOUCH
    ensures OwesNothing(touching, touching.threads[t].slot)
    ensures Leads(Next, touching, b, s') && t in s'.threads && s'.threads[t].ticket == touching.threads[t].ticket
    ensures s'.threads[t].ok && s'.threads[t].got.Some? && s'.threads[t].got.value.slot != s'.threads[t].slot
  {
    var first, waiting, c, answered;
    a, touching, b, first := FirstRead(s, t);
    c, waiting := SecondRead(first, t, u);
    LeadsThen(Next, touching, b, first, c, waiting);
    b := b + c;
    c, answered := BothAnswered(waiting, t, u);
    LeadsThen(Next, touching, b, waiting, c, answered);
    b := b + c;
    Overtaken(answered, t, u, Own(t, waiting.threads[t]), Own(u, waiting.threads[u]));
    b, s' := FourMore(touching, b, answered, Go(u, true), Go(t, false), Go(u, true), Go(t, false));
  }

  lemma FourMore(s: State, steps: seq<Step>, mid: State, a: Step, b: Step, c: Step, d: Step) returns (all: seq<Step>, s': State)
    requires Leads(Next, s, steps, mid) && Enabled(mid, a) && Enabled(Do(mid, a), b) && Enabled(Do(Do(mid, a), b), c)
    requires Enabled(Do(Do(Do(mid, a), b), c), d)
    ensures Leads(Next, s, all, s') && s' == Do(Do(Do(Do(mid, a), b), c), d)
  {
    LeadsOn(Next, s, steps, mid, a);
    LeadsOn(Next, s, steps + [a], Do(mid, a), b);
    LeadsOn(Next, s, steps + [a] + [b], Do(Do(mid, a), b), c);
    LeadsOn(Next, s, steps + [a] + [b] + [c], Do(Do(Do(mid, a), b), c), d);
    all, s' := steps + [a] + [b] + [c] + [d], Do(Do(Do(Do(mid, a), b), c), d);
  }
}
