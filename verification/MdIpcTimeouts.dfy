/**
 What a timeout leads to on the shared-memory channels: an answer that comes late
 is taken by the channel's next user, or strands the channel for good.  Each
 failure is shown to happen in a run that starts from idle threads.
 */
module MdIpcTimeouts {
  import opened Wrappers
  import opened MdIpc
  import opened Runs

  /** The step function of its runs. */
  ghost function Next(s: State, step: Step): Option<State> {
    if Enabled(s, step) then Some(Do(s, step)) else None
  }

  // ---------------------------------------------------------------- one thread at work

  /** Thread t is the only one that is not idle, and the locks are free. */
  ghost predicate Alone(s: State, t: Tid) {
    && Inv(s) && t in s.threads && s.fileLock == None && s.procs[s.threads[t].pid].lock == NOBODY
    && forall u :: u in s.threads && u != t ==> s.threads[u].at == IDLE
  }

  /** Past the allocator, thread t can always go on, and stays alone. */
  lemma GoesOnAlone(s: State, t: Tid)
    requires Alone(s, t) && s.threads[t].at >= GET_MSG_ID
    ensures Enabled(s, Go(t)) && Alone(Do(s, Go(t)), t)
    ensures Do(s, Go(t)).jobs == s.jobs && Do(s, Go(t)).nextTicket == s.nextTicket
  {
    StepKeepsInv(s, Go(t));
  }

  /** Channel c is free, and no channel before it looks so. */
  ghost predicate FirstFree(s: State, c: nat) {
    && Shape(s) && c < NUM_CHANNELS && s.chans[c].own == OWN_NOS && s.chans[c].ownerId == 0
    && forall j :: 0 <= j < c ==> s.chans[j].own != OWN_NOS
  }

  /** All channels but c are as they were. */
  ghost predicate OnlyChannel(s: State, s': State, c: nat) {
    && Shape(s) && Shape(s')
    && forall j :: 0 <= j < NUM_CHANNELS && j != c ==> s'.chans[j] == s.chans[j] && s'.jobs[j] == s.jobs[j]
  }

  const CLAIM: seq<Label> := [TAKE_T, TAKE_P, READ_OWN, READ_ID, READ_USE, PUT_PREP, PUT_ID, PUT_USE, DROP_P_HIT, DROP_T_HIT,
                              GET_MSG_ID, PUT_MSG_ID, PUT_TID, PUT_REQUEST]

  /** After the call in s, thread t is k labels into claiming channel c, and looking at channel j. */
  ghost predicate Claiming(s: State, s': State, t: Tid, op: Op, data: Data, c: nat, j: nat, k: nat)
    requires k <= 13
  {
    && Inv(s') && t in s'.threads && s'.jobs == s.jobs && s'.nextTicket == s.nextTicket + 1 && OnlyChannel(s, s', c)
    && (forall u :: u in s'.threads && u != t ==> s'.threads[u].at == IDLE)
    && s'.threads[t].at == CLAIM[k] && s'.threads[t].ticket == s.nextTicket && s'.threads[t].op == op && s'.threads[t].data == data
    && (k >= 2 ==> s'.threads[t].ch == j <= c)
    && (k > 2 ==> j == c)
    && (k <= 5 ==> s'.chans == s.chans)
    && (k == 0 || k >= 10 ==> s'.procs[s'.threads[t].pid].lock == NOBODY)
    && (k <= 1 || k >= 9 ==> s'.fileLock == None)
  }

  /** Channels that do not look free are passed over. */
  lemma SearchesOn(s: State, s': State, t: Tid, op: Op, data: Data, c: nat, j: nat)
    requires FirstFree(s, c) && j < c && Claiming(s, s', t, op, data, c, j, 2)
    ensures Enabled(s', Go(t)) && Claiming(s, Do(s', Go(t)), t, op, data, c, j + 1, 2)
  {
    StepKeepsInv(s', Go(t));
  }

  /** Up to the first write the words of the channels stay as they were. */
  lemma LooksOn(s: State, s': State, t: Tid, op: Op, data: Data, c: nat, j: nat, k: nat)
    requires FirstFree(s, c) && k < 5 && Claiming(s, s', t, op, data, c, j, k) && j == (if k < 2 then 0 else c)
    ensures Enabled(s', Go(t)) && Claiming(s, Do(s', Go(t)), t, op, data, c, j, k + 1)
  {
    StepKeepsInv(s', Go(t));
  }

  lemma WritesOn(s: State, s': State, t: Tid, op: Op, data: Data, c: nat, k: nat)
    requires FirstFree(s, c) && 5 <= k < 13 && Claiming(s, s', t, op, data, c, c, k)
    ensures Enabled(s', Go(t)) && Claiming(s, Do(s', Go(t)), t, op, data, c, c, k + 1)
  {
    StepKeepsInv(s', Go(t));
  }

  lemma ClaimsOn(s: State, s': State, t: Tid, op: Op, data: Data, c: nat, j: nat, k: nat)
    requires FirstFree(s, c) && k < 13 && Claiming(s, s', t, op, data, c, j, k) && j == (if k < 2 then 0 else c)
    ensures Enabled(s', Go(t)) && Claiming(s, Do(s', Go(t)), t, op, data, c, j, k + 1)
  {
    if k < 5 { LooksOn(s, s', t, op, data, c, j, k); } else { WritesOn(s, s', t, op, data, c, k); }
  }

  lemma OneMoreClaim(s: State, steps: seq<Step>, mid: State, t: Tid, op: Op, data: Data, c: nat, j: nat, k: nat) returns (more: seq<Step>, next: State)
    requires Leads(Next, s, steps, mid) && PeerAnswersRequests(steps) && FirstFree(s, c)
    requires k < 13 && Claiming(s, mid, t, op, data, c, j, k) && j == (if k < 2 then 0 else c)
    ensures Leads(Next, s, more, next) && PeerAnswersRequests(more) && Claiming(s, next, t, op, data, c, j, k + 1)
  {
    ClaimsOn(s, mid, t, op, data, c, j, k);
    LeadsOn(Next, s, steps, mid, Go(t));
    more, next := steps + [Go(t)], Do(mid, Go(t));
  }

  /** Alone and idle, with channel c the first free, a thread gets to start its search. */
  lemma StartsSearch(s: State, t: Tid, op: Op, data: Data, c: nat) returns (steps: seq<Step>, s': State)
    requires Alone(s, t) && s.threads[t].at == IDLE && FirstFree(s, c)
    ensures Leads(Next, s, steps, s') && PeerAnswersRequests(steps) && Claiming(s, s', t, op, data, c, 0, 2)
  {
    LeadsOn(Next, s, [], s, Call(t, op, data));
    StepKeepsInv(s, Call(t, op, data));
    steps, s' := [] + [Call(t, op, data)], Do(s, Call(t, op, data));
    for k := 0 to 2
      invariant Leads(Next, s, steps, s') && PeerAnswersRequests(steps) && Claiming(s, s', t, op, data, c, 0, k)
    {
      steps, s' := OneMoreClaim(s, steps, s', t, op, data, c, 0, k);
    }
  }

  /** To come to the free channel. */
  lemma FindsChannel(s: State, t: Tid, op: Op, data: Data, c: nat) returns (steps: seq<Step>, s': State)
    requires Alone(s, t) && s.threads[t].at == IDLE && FirstFree(s, c)
    ensures Leads(Next, s, steps, s') && PeerAnswersRequests(steps) && Claiming(s, s', t, op, data, c, c, 2)
  {
    steps, s' := StartsSearch(s, t, op, data, c);
    for j := 0 to c
      invariant Leads(Next, s, steps, s') && PeerAnswersRequests(steps) && Claiming(s, s', t, op, data, c, j, 2)
    {
      SearchesOn(s, s', t, op, data, c, j);
      LeadsOn(Next, s, steps, s', Go(t));
      steps, s' := steps + [Go(t)], Do(s', Go(t));
    }
  }

  /** And to go on up to writing its request. */
  lemma TakesChannel(s: State, t: Tid, op: Op, data: Data, c: nat) returns (steps: seq<Step>, s': State)
    requires Alone(s, t) && s.threads[t].at == IDLE && FirstFree(s, c)
    ensures Leads(Next, s, steps, s') && PeerAnswersRequests(steps) && Claiming(s, s', t, op, data, c, c, 13)
  {
    steps, s' := FindsChannel(s, t, op, data, c);
    for k := 2 to 13
      invariant Leads(Next, s, steps, s') && PeerAnswersRequests(steps) && Claiming(s, s', t, op, data, c, c, k)
    {
      steps, s' := OneMoreClaim(s, steps, s', t, op, data, c, c, k);
    }
  }

  lemma ClaimsChannel(s: State, t: Tid, op: Op, data: Data, c: nat) returns (steps: seq<Step>, s': State)
    requires Alone(s, t) && s.threads[t].at == IDLE && FirstFree(s, c)
    ensures Leads(Next, s, steps, s') && Alone(s', t) && PeerAnswersRequests(steps)
    ensures s'.threads[t].at == PUT_REQUEST && s'.threads[t].ch == c && s'.threads[t].ticket == s.nextTicket
    ensures s'.threads[t].op == op && s'.threads[t].data == data
    ensures s'.jobs == s.jobs && s'.nextTicket == s.nextTicket + 1 && OnlyChannel(s, s', c)
  {
    steps, s' := TakesChannel(s, t, op, data, c);
  }

  // ---------------------------------------------------------------- posting, and giving up

  /** Thread t is k steps past the writing of its request in s; nothing else has happened. */
  ghost predicate Posting(s: State, s': State, t: Tid, k: nat)
    requires k <= 4 && t in s.threads
  {
    && Inv(s') && t in s'.threads && s'.threads[t].at == PUT_REQUEST + k && s'.threads[t].ch == s.threads[t].ch
    && s'.threads[t].ticket == s.threads[t].ticket && Posts(s'.threads[t]) && OnlyChannel(s, s', s.threads[t].ch)
    && s'.jobs == s.jobs && s'.nextTicket == s.nextTicket && (Alone(s, t) ==> Alone(s', t))
    && (k >= 1 ==> s'.chans[s.threads[t].ch].body == Request(s.threads[t].ticket))
    && (k >= 2 ==> s'.chans[s.threads[t].ch].own == OWN_NDK)
    && (k == 4 ==> s'.threads[t].num == 0)
  }

  lemma PostsOn(s: State, s': State, t: Tid, k: nat)
    requires k < 4 && t in s.threads && Posting(s, s', t, k)
    ensures Enabled(s', Go(t)) && Posting(s, Do(s', Go(t)), t, k + 1)
  {
    StepKeepsInv(s', Go(t));
    if Alone(s, t) { GoesOnAlone(s', t); }
  }

  /** Writing the request, handing it over and counting it leaves a thread polling, its request posted. */
  lemma PostsRequest(s: State, t: Tid) returns (steps: seq<Step>, s': State)
    requires Inv(s) && t in s.threads && s.threads[t].at == PUT_REQUEST && Posts(s.threads[t])
    ensures Leads(Next, s, steps, s') && PeerAnswersRequests(steps) && Posting(s, s', t, 4)
  {
    steps, s' := [], s;
    for k := 0 to 4
      invariant Leads(Next, s, steps, s') && PeerAnswersRequests(steps) && Posting(s, s', t, k)
    {
      PostsOn(s, s', t, k);
      LeadsOn(Next, s, steps, s', Go(t));
      steps, s' := steps + [Go(t)], Do(s', Go(t));
    }
  }

  const GIVE_UP: seq<Label> := [POLL, LOAD_END, STORE_END, FREE_CHECK, FREE_USE, FREE_ID, FREE_OWN, IDLE]

  /** Thread t is k steps past its last poll in s; nothing else has happened. */
  ghost predicate GivingUp(s: State, s': State, t: Tid, k: nat)
    requires k <= 7 && t in s.threads
  {
    && Inv(s') && t in s'.threads && s'.threads[t].at == GIVE_UP[k] && s'.threads[t].ch == s.threads[t].ch
    && OnlyChannel(s, s', s.threads[t].ch) && s'.jobs == s.jobs && s'.nextTicket == s.nextTicket && (Alone(s, t) ==> Alone(s', t))
    && (k == 0 ==> s' == s)
    && (0 < k < 3 ==> s'.threads[t].k.Timeouts?)
    && (k >= 6 ==> s'.chans[s.threads[t].ch].ownerId == 0)
    && (k == 7 ==> s'.chans[s.threads[t].ch].own == OWN_NOS && s'.holder[s.threads[t].ch] == NOBODY)
  }

  lemma GivesUpOn(s: State, s': State, t: Tid, k: nat)
    requires t in s.threads && s.threads[t].at == POLL && s.threads[t].num == MAX_POLLS && Inv(s) && s.chans[s.threads[t].ch].own == OWN_NDK
    requires k < 7 && GivingUp(s, s', t, k)
    ensures Enabled(s', Go(t)) && GivingUp(s, Do(s', Go(t)), t, k + 1)
  {
    StepKeepsInv(s', Go(t));
    if Alone(s, t) { GoesOnAlone(s', t); }
  }

  /**
   Giving up after the last poll frees the channel for the next user while the
   peer still owes the answer.
   */
  lemma GivingUpLeavesDebt(s: State, t: Tid) returns (steps: seq<Step>, s': State)
    requires Inv(s) && t in s.threads && s.threads[t].at == POLL && s.threads[t].num == MAX_POLLS
    requires s.chans[s.threads[t].ch].own == OWN_NDK
    ensures Leads(Next, s, steps, s') && PeerAnswersRequests(steps) && GivingUp(s, s', t, 7)
    ensures var c := s.threads[t].ch;
            s'.chans[c].own == OWN_NOS && s'.chans[c].ownerId == 0 && s'.holder[c] == NOBODY && s'.jobs == s.jobs
  {
    steps, s' := [], s;
    for k := 0 to 7
      invariant Leads(Next, s, steps, s') && PeerAnswersRequests(steps) && GivingUp(s, s', t, k)
    {
      GivesUpOn(s, s', t, k);
      LeadsOn(Next, s, steps, s', Go(t));
      steps, s' := steps + [Go(t)], Do(s', Go(t));
    }
  }

  // ---------------------------------------------------------------- the late answer taken

  /** The peer, if it has not done so, answers the request it once picked up, and signals. */
  lemma PeerSignals(s: State, c: nat) returns (steps: seq<Step>, s': State)
    requires Inv(s) && c < NUM_CHANNELS && !s.jobs[c].NoJob?
    ensures Leads(Next, s, steps, s') && PeerAnswersRequests(steps) && Inv(s') && s'.threads == s.threads
    ensures s'.chans[c].own == OWN_NOS_RSP && (s'.chans[c].body == s.chans[c].body || TicketOf(s'.chans[c].body) == s.jobs[c].ticket)
  {
    steps, s' := [], s;
    if s.jobs[c].Picked? {
      LeadsOn(Next, s, steps, s', NdkAnswer(c, RSP_SUCCESS));
      StepKeepsInv(s', NdkAnswer(c, RSP_SUCCESS));
      steps, s' := steps + [NdkAnswer(c, RSP_SUCCESS)], Do(s', NdkAnswer(c, RSP_SUCCESS));
    }
    LeadsOn(Next, s, steps, s', NdkSignal(c));
    StepKeepsInv(s', NdkSignal(c));
    steps, s' := steps + [NdkSignal(c)], Do(s', NdkSignal(c));
  }

  /**
   If the peer still owes an answer to another request when a thread writes its own,
   the same call of the thread can be made to take something that is not its answer:
   the peer's late words pass for a reply.
   */
  lemma LateAnswerCanBeTaken(s: State, t: Tid) returns (steps: seq<Step>, s': State)
    requires Inv(s) && t in s.threads && s.threads[t].at == PUT_REQUEST && Posts(s.threads[t])
    requires var job := s.jobs[s.threads[t].ch]; !job.NoJob? && job.ticket != s.threads[t].ticket
    ensures Leads(Next, s, steps, s') && PeerAnswersRequests(steps)
    ensures t in s'.threads && s'.threads[t].at == READ_STATUS && s'.threads[t].ch < |s'.chans|
    ensures s'.threads[t].ticket == s.threads[t].ticket && !IsAnswerTo(s'.chans[s'.threads[t].ch].body, s'.threads[t].ticket)
  {
    var a, posted := PostsRequest(s, t);
    var b, signalled := PeerSignals(posted, s.threads[t].ch);
    LeadsThen(Next, s, a, posted, b, signalled);
    LeadsOn(Next, s, a + b, signalled, Go(t));
    steps, s' := a + b + [Go(t)], Do(signalled, Go(t));
  }

  /** With the peer slow to answer, a thread alone polls to the limit. */
  lemma PollsInVain(s: State, t: Tid) returns (steps: seq<Step>, s': State)
    requires Alone(s, t) && s.threads[t].at == POLL && s.threads[t].num == 0 && s.chans[s.threads[t].ch].own == OWN_NDK
    ensures Leads(Next, s, steps, s') && PeerAnswersRequests(steps) && Alone(s', t)
    ensures s'.threads[t].at == POLL && s'.threads[t].num == MAX_POLLS && s'.threads[t].ch == s.threads[t].ch
    ensures s'.chans == s.chans && s'.jobs == s.jobs && s'.nextTicket == s.nextTicket
  {
    steps, s' := [], s;
    for k := 0 to MAX_POLLS
      invariant Leads(Next, s, steps, s') && PeerAnswersRequests(steps) && Alone(s', t)
      invariant s'.threads[t].at == POLL && s'.threads[t].num == k && s'.threads[t].ch == s.threads[t].ch
      invariant s'.chans == s.chans && s'.jobs == s.jobs && s'.nextTicket == s.nextTicket
    {
      GoesOnAlone(s', t);
      LeadsOn(Next, s, steps, s', Go(t));
      steps, s' := steps + [Go(t)], Do(s', Go(t));
    }
  }

  /** All threads are idle, channel c is the first free, and the peer owes nothing on it. */
  ghost predicate Ready(s: State, t: Tid, c: nat) {
    Alone(s, t) && s.threads[t].at == IDLE && FirstFree(s, c) && s.jobs[c].NoJob?
  }

  /** Channel c has been given up on and is free, its answer still owed; thread t is idle. */
  ghost predicate Owing(s: State, t: Tid, c: nat, ticket: nat) {
    && Alone(s, t) && s.threads[t].at == IDLE && s.nextTicket > ticket
    && FirstFree(s, c) && s.holder[c] == NOBODY && s.jobs[c] == Picked(ticket)
  }

  lemma PickedUp(s: State, t: Tid, c: nat)
    requires Alone(s, t) && s.threads[t].at == POLL && s.threads[t].ch == c && s.chans[c].own == OWN_NDK && s.jobs[c].NoJob?
    requires s.chans[c].body == Request(s.threads[t].ticket)
    ensures Enabled(s, NdkPickup(c))
    ensures var s' := Do(s, NdkPickup(c));
            Alone(s', t) && s'.threads == s.threads && s'.chans == s.chans && s'.nextTicket == s.nextTicket
            && s'.jobs == s.jobs[c := Picked(s.threads[t].ticket)]
  {
    StepKeepsInv(s, NdkPickup(c));
  }

  /** A request picked up by the peer, from idle threads and a free channel. */
  lemma GetsPickedUp(s: State, t: Tid, c: nat) returns (steps: seq<Step>, s': State)
    requires Ready(s, t, c)
    ensures Leads(Next, s, steps, s') && PeerAnswersRequests(steps) && Alone(s', t) && OnlyChannel(s, s', c)
    ensures s'.threads[t].at == POLL && s'.threads[t].num == 0 && s'.threads[t].ch == c && s'.chans[c].own == OWN_NDK
    ensures s'.jobs[c] == Picked(s.nextTicket) && s'.nextTicket == s.nextTicket + 1
  {
    var a, claimed := ClaimsChannel(s, t, Read, Missing, c);
    var b, posted := PostsRequest(claimed, t);
    PickedUp(posted, t, c);
    s' := Do(posted, NdkPickup(c));
    LeadsOn(Next, claimed, b, posted, NdkPickup(c));
    LeadsThen(Next, s, a, claimed, b + [NdkPickup(c)], s');
    steps := a + (b + [NdkPickup(c)]);
  }

  /** And not answered in time, and given up on. */
  lemma TimesOut(s: State, t: Tid, c: nat) returns (steps: seq<Step>, s': State)
    requires Ready(s, t, c)
    ensures Leads(Next, s, steps, s') && PeerAnswersRequests(steps) && Owing(s', t, c, s.nextTicket) && OnlyChannel(s, s', c)
  {
    var a, picked := GetsPickedUp(s, t, c);
    var b, polled := PollsInVain(picked, t);
    LeadsThen(Next, s, a, picked, b, polled);
    var d;
    d, s' := GivingUpLeavesDebt(polled, t);
    LeadsThen(Next, s, a + b, polled, d, s');
    steps := a + b + d;
  }

  /** It happens: from idle threads, with a peer that answers only what it picked up, a thread comes to read an answer that is not its own. */
  lemma LateAnswerHappens(s: State, t: Tid, c: nat) returns (steps: seq<Step>, s': State)
    requires Init(s) && t in s.threads && FirstFree(s, c)
    ensures Leads(Next, s, steps, s') && PeerAnswersRequests(steps)
    ensures t in s'.threads && s'.threads[t].at == READ_STATUS && s'.threads[t].ch < |s'.chans|
    ensures !IsAnswerTo(s'.chans[s'.threads[t].ch].body, s'.threads[t].ticket)
  {
    InitEstablishesInv(s);
    var a, owing := TimesOut(s, t, c);
    var b, claimed := ClaimsChannel(owing, t, Read, Missing, c);
    LeadsThen(Next, s, a, owing, b, claimed);
    var d;
    d, s' := LateAnswerCanBeTaken(claimed, t);
    LeadsThen(Next, s, a + b, claimed, d, s');
    steps := a + b + d;
  }

  // ---------------------------------------------------------------- the channel stranded

  /** Nobody works on the channel: it is free, or was left by a call that raised. */
  predicate Unheld(holder: int) {
    holder == NOBODY || holder == LOST
  }

  /** Some thread has seen the channel free and is about to claim it. */
  ghost predicate Eyed(s: State, c: nat) {
    exists t :: t in s.threads && s.threads[t].ch == c && Eyes(s.threads[t].at)
  }

  /** Nobody holds the channel or is about to claim it, and its owner word is not "free". */
  ghost predicate Stranded(s: State, c: nat) {
    Shape(s) && c < NUM_CHANNELS && Unheld(s.holder[c]) && s.chans[c].own != OWN_NOS && !Eyed(s, c)
  }

  /** A thread that works on a stranded channel neither claims it nor comes to eye it. */
  lemma PassesBy(t: Tid, v: View)
    requires t != NOBODY && CanGo(v) && PlaceOk(t, v) && Unheld(v.holder) && v.chan.own != OWN_NOS && !Eyes(v.th.at)
    ensures StepOf(t, v).holder == v.holder && StepOf(t, v).chan == v.chan && !Eyes(StepOf(t, v).th.at)
  {
  }

  lemma GoKeepsStranded(s: State, t: Tid, c: nat)
    requires Inv(s) && Enabled(s, Go(t)) && Stranded(s, c)
    ensures Stranded(Do(s, Go(t)), c)
  {
    LookIsOk(s, t);
    StepIsGood(t, Look(s, t));
    if s.threads[t].ch == c { PassesBy(t, Look(s, t)); }
  }

  lemma StrandedStays(s: State, step: Step, c: nat)
    requires Inv(s) && Enabled(s, step) && Stranded(s, c)
    ensures Stranded(Do(s, step), c)
  {
    if step.Go? { GoKeepsStranded(s, step.t, c); }
  }

  /** Once stranded, a channel stays so in every continuation: no thread ever gets it again. */
  lemma {:induction false} StrandedForGood(s: State, steps: seq<Step>, s': State, c: nat)
    requires Inv(s) && Leads(Next, s, steps, s') && Stranded(s, c)
    ensures Inv(s') && Stranded(s', c)
    ensures forall t :: t in s'.threads && s'.threads[t].ch == c ==> !Claims(s'.threads[t].at)
    decreases |steps|
  {
    if steps == [] {
      forall t | t in s'.threads && s'.threads[t].ch == c ensures !Claims(s'.threads[t].at) { LookIsOk(s', t); }
    } else {
      StepKeepsInv(s, steps[0]);
      StrandedStays(s, steps[0], c);
      StrandedForGood(Do(s, steps[0]), steps[1..], s', c);
    }
  }

  /** With every channel stranded no thread ever sends a message again. */
  lemma PoolExhausted(s: State, steps: seq<Step>, s': State)
    requires Inv(s) && Leads(Next, s, steps, s') && forall c :: 0 <= c < NUM_CHANNELS ==> Stranded(s, c)
    ensures forall t :: t in s'.threads ==> !Claims(s'.threads[t].at)
  {
    assert Stranded(s, 0);
    StrandedForGood(s, steps, s', 0);
    forall t | t in s'.threads
      ensures !Claims(s'.threads[t].at)
    {
      StrandedForGood(s, steps, s', s'.threads[t].ch);
    }
  }

  // ---------------------------------------------------------------- when a channel gets stranded

  /** A thread that has seen the channel free passes it over after all, for its owner id. */
  ghost predicate TurnsAway(s: State, step: Step, c: nat)
    requires Shape(s) && c < NUM_CHANNELS
  {
    && step.Go? && step.t in s.threads && s.threads[step.t].ch == c && s.threads[step.t].at == READ_ID
    && s.chans[c].ownerId != 0 && s.chans[c].own != OWN_NOS
  }

  /** The peer signals on a channel that nobody works on or has seen free. */
  ghost predicate SignalsUnheld(s: State, step: Step, c: nat)
    requires Shape(s) && c < NUM_CHANNELS
  {
    (step == NdkSignal(c) || (step.NdkRogue? && step.c == c)) && Unheld(s.holder[c]) && !Eyed(s, c)
  }

  /** A call raises for want of data. */
  ghost predicate RaisesOn(s: State, step: Step, c: nat) {
    && step.Go? && step.t in s.threads && s.threads[step.t].ch == c && s.threads[step.t].at == PUT_REQUEST
    && Raises(s.threads[step.t])
  }

  /** Whoever eyes a channel does so alone, under both locks. */
  lemma OneEyes(s: State, t: Tid, u: Tid)
    requires Inv(s) && t in s.threads && u in s.threads && Eyes(s.threads[t].at) && Eyes(s.threads[u].at)
    ensures t == u
  {
    LookIsOk(s, t);
    LookIsOk(s, u);
  }

  lemma EyeingStep(t: Tid, v: View)
    requires t != NOBODY && CanGo(v) && Eyes(v.th.at) && v.holder == NOBODY
    ensures var w := StepOf(t, v);
      && (Eyes(w.th.at) && w.th.ch == v.th.ch ==> w.holder == v.holder && w.chan == v.chan)
      && (w.holder == v.holder && !(Eyes(w.th.at) && w.th.ch == v.th.ch) ==> w.chan == v.chan && v.th.at == READ_ID && v.chan.ownerId != 0)
  {
  }

  lemma OtherGo(t: Tid, v: View)
    requires t != NOBODY && CanGo(v) && PlaceOk(t, v) && !Eyes(v.th.at)
    ensures var w := StepOf(t, v);
      && (v.holder != t ==> w.holder == v.holder && w.chan == v.chan)
      && (v.holder == t && Unheld(w.holder) ==> w.chan.own == OWN_NOS || (v.th.at == PUT_REQUEST && Raises(v.th)))
      && (v.holder == t && v.th.at == PUT_REQUEST && Raises(v.th) ==> w.holder == LOST && w.chan == v.chan && w.th.at == IDLE)
  {
  }

  /** A thread's own step on another channel leaves this one alone. */
  lemma ElsewhereGo(s: State, t: Tid, c: nat)
    requires Inv(s) && Enabled(s, Go(t)) && c < NUM_CHANNELS && s.threads[t].ch != c
    ensures var s' := Do(s, Go(t)); Shape(s') && s'.holder[c] == s.holder[c] && s'.chans[c] == s.chans[c]
    ensures Eyed(Do(s, Go(t)), c) <==> Eyed(s, c)
  {
    StepKeepsInv(s, Go(t));
    var s' := Do(s, Go(t));
    assert forall u :: u in s.threads && u != t ==> s'.threads[u] == s.threads[u];
    LookIsOk(s, t);
    StepIsGood(t, Look(s, t));
  }

  lemma EyeingGoStrandsIff(s: State, t: Tid, c: nat)
    requires Inv(s) && Enabled(s, Go(t)) && c < NUM_CHANNELS && s.threads[t].ch == c && Eyes(s.threads[t].at)
    ensures Stranded(Do(s, Go(t)), c) <==> TurnsAway(s, Go(t), c)
  {
    LookIsOk(s, t);
    StepKeepsInv(s, Go(t));
    EyeingStep(t, Look(s, t));
    StepIsGood(t, Look(s, t));
    var s' := Do(s, Go(t));
    forall u | u in s.threads && u != t
      ensures s'.threads[u] == s.threads[u] && !Eyes(s.threads[u].at)
    {
      if Eyes(s.threads[u].at) { OneEyes(s, t, u); }
    }
    if Eyes(s'.threads[t].at) && s'.threads[t].ch == c { assert Eyed(s', c); }
  }

  lemma OtherGoStrandsIff(s: State, t: Tid, c: nat)
    requires Inv(s) && Enabled(s, Go(t)) && c < NUM_CHANNELS && s.threads[t].ch == c && !Eyes(s.threads[t].at) && !Stranded(s, c)
    ensures Stranded(Do(s, Go(t)), c) <==> RaisesOn(s, Go(t), c)
  {
    LookIsOk(s, t);
    StepKeepsInv(s, Go(t));
    OtherGo(t, Look(s, t));
    StepIsGood(t, Look(s, t));
    var s' := Do(s, Go(t));
    assert forall u :: u in s.threads && u != t ==> s'.threads[u] == s.threads[u];
    if RaisesOn(s, Go(t), c) && Eyed(s', c) {
      var u :| u in s'.threads && s'.threads[u].ch == c && Eyes(s'.threads[u].at);
      LookIsOk(s, u);
    }
  }

  lemma GoStrandsIff(s: State, t: Tid, c: nat)
    requires Inv(s) && Enabled(s, Go(t)) && c < NUM_CHANNELS && !Stranded(s, c)
    ensures Stranded(Do(s, Go(t)), c) <==> TurnsAway(s, Go(t), c) || RaisesOn(s, Go(t), c)
  {
    if s.threads[t].ch != c { ElsewhereGo(s, t, c); }
    else if Eyes(s.threads[t].at) { EyeingGoStrandsIff(s, t, c); }
    else { OtherGoStrandsIff(s, t, c); }
  }

  /**
   Exactly when a step strands a channel: the peer signals on it while nobody works on
   it or has seen it free; a call raises on it; or the one thread that has seen it free
   passes it over for its owner id after the peer has signalled.
   */
  lemma StrandsIff(s: State, step: Step, c: nat)
    requires Inv(s) && Enabled(s, step) && c < NUM_CHANNELS && !Stranded(s, c)
    ensures Stranded(Do(s, step), c) <==> SignalsUnheld(s, step, c) || RaisesOn(s, step, c) || TurnsAway(s, step, c)
  {
    if step.Go? {
      GoStrandsIff(s, step.t, c);
    } else {
      var s' := Do(s, step);
      assert forall u :: u in s.threads ==> s'.threads[u].ch == s.threads[u].ch && (Eyes(s'.threads[u].at) <==> Eyes(s.threads[u].at));
      assert Eyed(s', c) <==> Eyed(s, c);
    }
  }

  /** A call that raises strands its channel at once. */
  lemma RaisingStrands(s: State, t: Tid)
    requires Inv(s) && t in s.threads && s.threads[t].at == PUT_REQUEST && Raises(s.threads[t])
    ensures Enabled(s, Go(t)) && Stranded(Do(s, Go(t)), s.threads[t].ch)
    ensures Do(s, Go(t)).threads[t].at == IDLE && Do(s, Go(t)).chans == s.chans
  {
    LookIsOk(s, t);
    GoStrandsIff(s, t, s.threads[t].ch);
  }

  /** It happens: from idle threads, a write with too little data. */
  lemma RaisingHappens(s: State, t: Tid, c: nat) returns (steps: seq<Step>, s': State)
    requires Ready(s, t, c)
    ensures Leads(Next, s, steps, s') && PeerAnswersRequests(steps) && t in s'.threads && s'.threads[t].at == IDLE && Stranded(s', c)
  {
    var a, claimed := ClaimsChannel(s, t, Write, TooShort, c);
    RaisingStrands(claimed, t);
    LeadsOn(Next, s, a, claimed, Go(t));
    steps, s' := a + [Go(t)], Do(claimed, Go(t));
  }

  /** On a channel that was free at the start and never given up on, nothing is owed and the owner word says free while nobody works on it. */
  ghost predicate Unspoilt(s: State, c: nat)
    requires Shape(s) && c < NUM_CHANNELS
  {
    !s.tainted[c] && s.holder[c] == NOBODY ==> s.chans[c].own == OWN_NOS && s.jobs[c].NoJob?
  }

  lemma GoKeepsUnspoilt(s: State, t: Tid, c: nat)
    requires ReplyInv(s) && Enabled(s, Go(t)) && c < NUM_CHANNELS && Unspoilt(s, c) && (s.holder[c] == LOST ==> s.tainted[c])
    ensures var s' := Do(s, Go(t)); Shape(s') && Unspoilt(s', c) && (s'.holder[c] == LOST ==> s'.tainted[c])
  {
    StepKeepsReply(s, Go(t));
    LookIsOk(s, t);
    StepIsGood(t, Look(s, t));
    assert ChannelReplyOk(Do(s, Go(t)), c);
    if s.threads[t].ch == c { OwnStepKeepsUnspoilt(t, Look(s, t)); }
  }

  lemma OwnStepKeepsUnspoilt(t: Tid, v: View)
    requires t != NOBODY && CanGo(v) && PlaceOk(t, v)
    ensures var w := StepOf(t, v);
      && (w.holder == NOBODY && !w.tainted ==> !v.tainted && (v.holder == NOBODY || w.chan.own == OWN_NOS))
      && (w.holder == NOBODY && v.holder == NOBODY ==> w.chan == v.chan)
      && (w.holder == LOST ==> (v.holder == LOST && w.tainted == v.tainted) || w.tainted)
  {
  }

  lemma StepKeepsUnspoilt(s: State, step: Step, c: nat)
    requires ReplyInv(s) && Enabled(s, step) && !step.NdkRogue? && c < NUM_CHANNELS
    requires Unspoilt(s, c) && (s.holder[c] == LOST ==> s.tainted[c])
    ensures var s' := Do(s, step); Shape(s') && Unspoilt(s', c) && (s'.holder[c] == LOST ==> s'.tainted[c])
  {
    if step.Go? { GoKeepsUnspoilt(s, step.t, c); }
  }

  /** So a channel that was free at the start is not stranded unless a call on it timed out or raised. */
  lemma {:induction false} StrandedOnlyIfGivenUp(ss: seq<State>, steps: seq<Step>, i: nat, c: nat)
    requires IsRun(ss, steps) && PeerAnswersRequests(steps) && i < |ss| && c < NUM_CHANNELS && ss[0].chans[c].own == OWN_NOS
    ensures Shape(ss[i]) && Unspoilt(ss[i], c) && (ss[i].holder[c] == LOST ==> ss[i].tainted[c])
    ensures !ss[i].tainted[c] ==> !Stranded(ss[i], c)
  {
    if i > 0 {
      StrandedOnlyIfGivenUp(ss, steps, i - 1, c);
      RunKeepsReply(ss, steps, i - 1);
      StepKeepsUnspoilt(ss[i - 1], steps[i - 1], c);
    }
  }

  // ---------------------------------------------------------------- it happens

  /** Answering and signalling a given-up request while its channel is free. */
  lemma SignalStrands(s: State, t: Tid, c: nat, ticket: nat)
    requires Owing(s, t, c, ticket)
    ensures Enabled(s, NdkAnswer(c, RSP_SUCCESS)) && Enabled(Do(s, NdkAnswer(c, RSP_SUCCESS)), NdkSignal(c))
    ensures var s' := Do(Do(s, NdkAnswer(c, RSP_SUCCESS)), NdkSignal(c));
            Alone(s', t) && s'.threads == s.threads && Stranded(s', c) && OnlyChannel(s, s', c)
  {
    StepKeepsInv(s, NdkAnswer(c, RSP_SUCCESS));
    StepKeepsInv(Do(s, NdkAnswer(c, RSP_SUCCESS)), NdkSignal(c));
  }

  /** It happens: the answer to a request that was given up on, signalled while its channel is free, strands the channel. */
  lemma StrandingHappens(s: State, t: Tid, c: nat) returns (steps: seq<Step>, s': State)
    requires Ready(s, t, c)
    ensures Leads(Next, s, steps, s') && PeerAnswersRequests(steps)
    ensures Alone(s', t) && s'.threads[t].at == IDLE && Stranded(s', c) && OnlyChannel(s, s', c)
  {
    var a, owing := TimesOut(s, t, c);
    SignalStrands(owing, t, c, s.nextTicket);
    var answered := Do(owing, NdkAnswer(c, RSP_SUCCESS));
    LeadsOn(Next, s, a, owing, NdkAnswer(c, RSP_SUCCESS));
    LeadsOn(Next, s, a + [NdkAnswer(c, RSP_SUCCESS)], answered, NdkSignal(c));
    steps, s' := a + [NdkAnswer(c, RSP_SUCCESS)] + [NdkSignal(c)], Do(answered, NdkSignal(c));
  }

  /** The channels below c are stranded, and all others free. */
  ghost predicate StrandedBelow(s: State, t: Tid, c: nat) {
    && Alone(s, t) && s.threads[t].at == IDLE && c <= NUM_CHANNELS
    && (forall j :: 0 <= j < c ==> Stranded(s, j))
    && (forall j :: c <= j < NUM_CHANNELS ==> s.chans[j].own == OWN_NOS && s.chans[j].ownerId == 0 && s.jobs[j].NoJob?)
  }

  lemma OneMoreStranded(s: State, t: Tid, c: nat) returns (steps: seq<Step>, s': State)
    requires c < NUM_CHANNELS && StrandedBelow(s, t, c)
    ensures Leads(Next, s, steps, s') && PeerAnswersRequests(steps) && StrandedBelow(s', t, c + 1)
  {
    forall j | 0 <= j < c ensures s.chans[j].own != OWN_NOS { assert Stranded(s, j); }
    steps, s' := StrandingHappens(s, t, c);
    forall j | 0 <= j < c ensures Stranded(s', j) { StrandedForGood(s, steps, s', j); }
  }

  /** The whole pool can go that way: from idle threads and free channels, one thread and a slow peer strand them all. */
  lemma PoolExhaustionHappens(s: State, t: Tid) returns (steps: seq<Step>, s': State)
    requires Init(s) && t in s.threads
    requires forall c :: 0 <= c < NUM_CHANNELS ==> s.chans[c].own == OWN_NOS && s.chans[c].ownerId == 0
    ensures Leads(Next, s, steps, s') && PeerAnswersRequests(steps) && Inv(s') && forall c :: 0 <= c < NUM_CHANNELS ==> Stranded(s', c)
  {
    InitEstablishesInv(s);
    steps, s' := [], s;
    for c := 0 to NUM_CHANNELS
      invariant Leads(Next, s, steps, s') && PeerAnswersRequests(steps) && StrandedBelow(s', t, c)
    {
      var more, next := OneMoreStranded(s', t, c);
      LeadsThen(Next, s, steps, s', more, next);
      steps, s' := steps + more, next;
    }
  }
}
