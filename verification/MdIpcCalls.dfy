/**
 What single calls of msg_send do in a run, in the words and counters themselves:
 the channels a search passes over, the message number, where a request leads, how
 long it is waited for, and which counter its outcome falls under.
 */
module MdIpcCalls {
  import opened Wrappers
  import opened MdIpc

  /** Another thread's step, or the peer's, leaves a thread where it is. */
  lemma StaysPut(s: State, step: Step, t: Tid)
    requires Inv(s) && Enabled(s, step) && t in Do(s, step).threads
    ensures t in s.threads
    ensures !(step.Go? && step.t == t) && s.threads[t].at != IDLE ==> Do(s, step).threads[t] == s.threads[t]
    ensures !(step.Go? && step.t == t) && s.threads[t].at == IDLE ==> Do(s, step).threads[t].at <= TAKE_T
  {
  }

  /** The marks and words that free_channel and obtain_channel check hold what they should, so neither error branch can be taken. */
  lemma MarksTellTheTruth(ss: seq<State>, steps: seq<Step>, i: nat, t: Tid)
    requires IsRun(ss, steps) && i < |ss| && t in ss[i].threads
    ensures Shape(ss[i])
    ensures var s, th := ss[i], ss[i].threads[t];
      && (th.at == READ_USE ==> !s.procs[th.pid].local[th.ch].inUse)
      && (GET_MSG_ID <= th.at <= FREE_USE ==> s.procs[th.pid].local[th.ch].inUse)
      && (th.at == FREE_CHECK ==> s.chans[th.ch].ownerId == t)
      && (th.at == IDLE ==> s.procs[th.pid].lock != t)
  {
    RunKeepsInv(ss, steps, i);
    LookIsOk(ss[i], t);
  }

  // ---------------------------------------------------------------- the search

  /** In step i of the run, thread t saw that channel c is not to be had. */
  ghost predicate PassesOver(ss: seq<State>, steps: seq<Step>, i: nat, t: Tid, c: nat) {
    && i < |steps| < |ss| && steps[i] == Go(t) && Shape(ss[i]) && t in ss[i].threads && ss[i].threads[t].ch == c < NUM_CHANNELS
    && (   (ss[i].threads[t].at == READ_OWN && ss[i].chans[c].own != 0x43211234)
        || (ss[i].threads[t].at == READ_ID && ss[i].chans[c].ownerId != 0))
  }

  /** How many channels the thread's search has behind it. */
  function Behind(th: Thread): nat {
    if th.at == DROP_P_MISS then 10 else if READ_OWN <= th.at <= PUT_PREP then th.ch else 0
  }

  lemma SearchStep(s: State, t: Tid)
    requires Inv(s) && Enabled(s, Go(t))
    ensures var th, next := s.threads[t], Do(s, Go(t)).threads[t];
      && next.ticket == th.ticket
      && (Behind(next) > 0 ==> TAKE_P <= th.at <= PUT_PREP && (th.at == TAKE_P ==> Behind(next) == 0))
      && (Behind(next) > Behind(th) ==>
            Behind(next) == th.ch + 1 == Behind(th) + 1
            && ((th.at == READ_OWN && s.chans[th.ch].own != 0x43211234) || (th.at == READ_ID && s.chans[th.ch].ownerId != 0)))
  {
    LookIsOk(s, t);
  }

  /** The state before: the search has as much behind it, or the thread passes over one more channel. */
  lemma SearchedFrom(ss: seq<State>, steps: seq<Step>, j: nat, t: Tid) returns (before: nat)
    requires IsRun(ss, steps) && j < |ss| && t in ss[j].threads && Behind(ss[j].threads[t]) > 0
    ensures j == before + 1 && t in ss[before].threads && ss[before].threads[t].ticket == ss[j].threads[t].ticket
    ensures var far := Behind(ss[j].threads[t]);
            Behind(ss[before].threads[t]) >= far || (Behind(ss[before].threads[t]) == far - 1 && PassesOver(ss, steps, before, t, far - 1))
  {
    before := j - 1;
    RunKeepsInv(ss, steps, before);
    StaysPut(ss[before], steps[before], t);
    if steps[before].Go? && steps[before].t == t { SearchStep(ss[before], t); }
  }

  /**
   A search ends without a channel, or settles for one, only after this very call
   has seen, one by one, that each channel before is not free or still bears an owner.
   */
  lemma {:induction false} SearchIsThorough(ss: seq<State>, steps: seq<Step>, j: nat, t: Tid, c: nat) returns (i: nat)
    requires IsRun(ss, steps) && j < |ss| && t in ss[j].threads && c < Behind(ss[j].threads[t])
    ensures i < j && PassesOver(ss, steps, i, t, c) && ss[i].threads[t].ticket == ss[j].threads[t].ticket
    decreases j
  {
    var before := SearchedFrom(ss, steps, j, t);
    if c < Behind(ss[before].threads[t]) { i := SearchIsThorough(ss, steps, before, t, c); } else { i := before; }
  }

  /** The channel that a search has settled for is unowned. */
  ghost predicate Unowned(s: State, t: Tid)
    requires Shape(s) && t in s.threads
  {
    READ_USE <= s.threads[t].at <= PUT_PREP ==> s.chans[s.threads[t].ch].ownerId == 0
  }

  /** No step of anybody else writes the owner id of a channel that a thread is about to claim. */
  lemma StepKeepsUnowned(s: State, step: Step, t: Tid)
    requires Inv(s) && Enabled(s, step) && t in s.threads && Unowned(s, t)
    ensures Shape(Do(s, step)) && t in Do(s, step).threads && Unowned(Do(s, step), t)
  {
    StepKeepsInv(s, step);
    LookIsOk(s, t);
    if step.Go? {
      LookIsOk(s, step.t);
      if step.t == t {
        EyesUnowned(t, Look(s, t));
      } else if s.threads[step.t].ch == s.threads[t].ch && Eyes(s.threads[t].at) {
        LeavesOwnerId(step.t, Look(s, step.t));
      }
    }
  }

  lemma EyesUnowned(t: Tid, v: View)
    requires v.th.at != IDLE && (READ_USE <= v.th.at <= PUT_PREP ==> v.chan.ownerId == 0)
    ensures READ_USE <= StepOf(t, v).th.at <= PUT_PREP ==> StepOf(t, v).chan.ownerId == 0 && StepOf(t, v).th.ch == v.th.ch
  {
  }

  lemma LeavesOwnerId(t: Tid, v: View)
    requires PlaceOk(t, v) && v.holder == NOBODY && t != NOBODY
    ensures StepOf(t, v).chan.ownerId == v.chan.ownerId
  {
  }

  /** A search settles only for a channel that bears no owner, and finds it so when it claims it. */
  lemma {:induction false} ClaimsOnlyUnowned(ss: seq<State>, steps: seq<Step>, i: nat, t: Tid)
    requires IsRun(ss, steps) && i < |ss| && t in ss[i].threads
    ensures Shape(ss[i]) && Unowned(ss[i], t)
  {
    RunKeepsInv(ss, steps, i);
    if i > 0 {
      RunKeepsInv(ss, steps, i - 1);
      StaysPut(ss[i - 1], steps[i - 1], t);
      ClaimsOnlyUnowned(ss, steps, i - 1, t);
      StepKeepsUnowned(ss[i - 1], steps[i - 1], t);
    }
  }

  // ---------------------------------------------------------------- message numbers

  ghost predicate Numbered(s: State, t: Tid)
    requires Shape(s) && t in s.threads
  {
    s.threads[t].at == PUT_MSG_ID ==> s.threads[t].num == s.chans[s.threads[t].ch].msgId + 1
  }

  lemma StepKeepsNumbered(s: State, step: Step, t: Tid)
    requires Inv(s) && Enabled(s, step) && t in s.threads && Numbered(s, t)
    ensures Shape(Do(s, step)) && Numbered(Do(s, step), t)
  {
    StepKeepsInv(s, step);
    LookIsOk(s, t);
    if step.Go? {
      LookIsOk(s, step.t);
      StepIsGood(step.t, Look(s, step.t));
    }
  }

  lemma {:induction false} RunKeepsNumbered(ss: seq<State>, steps: seq<Step>, i: nat, t: Tid)
    requires IsRun(ss, steps) && i < |ss| && t in ss[i].threads
    ensures Shape(ss[i]) && Numbered(ss[i], t)
  {
    RunKeepsInv(ss, steps, i);
    if i > 0 {
      RunKeepsInv(ss, steps, i - 1);
      RunKeepsNumbered(ss, steps, i - 1, t);
      StepKeepsNumbered(ss[i - 1], steps[i - 1], t);
    }
  }

  /** A channel's message number goes up by one with every message, unlocked load and store though it is, and never otherwise. */
  lemma MessagesAreNumbered(ss: seq<State>, steps: seq<Step>, i: nat, c: nat)
    requires IsRun(ss, steps) && i < |steps| && c < 10
    ensures Shape(ss[i]) && Shape(ss[i + 1])
    ensures ss[i + 1].chans[c].msgId == ss[i].chans[c].msgId +
              if steps[i].Go? && ss[i].threads[steps[i].t].at == PUT_MSG_ID && ss[i].threads[steps[i].t].ch == c then 1 else 0
  {
    RunKeepsInv(ss, steps, i);
    RunKeepsInv(ss, steps, i + 1);
    if steps[i].Go? { RunKeepsNumbered(ss, steps, i, steps[i].t); }
  }

  /** Steps that another thread or the peer takes leave a thread's facts; its own come from its view. */
  lemma OwnOrNot(s: State, step: Step, t: Tid)
    requires Inv(s) && Enabled(s, step) && t in Do(s, step).threads
    ensures t in s.threads
    ensures Do(s, step).threads[t] == if step == Go(t) then StepOf(t, Look(s, t)).th else if step.Call? && step.t == t then Do(s, step).threads[t] else s.threads[t]
    ensures step.Call? && step.t == t ==> s.threads[t].at == IDLE && Do(s, step).threads[t].at == TAKE_T
  {
  }

  // ---------------------------------------------------------------- which calls post a request

  /** The call reads, asks for the presence, or writes with enough data. */
  predicate Postable(th: Thread) {
    th.op.Read? || th.op.Presence? || ((th.op.Write? || th.op.WriteCdbChain?) && th.data.Enough?)
  }

  /** An unknown operation, or a write without data. */
  predicate TurnedDown(th: Thread) {
    th.op.UnknownOp? || ((th.op.Write? || th.op.WriteCdbChain?) && th.data.Missing?)
  }

  /** What has come of the call's request so far. */
  predicate Led(th: Thread) {
    && (HAND_OFF <= th.at <= COPY ==> Postable(th))
    && (IDLE < th.at <= PUT_REQUEST ==> th.result == Junk)
    && (th.at >= FREE_CHECK ==> Postable(th) || (TurnedDown(th) && th.result == Junk))
  }

  lemma ObtainLeads(t: Tid, v: View)
    requires InObtain(v.th.at) && Led(v.th)
    ensures Led(ObtainStep(t, v).th)
  {
  }

  lemma PostLeads(t: Tid, v: View)
    requires InPost(v.th.at) && Led(v.th)
    ensures Led(PostStep(t, v).th)
  {
  }

  lemma LaterLeads(t: Tid, v: View)
    requires v.th.at >= POLL && Led(v.th)
    ensures Led(StepOf(t, v).th)
  {
  }

  lemma StepLeads(t: Tid, v: View)
    requires v.th.at != IDLE && Led(v.th)
    ensures Led(StepOf(t, v).th)
  {
    if InObtain(v.th.at) { ObtainLeads(t, v); } else if InPost(v.th.at) { PostLeads(t, v); } else { LaterLeads(t, v); }
  }

  /**
   A request is handed over and waited for exactly in the calls that read, ask for the
   presence, or write with enough data.  A call that frees its channel without that is
   an unknown operation or a write without data, and comes back with nothing; a write
   with too little data does not get as far.
   */
  lemma {:induction false} RequestsLead(ss: seq<State>, steps: seq<Step>, j: nat, t: Tid)
    requires IsRun(ss, steps) && j < |ss| && t in ss[j].threads
    ensures Led(ss[j].threads[t])
    decreases j
  {
    if j > 0 {
      var s, step := ss[j - 1], steps[j - 1];
      RunKeepsInv(ss, steps, j - 1);
      RequestsLead(ss, steps, j - 1, t);
      OwnOrNot(s, step, t);
      if step == Go(t) { StepLeads(t, Look(s, t)); }
    }
  }

  /** At the request itself: only a postable one goes on to the handover, only a refused one to the freeing, with the channel as it was; the rest raise there. */
  lemma RequestSplits(ss: seq<State>, steps: seq<Step>, i: nat, t: Tid)
    requires IsRun(ss, steps) && i < |steps| && steps[i] == Go(t) && ss[i].threads[t].at == PUT_REQUEST
    ensures Shape(ss[i]) && Shape(ss[i + 1]) && t in ss[i + 1].threads
    ensures var th, c, next := ss[i].threads[t], ss[i].threads[t].ch, ss[i + 1].threads[t];
      && (Postable(th) ==> next.at == HAND_OFF && ss[i + 1].chans[c] == ss[i].chans[c].(body := Request(th.ticket)))
      && (!Postable(th) ==> ss[i + 1].chans[c] == ss[i].chans[c] && next.at == if TurnedDown(th) then FREE_CHECK else IDLE)
  {
    RunKeepsInv(ss, steps, i);
    RunKeepsInv(ss, steps, i + 1);
  }

  // ---------------------------------------------------------------- the wait and the outcome

  /** How often in a row, up to this state, the thread has looked at the owner word in vain. */
  ghost function Looks(ss: seq<State>, steps: seq<Step>, t: Tid, j: nat): nat
    requires IsRun(ss, steps) && j < |ss|
    decreases j
  {
    if j == 0 || t !in ss[j].threads || t !in ss[j - 1].threads || ss[j].threads[t].at != POLL then 0
    else if steps[j - 1] != Go(t) then Looks(ss, steps, t, j - 1)
    else if ss[j - 1].threads[t].at == POLL then Looks(ss, steps, t, j - 1) + 1
    else 0
  }

  lemma PollingCounts(t: Tid, v: View)
    requires t != NOBODY && v.th.at != IDLE
    ensures var next := StepOf(t, v).th;
      next.at == POLL ==> next.num == (if v.th.at == POLL then v.th.num + 1 else 0) && (v.th.at == POLL ==> v.th.num < 3000)
  {
  }

  lemma {:induction false} LooksAreCounted(ss: seq<State>, steps: seq<Step>, j: nat, t: Tid)
    requires IsRun(ss, steps) && j < |ss| && t in ss[j].threads && ss[j].threads[t].at == POLL
    ensures ss[j].threads[t].num == Looks(ss, steps, t, j) <= 3000
    decreases j
  {
    var s, step := ss[j - 1], steps[j - 1];
    RunKeepsInv(ss, steps, j - 1);
    OwnOrNot(s, step, t);
    if step == Go(t) { PollingCounts(t, Look(s, t)); }
    if s.threads[t].at == POLL { LooksAreCounted(ss, steps, j - 1, t); }
  }

  /** The counter a status falls under; a presence query is answered with 0 or 1, and both are a success. */
  function CounterFor(op: Op, status: nat): Counter {
    match status
    case 0 => Success
    case 1 => if op.Presence? then Success else Fail
    case 2 => NotPresent
    case _ => Unknown
  }

  /** Step i is the one with which thread t left the polling loop in the call that it is in at j. */
  ghost predicate LeftPoll(ss: seq<State>, steps: seq<Step>, i: nat, j: nat, t: Tid) {
    && i < j < |ss| && i < |steps| && steps[i] == Go(t) && t in ss[i].threads && ss[i].threads[t].at == POLL && Shape(ss[i])
    && forall m {:trigger ss[m]} :: i < m <= j ==> t in ss[m].threads && ss[m].threads[t].at > POLL && ss[m].threads[t].ticket == ss[i].threads[t].ticket
  }

  /** In step b of that call it read the status word. */
  ghost predicate ReadStatus(ss: seq<State>, steps: seq<Step>, b: nat, j: nat, t: Tid, word: nat) {
    && b < j < |ss| && b < |steps| && steps[b] == Go(t) && t in ss[b].threads && ss[b].threads[t].at == READ_STATUS && Shape(ss[b])
    && word == StatusWord(ss[b].chans[ss[b].threads[t].ch])
  }

  /** In step c of it it copied the answer. */
  ghost predicate Copied(ss: seq<State>, steps: seq<Step>, c: nat, j: nat, t: Tid, result: Body) {
    && c < j < |ss| && c < |steps| && steps[c] == Go(t) && t in ss[c].threads && ss[c].threads[t].at == COPY && Shape(ss[c])
    && result == ss[c].chans[ss[c].threads[t].ch].body
  }

  /** Its outcome falls under the counter for the status word that it read after step i. */
  ghost predicate ByStatus(ss: seq<State>, steps: seq<Step>, i: nat, j: nat, t: Tid)
    requires j < |ss| && t in ss[j].threads
  {
    exists b, word :: i < b && ReadStatus(ss, steps, b, j, t, word) && ss[j].threads[t].k == CounterFor(ss[j].threads[t].op, word)
  }

  /** What it took is what it copied after step i. */
  ghost predicate ByCopy(ss: seq<State>, steps: seq<Step>, i: nat, j: nat, t: Tid)
    requires j < |ss| && t in ss[j].threads
  {
    exists c :: i < c && Copied(ss, steps, c, j, t, ss[j].threads[t].result)
  }

  /** What the rest of the call knows of its wait, its status word and its answer. */
  ghost predicate Known(ss: seq<State>, steps: seq<Step>, i: nat, j: nat, t: Tid)
    requires IsRun(ss, steps) && LeftPoll(ss, steps, i, j, t)
  {
    var th, answered := ss[j].threads[t], ss[i].chans[ss[i].threads[t].ch].own == 0xCBCBAF5F;
    && (th.at == READ_STATUS || th.at == COPY ==> answered)
    && (!answered ==> th.k.Timeouts? && Looks(ss, steps, t, i) == 3000)
    && (answered && th.at > READ_STATUS ==> ByStatus(ss, steps, i, j, t))
    && (th.at <= COPY || !answered ==> th.result == Junk)
    && (answered && th.at > COPY ==> ByCopy(ss, steps, i, j, t))
  }

  lemma OutOfPoll(t: Tid, v: View)
    requires v.th.at == POLL && StepOf(t, v).th.at > POLL
    ensures var next := StepOf(t, v).th;
      && next.ticket == v.th.ticket && next.op == v.th.op && next.result == v.th.result
      && if v.chan.own == 0xCBCBAF5F then next.at == READ_STATUS else next.at == LOAD_END && next.k.Timeouts? && v.th.num >= 3000
  {
  }

  lemma PastPoll(t: Tid, v: View)
    requires v.th.at > POLL && StepOf(t, v).th.at != IDLE
    ensures var th, next := v.th, StepOf(t, v).th;
      && next.at > th.at && next.ticket == th.ticket && next.op == th.op
      && next.k == (if th.at == READ_STATUS then CounterFor(th.op, StatusWord(v.chan)) else th.k)
      && next.result == (if th.at == COPY then v.chan.body else th.result)
      && (next.at == COPY ==> !th.k.Timeouts?)
      && (next.at > COPY && th.at < COPY ==> th.k.Timeouts?)
  {
  }

  lemma EarlyResult(t: Tid, v: View)
    requires v.th.at != IDLE && v.th.at <= POLL
    ensures StepOf(t, v).th.result == v.th.result
  {
  }

  lemma LateResult(t: Tid, v: View)
    requires POLL < v.th.at && v.th.at != COPY
    ensures StepOf(t, v).th.result == v.th.result
  {
  }

  lemma {:induction false} NothingTakenYet(ss: seq<State>, steps: seq<Step>, j: nat, t: Tid)
    requires IsRun(ss, steps) && j < |ss| && t in ss[j].threads && IDLE < ss[j].threads[t].at <= COPY
    ensures ss[j].threads[t].result == Junk
    decreases j
  {
    var s, step := ss[j - 1], steps[j - 1];
    RunKeepsInv(ss, steps, j - 1);
    OwnOrNot(s, step, t);
    if step == Go(t) {
      AtOrBefore(t, Look(s, t));
      if s.threads[t].at <= POLL { EarlyResult(t, Look(s, t)); } else { LateResult(t, Look(s, t)); }
    }
    if !(step.Call? && step.t == t) { NothingTakenYet(ss, steps, j - 1, t); }
  }

  /** Up to the copy, a thread comes from no later than it. */
  lemma AtOrBefore(t: Tid, v: View)
    requires t != NOBODY && v.th.at != IDLE
    ensures IDLE < StepOf(t, v).th.at <= COPY ==> v.th.at < COPY
  {
  }

  /** The thread is past its wait with a request that was posted, not refused. */
  predicate Waited(th: Thread) {
    th.at > POLL && Postable(th)
  }

  /** Where the own step out of the poll, or after it, leads from. */
  lemma AfterPoll(t: Tid, v: View)
    requires t != NOBODY && v.th.at != IDLE
    ensures Waited(StepOf(t, v).th) ==> v.th.at >= POLL && (v.th.at > POLL ==> Waited(v.th))
  {
  }

  /** A thread past its wait was there before the step, or at its poll and took it itself. */
  lemma WaitedFrom(ss: seq<State>, steps: seq<Step>, j: nat, t: Tid) returns (before: nat)
    requires IsRun(ss, steps) && j < |ss| && t in ss[j].threads && Waited(ss[j].threads[t])
    ensures j == before + 1 && t in ss[before].threads && Inv(ss[before])
    ensures Waited(ss[before].threads[t]) || (ss[before].threads[t].at == POLL && steps[before] == Go(t))
    ensures steps[before] != Go(t) ==> ss[j].threads[t] == ss[before].threads[t]
  {
    before := j - 1;
    RunKeepsInv(ss, steps, before);
    OwnOrNot(ss[before], steps[before], t);
    if steps[before] == Go(t) { AfterPoll(t, Look(ss[before], t)); }
  }

  /** A call's own step keeps what is known of the status word. */
  lemma OwnStepStatus(ss: seq<State>, steps: seq<Step>, i: nat, j: nat, next: nat, t: Tid)
    requires IsRun(ss, steps) && j < |steps| && next == j + 1 && steps[j] == Go(t) && Inv(ss[j]) && LeftPoll(ss, steps, i, j, t) && Known(ss, steps, i, j, t)
    requires ss[next].threads[t].at > POLL && ss[i].chans[ss[i].threads[t].ch].own == 0xCBCBAF5F
    ensures ByStatus(ss, steps, i, next, t)
  {
    var s := ss[j];
    var th := s.threads[t];
    OwnOrNot(s, steps[j], t);
    PastPoll(t, Look(s, t));
    if th.at == READ_STATUS {
      assert ReadStatus(ss, steps, j, next, t, StatusWord(s.chans[th.ch]));
    } else {
      var b, word :| i < b && ReadStatus(ss, steps, b, j, t, word) && th.k == CounterFor(th.op, word);
      assert ReadStatus(ss, steps, b, next, t, word);
    }
  }

  /** And of the copy. */
  lemma OwnStepCopy(ss: seq<State>, steps: seq<Step>, i: nat, j: nat, next: nat, t: Tid)
    requires IsRun(ss, steps) && j < |steps| && next == j + 1 && steps[j] == Go(t) && Inv(ss[j]) && LeftPoll(ss, steps, i, j, t) && Known(ss, steps, i, j, t)
    requires ss[next].threads[t].at > COPY && ss[i].chans[ss[i].threads[t].ch].own == 0xCBCBAF5F
    ensures ByCopy(ss, steps, i, next, t)
  {
    var s := ss[j];
    var th := s.threads[t];
    OwnOrNot(s, steps[j], t);
    PastPoll(t, Look(s, t));
    if th.at == COPY {
      assert Copied(ss, steps, j, next, t, s.chans[th.ch].body);
    } else {
      var c :| i < c && Copied(ss, steps, c, j, t, th.result);
      assert Copied(ss, steps, c, next, t, th.result);
    }
  }

  lemma OwnStepKnown(ss: seq<State>, steps: seq<Step>, i: nat, j: nat, next: nat, t: Tid)
    requires IsRun(ss, steps) && j < |steps| && next == j + 1 && steps[j] == Go(t) && Inv(ss[j]) && LeftPoll(ss, steps, i, j, t) && Known(ss, steps, i, j, t)
    requires ss[next].threads[t].at > POLL
    ensures LeftPoll(ss, steps, i, next, t) && Known(ss, steps, i, next, t)
  {
    OwnOrNot(ss[j], steps[j], t);
    PastPoll(t, Look(ss[j], t));
    if ss[i].chans[ss[i].threads[t].ch].own == 0xCBCBAF5F {
      OwnStepStatus(ss, steps, i, j, next, t);
      if ss[next].threads[t].at > COPY { OwnStepCopy(ss, steps, i, j, next, t); }
    }
  }

  /** Nor does a step of anybody else change it. */
  lemma StatusStays(ss: seq<State>, steps: seq<Step>, i: nat, j: nat, next: nat, t: Tid)
    requires next == j + 1 < |ss| && t in ss[j].threads && t in ss[next].threads && ss[next].threads[t] == ss[j].threads[t]
    ensures ByStatus(ss, steps, i, j, t) ==> ByStatus(ss, steps, i, next, t)
    ensures ByCopy(ss, steps, i, j, t) ==> ByCopy(ss, steps, i, next, t)
  {
    var th := ss[j].threads[t];
    if ByStatus(ss, steps, i, j, t) {
      var b, word :| i < b && ReadStatus(ss, steps, b, j, t, word) && th.k == CounterFor(th.op, word);
      assert ReadStatus(ss, steps, b, next, t, word);
    }
    if ByCopy(ss, steps, i, j, t) {
      var c :| i < c && Copied(ss, steps, c, j, t, th.result);
      assert Copied(ss, steps, c, next, t, th.result);
    }
  }

  lemma OtherStepKnown(ss: seq<State>, steps: seq<Step>, i: nat, j: nat, next: nat, t: Tid)
    requires IsRun(ss, steps) && j < |steps| && next == j + 1 && LeftPoll(ss, steps, i, j, t) && Known(ss, steps, i, j, t)
    requires t in ss[next].threads && ss[next].threads[t] == ss[j].threads[t]
    ensures LeftPoll(ss, steps, i, next, t) && Known(ss, steps, i, next, t)
  {
    StatusStays(ss, steps, i, j, next, t);
  }

  lemma StillKnown(ss: seq<State>, steps: seq<Step>, i: nat, j: nat, next: nat, t: Tid)
    requires IsRun(ss, steps) && j < |steps| && next == j + 1 && Inv(ss[j]) && LeftPoll(ss, steps, i, j, t) && Known(ss, steps, i, j, t)
    requires t in ss[next].threads && ss[next].threads[t].at > POLL && (steps[j] != Go(t) ==> ss[next].threads[t] == ss[j].threads[t])
    ensures LeftPoll(ss, steps, i, next, t) && Known(ss, steps, i, next, t)
  {
    if steps[j] == Go(t) { OwnStepKnown(ss, steps, i, j, next, t); } else { OtherStepKnown(ss, steps, i, j, next, t); }
  }

  /**
   The outcome of every posted message, in every run and with any peer.  The call
   gives up exactly if the last of 3001 looks at the owner word found no answer, and
   then it is counted as a timeout and takes nothing.  Otherwise its outcome is counted
   by the status word that it reads afterwards, and what it takes is what the message
   words hold at the copy.
   */
  lemma {:induction false} OutcomeIff(ss: seq<State>, steps: seq<Step>, j: nat, t: Tid) returns (i: nat)
    requires IsRun(ss, steps) && j < |ss| && t in ss[j].threads && Waited(ss[j].threads[t])
    ensures LeftPoll(ss, steps, i, j, t) && Known(ss, steps, i, j, t)
    decreases j
  {
    var before := WaitedFrom(ss, steps, j, t);
    if ss[before].threads[t].at == POLL {
      i := before;
      LeavesPoll(ss, steps, i, j, t);
    } else {
      i := OutcomeIff(ss, steps, before, t);
      StillKnown(ss, steps, i, before, j, t);
    }
  }

  lemma LeavesPoll(ss: seq<State>, steps: seq<Step>, i: nat, next: nat, t: Tid)
    requires IsRun(ss, steps) && next == i + 1 && i < |steps| && steps[i] == Go(t) && Inv(ss[i]) && t in ss[i].threads && ss[i].threads[t].at == POLL
    requires t in ss[next].threads && ss[next].threads[t].at > POLL
    ensures LeftPoll(ss, steps, i, next, t) && Known(ss, steps, i, next, t)
  {
    OwnOrNot(ss[i], steps[i], t);
    OutOfPoll(t, Look(ss[i], t));
    LooksAreCounted(ss, steps, i, t);
    NothingTakenYet(ss, steps, i, t);
  }

  // ---------------------------------------------------------------- counting

  /** One counter goes up by one and the others stand. */
  predicate Counts(before: Stats, after: Stats, k: Counter) {
    && after.msgs == before.msgs + (if k.Msgs? then 1 else 0)
    && after.success == before.success + (if k.Success? then 1 else 0)
    && after.fail == before.fail + (if k.Fail? then 1 else 0)
    && after.notPresent == before.notPresent + (if k.NotPresent? then 1 else 0)
    && after.unknown == before.unknown + (if k.Unknown? then 1 else 0)
    && after.timeouts == before.timeouts + (if k.Timeouts? then 1 else 0)
  }

  /** In step i a thread of process p, working on channel c, is at this place. */
  predicate StepsFrom(ss: seq<State>, steps: seq<Step>, i: nat, p: Pid, c: nat, at: Label)
    requires i < |steps| && i < |ss| && (steps[i].Go? ==> steps[i].t in ss[i].threads)
  {
    steps[i].Go? && ss[i].threads[steps[i].t].pid == p && ss[i].threads[steps[i].t].ch == c && ss[i].threads[steps[i].t].at == at
  }

  /** The counters of the thread's own process for its channel count the message when it is handed over, its outcome before the call ends, and nothing else. */
  lemma CountedOnce(ss: seq<State>, steps: seq<Step>, i: nat, p: Pid, c: nat)
    requires IsRun(ss, steps) && i < |steps| && p in ss[i].procs && c < 10
    ensures Shape(ss[i]) && Shape(ss[i + 1]) && p in ss[i + 1].procs
    ensures var before, after := ss[i].procs[p].local[c].stats, ss[i + 1].procs[p].local[c].stats;
      if StepsFrom(ss, steps, i, p, c, STORE_MSGS) then Counts(before, after, Msgs)
      else if StepsFrom(ss, steps, i, p, c, STORE_END) then Counts(before, after, ss[i].threads[steps[i].t].k)
      else after == before
  {
    RunKeepsInv(ss, steps, i);
    RunKeepsInv(ss, steps, i + 1);
    if steps[i].Go? {
      LookIsOk(ss[i], steps[i].t);
      StatsStep(steps[i].t, Look(ss[i], steps[i].t));
    }
  }

  lemma StatsStep(t: Tid, v: View)
    requires ThreadOk(t, v) && v.th.at != IDLE
    ensures var before, after := v.local.stats, StepOf(t, v).local.stats;
      if v.th.at == STORE_MSGS then Counts(before, after, Msgs)
      else if v.th.at == STORE_END then Counts(before, after, v.th.k)
      else after == before
  {
  }
}
