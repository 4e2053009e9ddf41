/**
 The shared-memory channel protocol of the chassis transceiver driver
 (chassis/sonic_platform/sfp.py, class MDIPC), as a state machine whose steps
 are single reads or writes of one shared word.

 Any number of threads in any number of processes allocate a channel, post a
 request, poll for the answer and free the channel.  Allocation runs under a
 per-process thread lock with a file lock inside it; freeing takes no lock.
 The NDK peer may post an answer at any moment, even long after the requester
 has given up.
 */
module MdIpc {
  import opened Wrappers

  const NUM_CHANNELS: nat := 10
  const OWN_NDK: nat := 0x5A5A3C3C
  const OWN_NOS: nat := 0x43211234
  const OWN_NOS_PREP: nat := 0xDEADBEEF
  const OWN_NOS_RSP: nat := 0xCBCBAF5F
  const RSP_SUCCESS: nat := 0
  const RSP_FAIL: nat := 1
  const RSP_NOTPRESENT: nat := 2
  const MAX_POLLS: nat := 3000
  const NOBODY: nat := 0
  const LOST: int := -1

  type Tid = nat
  type Pid = nat

  /** The data argument of a message: none, fewer bytes than the message makes room for, or enough. */
  datatype Data = Missing | TooShort | Enough

  datatype Op = Read | Write | Presence | WriteCdbChain | UnknownOp

  /** The words of a channel behind its header: a request, or the peer's answer to one. */
  datatype Body = Junk | Request(ticket: nat) | Response(ticket: nat, status: nat)

  datatype Channel = Channel(own: nat, msgId: nat, ownerId: nat, body: Body)

  /** What the peer is doing with a channel: nothing, serving a request, or answer written but not yet signalled. */
  datatype Job = NoJob | Picked(ticket: nat) | Answered(ticket: nat)

  datatype Counter = Msgs | Success | Fail | NotPresent | Unknown | Timeouts

  datatype Stats = Stats(msgs: nat, success: nat, fail: nat, notPresent: nat, unknown: nat, timeouts: nat)

  /** What a process keeps for itself about one channel. */
  datatype Local = Local(inUse: bool, stats: Stats)

  /**
   Where a thread stands, named after the shared access it performs next and
   numbered in program order, so that a stretch of the program is an interval.
   */
  type Label = n: nat | n <= 28
  const IDLE: Label := 0
  const TAKE_T: Label := 1
  const TAKE_P: Label := 2
  const DROP_T_MISS: Label := 3
  const DROP_P_MISS: Label := 4
  const READ_OWN: Label := 5
  const READ_ID: Label := 6
  const READ_USE: Label := 7
  const PUT_PREP: Label := 8
  const PUT_ID: Label := 9
  const PUT_USE: Label := 10
  const DROP_P_HIT: Label := 11
  const DROP_T_HIT: Label := 12
  const GET_MSG_ID: Label := 13
  const PUT_MSG_ID: Label := 14
  const PUT_TID: Label := 15
  const PUT_REQUEST: Label := 16
  const HAND_OFF: Label := 17
  const LOAD_MSGS: Label := 18
  const STORE_MSGS: Label := 19
  const POLL: Label := 20
  const READ_STATUS: Label := 21
  const LOAD_END: Label := 22
  const STORE_END: Label := 23
  const COPY: Label := 24
  const FREE_CHECK: Label := 25
  const FREE_USE: Label := 26
  const FREE_ID: Label := 27
  const FREE_OWN: Label := 28

  /**
   One thread: its process, its place in the program, the channel index it is
   working on, a scratch number (poll count or loaded word), the counter its
   outcome falls under, its current call, and the last answer it took.
   */
  datatype Thread = Thread(pid: Pid, at: Label, ch: nat, num: nat, k: Counter,
                           op: Op, data: Data, ticket: nat, result: Body)

  /** One process: the holder of its thread lock, and its own book-keeping per channel. */
  datatype Process = Process(lock: Tid, local: seq<Local>)

  /**
   The whole system.  Three history variables per channel: `holder`, who is
   between the first allocating write and the last freeing write, or LOST if a call
   raised in between; `tainted`, whether the channel was ever given up on by a timeout
   or an exception; `clean`, whether the peer owed no answer on it when the latest
   request was written.
   */
  datatype State = State(
    chans: seq<Channel>,
    jobs: seq<Job>,
    holder: seq<int>,
    tainted: seq<bool>,
    clean: seq<bool>,
    threads: map<Tid, Thread>,
    procs: map<Pid, Process>,
    fileLock: Option<Pid>,
    nextTicket: nat,
    alreadyInUse: nat,
    bogusOwner: nat)

  /** All that one step of one thread can see or change. */
  datatype View = View(th: Thread, chan: Channel, job: Job, holder: int, tainted: bool, clean: bool,
                       local: Local, lock: Tid, fileLock: Option<Pid>, alreadyInUse: nat, bogusOwner: nat)

  datatype Step =
    | Call(t: Tid, op: Op, data: Data)
    | Go(t: Tid)
    | NdkPickup(c: nat)
    | NdkAnswer(c: nat, status: nat)
    | NdkSignal(c: nat)
    | NdkRogue(c: nat, body: Body)

  // ---------------------------------------------------------------- small helpers

  const NO_STATS := Stats(0, 0, 0, 0, 0, 0)

  function Get(st: Stats, k: Counter): nat {
    match k
    case Msgs => st.msgs
    case Success => st.success
    case Fail => st.fail
    case NotPresent => st.notPresent
    case Unknown => st.unknown
    case Timeouts => st.timeouts
  }

  function Set(st: Stats, k: Counter, v: nat): Stats {
    match k
    case Msgs => st.(msgs := v)
    case Success => st.(success := v)
    case Fail => st.(fail := v)
    case NotPresent => st.(notPresent := v)
    case Unknown => st.(unknown := v)
    case Timeouts => st.(timeouts := v)
  }

  function Finished(st: Stats): nat {
    st.success + st.fail + st.notPresent + st.unknown + st.timeouts
  }

  /** Which counter a response status falls under; a presence query answers "present" with status 1. */
  function Classify(op: Op, status: nat): Counter {
    if status == RSP_SUCCESS then Success
    else if status == RSP_FAIL then (if op != Presence then Fail else Success)
    else if status == RSP_NOTPRESENT then NotPresent
    else Unknown
  }

  /** The status word still holds the message id until the peer overwrites it. */
  function StatusWord(ch: Channel): nat {
    if ch.body.Response? then ch.body.status else ch.msgId
  }

  function TicketOf(b: Body): nat {
    if b.Junk? then 0 else b.ticket
  }

  /** msg_send refuses an unknown operation, and a write that carries no data. */
  predicate Refused(th: Thread) {
    th.op.UnknownOp? || ((th.op.Write? || th.op.WriteCdbChain?) && th.data.Missing?)
  }

  /** It raises, and leaves the channel as it is, when there is too little data. */
  predicate Raises(th: Thread) {
    (th.op.Write? || th.op.WriteCdbChain?) && th.data.TooShort?
  }

  /** The request gets written. */
  predicate Posts(th: Thread) {
    !Refused(th) && !Raises(th)
  }

  // ---------------------------------------------------------------- what a program point means

  /** Inside the file lock. */
  predicate HoldsP(at: Label) {
    DROP_P_MISS <= at <= DROP_P_HIT
  }

  /** Inside the thread lock. */
  predicate HoldsT(at: Label) {
    TAKE_P <= at <= DROP_T_HIT
  }

  /** The thread has seen its channel free and is about to claim it. */
  predicate Eyes(at: Label) {
    READ_ID <= at <= PUT_PREP
  }

  /** The thread has claimed its channel and not yet given it back. */
  predicate Claims(at: Label) {
    PUT_ID <= at <= FREE_OWN
  }

  /** From the owner id being written until it is cleared. */
  predicate Holds(at: Label) {
    PUT_USE <= at <= FREE_ID
  }

  /** The process-local in_use mark is up. */
  predicate Marked(at: Label) {
    DROP_P_HIT <= at <= FREE_USE
  }

  /** The message has been counted and its outcome has not. */
  predicate InFlight(at: Label) {
    POLL <= at <= STORE_END
  }

  // ---------------------------------------------------------------- the steps

  ghost predicate Shape(s: State) {
    && |s.chans| == |s.jobs| == |s.holder| == |s.tainted| == |s.clean| == NUM_CHANNELS
    && NOBODY !in s.threads
    && (forall p :: p in s.procs ==> |s.procs[p].local| == NUM_CHANNELS)
    && (forall t :: t in s.threads ==> s.threads[t].pid in s.procs && s.threads[t].ch < NUM_CHANNELS)
  }

  ghost function Look(s: State, t: Tid): View
    requires Shape(s) && t in s.threads
  {
    var th := s.threads[t];
    View(th, s.chans[th.ch], s.jobs[th.ch], s.holder[th.ch], s.tainted[th.ch], s.clean[th.ch],
         s.procs[th.pid].local[th.ch], s.procs[th.pid].lock, s.fileLock, s.alreadyInUse, s.bogusOwner)
  }

  /** Writes a thread's view back to where it was looked up; a thread never touches the peer's own state. */
  ghost function Put(s: State, t: Tid, v: View): State
    requires Shape(s) && t in s.threads
  {
    var th := s.threads[t];
    s.(chans := s.chans[th.ch := v.chan],
       holder := s.holder[th.ch := v.holder],
       tainted := s.tainted[th.ch := v.tainted],
       clean := s.clean[th.ch := v.clean],
       threads := s.threads[t := v.th],
       procs := s.procs[th.pid := Process(v.lock, s.procs[th.pid].local[th.ch := v.local])],
       fileLock := v.fileLock,
       alreadyInUse := v.alreadyInUse,
       bogusOwner := v.bogusOwner)
  }

  ghost predicate Enabled(s: State, step: Step) {
    && Shape(s)
    && match step
       case Call(t, _, _) => t in s.threads && s.threads[t].at == IDLE
       case Go(t) => t in s.threads && CanGo(Look(s, t))
       case NdkPickup(c) => c < NUM_CHANNELS && s.chans[c].own == OWN_NDK && s.jobs[c].NoJob?
       case NdkAnswer(c, _) => c < NUM_CHANNELS && s.jobs[c].Picked?
       case NdkSignal(c) => c < NUM_CHANNELS && s.jobs[c].Answered?
       case NdkRogue(c, _) => c < NUM_CHANNELS
  }

  ghost function Do(s: State, step: Step): State
    requires Enabled(s, step)
  {
    match step
    case Call(t, op, data) =>
      s.(threads := s.threads[t := s.threads[t].(at := TAKE_T, op := op, data := data, ticket := s.nextTicket, result := Junk)],
         nextTicket := s.nextTicket + 1)
    case Go(t) => Put(s, t, StepOf(t, Look(s, t)))
    case NdkPickup(c) =>
      s.(jobs := s.jobs[c := Picked(TicketOf(s.chans[c].body))])
    case NdkAnswer(c, status) =>
      s.(chans := s.chans[c := s.chans[c].(body := Response(s.jobs[c].ticket, status))],
         jobs := s.jobs[c := Answered(s.jobs[c].ticket)])
    case NdkSignal(c) =>
      s.(chans := s.chans[c := s.chans[c].(own := OWN_NOS_RSP)], jobs := s.jobs[c := NoJob])
    case NdkRogue(c, body) =>
      s.(chans := s.chans[c := s.chans[c].(own := OWN_NOS_RSP, body := body)])
  }

  /** A thread waits at its two locks and nowhere else. */
  predicate CanGo(v: View) {
    v.th.at != IDLE && (v.th.at == TAKE_T ==> v.lock == NOBODY) && (v.th.at == TAKE_P ==> v.fileLock.None?)
  }

  /** The search goes on to the next channel, or ends without one. */
  function Onward(th: Thread): Thread {
    if th.ch + 1 == NUM_CHANNELS then th.(at := DROP_P_MISS) else th.(at := READ_OWN, ch := th.ch + 1)
  }

  /** One step of thread t: one shared access, at the line its label names. */
  function StepOf(t: Tid, v: View): View {
    if InObtain(v.th.at) then ObtainStep(t, v)
    else if InPost(v.th.at) then PostStep(t, v)
    else if InAnswer(v.th.at) then AnswerStep(t, v)
    else FreeStep(t, v)
  }

  predicate InObtain(at: Label) {
    TAKE_T <= at <= DROP_T_HIT
  }

  predicate InPost(at: Label) {
    GET_MSG_ID <= at <= STORE_MSGS
  }

  predicate InAnswer(at: Label) {
    POLL <= at <= COPY
  }

  predicate InFree(at: Label) {
    FREE_CHECK <= at <= FREE_OWN
  }

  /** obtain_channel: the two locks, the search, the three claiming writes. */
  function ObtainStep(t: Tid, v: View): View {
    var th := v.th;
    if th.at == TAKE_T then v.(th := th.(at := TAKE_P), lock := t)
    else if th.at == TAKE_P then v.(th := th.(at := READ_OWN, ch := 0), fileLock := Some(th.pid))
    else if th.at == READ_OWN then v.(th := if v.chan.own == OWN_NOS then th.(at := READ_ID) else Onward(th))
    else if th.at == READ_ID then v.(th := if v.chan.ownerId == 0 then th.(at := READ_USE) else Onward(th))
    else if th.at == READ_USE then v.(th := th.(at := PUT_PREP), alreadyInUse := v.alreadyInUse + if v.local.inUse then 1 else 0)
    else if th.at == PUT_PREP then v.(th := th.(at := PUT_ID), chan := v.chan.(own := OWN_NOS_PREP), holder := t)
    else if th.at == PUT_ID then v.(th := th.(at := PUT_USE), chan := v.chan.(ownerId := t))
    else if th.at == PUT_USE then v.(th := th.(at := DROP_P_HIT), local := v.local.(inUse := true))
    else if th.at == DROP_P_MISS then v.(th := th.(at := DROP_T_MISS), fileLock := None)
    else if th.at == DROP_T_MISS then v.(th := th.(at := IDLE), lock := NOBODY)
    else if th.at == DROP_P_HIT then v.(th := th.(at := DROP_T_HIT), fileLock := None)
    else if th.at == DROP_T_HIT then v.(th := th.(at := GET_MSG_ID), lock := NOBODY)
    else v
  }

  /** msg_send, first half: fill in the request, hand it over, count the message. */
  function PostStep(t: Tid, v: View): View {
    var th := v.th;
    if th.at == GET_MSG_ID then v.(th := th.(at := PUT_MSG_ID, num := v.chan.msgId + 1))
    else if th.at == PUT_MSG_ID then v.(th := th.(at := PUT_TID), chan := v.chan.(msgId := th.num))
    else if th.at == PUT_TID then v.(th := th.(at := PUT_REQUEST), chan := v.chan.(ownerId := t))
    else if th.at == PUT_REQUEST then
      if Refused(th) then v.(th := th.(at := FREE_CHECK))
      else if Raises(th) then v.(th := th.(at := IDLE), holder := LOST, tainted := true)
      else v.(th := th.(at := HAND_OFF), chan := v.chan.(body := Request(th.ticket)), clean := v.job.NoJob?)
    else if th.at == HAND_OFF then v.(th := th.(at := LOAD_MSGS), chan := v.chan.(own := OWN_NDK))
    else if th.at == LOAD_MSGS then v.(th := th.(at := STORE_MSGS, num := v.local.stats.msgs + 1))
    else if th.at == STORE_MSGS then v.(th := th.(at := POLL, num := 0), local := v.local.(stats := v.local.stats.(msgs := th.num)))
    else v
  }

  /** msg_send, second half: wait, count the outcome, take the answer. */
  function AnswerStep(t: Tid, v: View): View {
    var th := v.th;
    if th.at == POLL then
      if v.chan.own == OWN_NOS_RSP then v.(th := th.(at := READ_STATUS))
      else if th.num + 1 > MAX_POLLS then v.(th := th.(at := LOAD_END, k := Timeouts), tainted := true)
      else v.(th := th.(num := th.num + 1))
    else if th.at == READ_STATUS then v.(th := th.(at := LOAD_END, k := Classify(th.op, StatusWord(v.chan))))
    else if th.at == LOAD_END then v.(th := th.(at := STORE_END, num := Get(v.local.stats, th.k) + 1))
    else if th.at == STORE_END then
      v.(th := th.(at := if th.k.Timeouts? then FREE_CHECK else COPY),
         local := v.local.(stats := Set(v.local.stats, th.k, th.num)))
    else if th.at == COPY then v.(th := th.(at := FREE_CHECK, result := v.chan.body))
    else v
  }

  /** free_channel: two unlocked word writes, owner id first, owner word last. */
  function FreeStep(t: Tid, v: View): View {
    var th := v.th;
    if th.at == FREE_CHECK then v.(th := th.(at := FREE_USE), bogusOwner := v.bogusOwner + if v.chan.ownerId != t then 1 else 0)
    else if th.at == FREE_USE then v.(th := th.(at := FREE_ID), local := v.local.(inUse := false))
    else if th.at == FREE_ID then v.(th := th.(at := FREE_OWN), chan := v.chan.(ownerId := 0))
    else if th.at == FREE_OWN then v.(th := th.(at := IDLE), chan := v.chan.(own := OWN_NOS), holder := NOBODY)
    else v
  }

  // ---------------------------------------------------------------- the invariant

  /** What a thread's program point says about the locks and its own channel. */
  predicate PlaceOk(t: Tid, v: View) {
    var th := v.th;
    && (HoldsT(th.at) <==> v.lock == t)
    && (HoldsP(th.at) ==> v.fileLock == Some(th.pid))
    && (v.fileLock == Some(th.pid) && v.lock == t ==> HoldsP(th.at))
    && (Claims(th.at) <==> v.holder == t)
    && (Eyes(th.at) ==> v.holder == NOBODY)
    && (Holds(th.at) ==> v.chan.ownerId == t)
  }

  /** What it says about its process's book-keeping for that channel. */
  predicate BooksOk(t: Tid, v: View) {
    var th := v.th;
    && (v.holder == t ==> (Marked(th.at) <==> v.local.inUse))
    && (th.at == LOAD_END || th.at == STORE_END ==> !th.k.Msgs?)
    && (th.at == STORE_MSGS ==> th.num == v.local.stats.msgs + 1)
    && (th.at == STORE_END ==> th.num == Get(v.local.stats, th.k) + 1)
    && (v.holder == t ==> v.local.stats.msgs == Finished(v.local.stats) + if InFlight(th.at) then 1 else 0)
  }

  predicate ThreadOk(t: Tid, v: View) {
    PlaceOk(t, v) && BooksOk(t, v)
  }

  /** A claimed channel is claimed by the thread working on it, if any, and its owner word is never "free". */
  ghost predicate ChanOk(s: State, c: nat)
    requires Shape(s) && c < NUM_CHANNELS
  {
    s.holder[c] != NOBODY ==>
      && s.chans[c].own != OWN_NOS
      && (s.holder[c] != LOST ==> s.holder[c] in s.threads && s.threads[s.holder[c] as Tid].ch == c)
  }

  /** A process's own book-keeping is balanced, and unmarked, on every channel none of its threads has claimed. */
  ghost predicate LocalOk(s: State, p: Pid, c: nat)
    requires Shape(s) && p in s.procs && c < NUM_CHANNELS
  {
    (s.holder[c] in s.threads ==> s.threads[s.holder[c] as Tid].pid != p) ==>
      && (s.holder[c] != LOST ==> !s.procs[p].local[c].inUse)
      && s.procs[p].local[c].stats.msgs == Finished(s.procs[p].local[c].stats)
  }

  /** The locks are held by someone entitled to them. */
  ghost predicate LockOk(s: State, p: Pid)
    requires Shape(s) && p in s.procs
  {
    && (s.procs[p].lock != NOBODY ==> s.procs[p].lock in s.threads && s.threads[s.procs[p].lock].pid == p)
    && (s.fileLock == Some(p) ==> s.procs[p].lock != NOBODY)
  }

  ghost predicate Inv(s: State) {
    && Shape(s)
    && s.alreadyInUse == 0
    && s.bogusOwner == 0
    && (forall t {:trigger Look(s, t)} :: t in s.threads ==> ThreadOk(t, Look(s, t)))
    && (forall c {:trigger ChanOk(s, c)} :: 0 <= c < NUM_CHANNELS ==> ChanOk(s, c))
    && (forall p, c {:trigger LocalOk(s, p, c)} :: p in s.procs && 0 <= c < NUM_CHANNELS ==> LocalOk(s, p, c))
    && (forall p {:trigger LockOk(s, p)} :: p in s.procs ==> LockOk(s, p))
  }

  ghost predicate Init(s: State) {
    && Shape(s)
    && (forall t :: t in s.threads ==> s.threads[t].at == IDLE)
    && (forall p :: p in s.procs ==> s.procs[p].lock == NOBODY)
    && (forall p, c :: p in s.procs && 0 <= c < NUM_CHANNELS ==> s.procs[p].local[c] == Local(false, NO_STATS))
    && (forall c :: 0 <= c < NUM_CHANNELS ==> s.holder[c] == NOBODY && !s.tainted[c] && s.jobs[c] == NoJob)
    && s.fileLock == None && s.alreadyInUse == 0 && s.bogusOwner == 0
  }

  lemma InitEstablishesInv(s: State)
    requires Init(s)
    ensures Inv(s)
  {
  }

  /** What the channel and the locks say in a thread's view, whoever holds them. */
  predicate ViewOk(v: View) {
    && (v.holder != NOBODY ==> v.chan.own != OWN_NOS)
    && (v.holder == NOBODY ==> !v.local.inUse)
    && (v.holder == NOBODY || v.holder == LOST ==> v.local.stats.msgs == Finished(v.local.stats))
    && (v.fileLock == Some(v.th.pid) ==> v.lock != NOBODY)
    && v.alreadyInUse == 0 && v.bogusOwner == 0
  }

  /** A step from v to w leaves other threads' channels and locks alone. */
  predicate Polite(t: Tid, v: View, w: View) {
    && w.th.pid == v.th.pid && w.job == v.job
    && w.th.ch < NUM_CHANNELS
    // it writes to its own channel, or claims an unclaimed one under both locks, or writes nothing
    && (v.holder == t
        || (v.holder == NOBODY && HoldsP(v.th.at) && w.holder == t && w.local == v.local && w.tainted == v.tainted)
        || (w.holder == v.holder && w.chan == v.chan && w.local == v.local && w.tainted == v.tainted && w.clean == v.clean))
    && (w.holder == v.holder || w.holder == t || w.holder == NOBODY || (w.holder == LOST && v.holder == t))
    && (w.lock == v.lock || (v.lock == NOBODY && w.lock == t) || (v.lock == t && w.lock == NOBODY))
    && (w.fileLock == v.fileLock || (v.fileLock == None && w.fileLock == Some(v.th.pid) && v.lock == t)
        || (v.fileLock == Some(v.th.pid) && v.lock == t && w.fileLock == None))
    // it moves on to another channel only inside the search
    && (w.th.ch != v.th.ch ==> w.th.at == READ_OWN && v.holder != t && w.holder != t)
  }

  /** One thread's own step: its facts survive, and it disturbs nobody. */
  ghost predicate GoodStep(t: Tid, v: View, w: View) {
    && ViewOk(w)
    && Polite(t, v, w)
    && (w.th.ch == v.th.ch ==> ThreadOk(t, w))
    && (w.th.ch != v.th.ch ==> w.lock == t && w.fileLock == Some(w.th.pid))
  }

  lemma ObtainKeepsView(t: Tid, v: View)
    requires t != NOBODY && CanGo(v) && ThreadOk(t, v) && ViewOk(v) && InObtain(v.th.at)
    ensures ViewOk(ObtainStep(t, v))
  {
  }

  lemma LaterStepKeepsView(t: Tid, v: View)
    requires t != NOBODY && ThreadOk(t, v) && ViewOk(v) && GET_MSG_ID <= v.th.at
    ensures ViewOk(StepOf(t, v))
  {
  }

  lemma ObtainIsPolite(t: Tid, v: View)
    requires t != NOBODY && v.th.ch < NUM_CHANNELS && CanGo(v) && PlaceOk(t, v) && ViewOk(v) && InObtain(v.th.at)
    ensures Polite(t, v, ObtainStep(t, v))
  {
  }

  lemma LaterStepIsPolite(t: Tid, v: View)
    requires t != NOBODY && v.th.ch < NUM_CHANNELS && PlaceOk(t, v) && GET_MSG_ID <= v.th.at
    ensures Polite(t, v, StepOf(t, v))
  {
  }

  /** What an allocating step leaves to be shown of the thread that took it. */
  ghost predicate StillOk(t: Tid, v: View, w: View) {
    if w.th.ch == v.th.ch then ThreadOk(t, w) else w.lock == t && w.fileLock == Some(w.th.pid)
  }

  lemma LockingKeepsThread(t: Tid, v: View)
    requires t != NOBODY && CanGo(v) && ThreadOk(t, v) && ViewOk(v) && TAKE_T <= v.th.at <= DROP_P_MISS
    ensures StillOk(t, v, ObtainStep(t, v))
  {
  }

  lemma ClaimingKeepsThread(t: Tid, v: View)
    requires t != NOBODY && ThreadOk(t, v) && ViewOk(v) && READ_OWN <= v.th.at <= DROP_T_HIT
    ensures StillOk(t, v, ObtainStep(t, v))
  {
  }

  lemma ObtainKeepsThread(t: Tid, v: View)
    requires t != NOBODY && CanGo(v) && ThreadOk(t, v) && ViewOk(v) && InObtain(v.th.at)
    ensures StillOk(t, v, ObtainStep(t, v))
  {
    if v.th.at <= DROP_P_MISS { LockingKeepsThread(t, v); } else { ClaimingKeepsThread(t, v); }
  }

  lemma PostKeepsThread(t: Tid, v: View)
    requires t != NOBODY && ThreadOk(t, v) && InPost(v.th.at)
    ensures ThreadOk(t, PostStep(t, v))
  {
  }

  lemma AnswerKeepsPlace(t: Tid, v: View)
    requires t != NOBODY && ThreadOk(t, v) && InAnswer(v.th.at)
    ensures PlaceOk(t, AnswerStep(t, v))
  {
  }

  /** Counting an outcome, whichever it is, balances the message counted before. */
  lemma OutcomeBalances(st: Stats, k: Counter)
    requires !k.Msgs? && st.msgs == Finished(st) + 1
    ensures var st' := Set(st, k, Get(st, k) + 1); st'.msgs == Finished(st')
  {
  }

  lemma CountingKeepsBooks(t: Tid, v: View)
    requires t != NOBODY && ThreadOk(t, v) && v.th.at == STORE_END
    ensures BooksOk(t, AnswerStep(t, v))
  {
    OutcomeBalances(v.local.stats, v.th.k);
  }

  lemma AnswerKeepsBooks(t: Tid, v: View)
    requires t != NOBODY && ThreadOk(t, v) && InAnswer(v.th.at)
    ensures BooksOk(t, AnswerStep(t, v))
  {
    if v.th.at == STORE_END { CountingKeepsBooks(t, v); }
  }

  lemma FreeKeepsThread(t: Tid, v: View)
    requires t != NOBODY && ThreadOk(t, v) && InFree(v.th.at)
    ensures ThreadOk(t, FreeStep(t, v))
  {
  }

  lemma StepIsGood(t: Tid, v: View)
    requires t != NOBODY && v.th.ch < NUM_CHANNELS && CanGo(v) && ThreadOk(t, v) && ViewOk(v)
    ensures GoodStep(t, v, StepOf(t, v))
  {
    if GET_MSG_ID <= v.th.at {
      LaterStepKeepsView(t, v);
      LaterStepIsPolite(t, v);
    }
    if InObtain(v.th.at) {
      ObtainKeepsView(t, v);
      ObtainIsPolite(t, v);
      ObtainKeepsThread(t, v);
    } else if InPost(v.th.at) {
      PostKeepsThread(t, v);
    } else if InAnswer(v.th.at) {
      AnswerKeepsPlace(t, v);
      AnswerKeepsBooks(t, v);
    } else {
      FreeKeepsThread(t, v);
    }
  }

  lemma LookIsOk(s: State, t: Tid)
    requires Inv(s) && t in s.threads
    ensures ThreadOk(t, Look(s, t)) && ViewOk(Look(s, t))
  {
    assert ChanOk(s, s.threads[t].ch) && LocalOk(s, s.threads[t].pid, s.threads[t].ch) && LockOk(s, s.threads[t].pid);
  }

  /** A polite step of thread t leaves every other thread's facts standing. */
  lemma OthersUnmoved(s: State, t: Tid, w: View, u: Tid)
    requires Inv(s) && t in s.threads && Polite(t, Look(s, t), w) && ViewOk(w)
    requires u in s.threads && u != t
    ensures ThreadOk(u, Look(Put(s, t, w), u))
  {
    LookIsOk(s, t);
    LookIsOk(s, u);
    var s' := Put(s, t, w);
    assert s'.threads[u] == s.threads[u];
  }

  lemma SelfMoved(s: State, t: Tid, w: View)
    requires Inv(s) && t in s.threads && GoodStep(t, Look(s, t), w)
    ensures ThreadOk(t, Look(Put(s, t, w), t))
  {
    assert ChanOk(s, w.th.ch);
    assert w.th.ch == Look(s, t).th.ch ==> Look(Put(s, t, w), t) == w;
  }

  lemma PutKeepsChans(s: State, t: Tid, w: View, c: nat)
    requires Inv(s) && t in s.threads && Polite(t, Look(s, t), w) && ViewOk(w)
    requires c < NUM_CHANNELS
    ensures ChanOk(Put(s, t, w), c)
  {
    LookIsOk(s, t);
    assert ChanOk(s, c);
  }

  lemma PutKeepsLocals(s: State, t: Tid, w: View, p: Pid, c: nat)
    requires Inv(s) && t in s.threads && Polite(t, Look(s, t), w) && ViewOk(w)
    requires p in s.procs && c < NUM_CHANNELS
    ensures LocalOk(Put(s, t, w), p, c)
  {
    LookIsOk(s, t);
    assert LocalOk(s, p, c) && ChanOk(s, c);
  }

  lemma PutKeepsLocks(s: State, t: Tid, w: View, p: Pid)
    requires Inv(s) && t in s.threads && Polite(t, Look(s, t), w) && ViewOk(w)
    requires p in s.procs
    ensures LockOk(Put(s, t, w), p)
  {
    LookIsOk(s, t);
    assert LockOk(s, p);
  }

  lemma StepKeepsInv(s: State, step: Step)
    requires Inv(s) && Enabled(s, step)
    ensures Inv(Do(s, step))
  {
    match step
    case Go(t) =>
      LookIsOk(s, t);
      StepIsGood(t, Look(s, t));
      PutKeepsInv(s, t, StepOf(t, Look(s, t)));
    case Call(t, op, data) => CallKeepsInv(s, t, op, data);
    case _ => NdkStepKeepsInv(s, step);
  }

  lemma PutKeepsThreads(s: State, t: Tid, w: View)
    requires Inv(s) && t in s.threads && GoodStep(t, Look(s, t), w)
    ensures var s' := Put(s, t, w);
            Shape(s') && forall u {:trigger Look(s', u)} :: u in s'.threads ==> ThreadOk(u, Look(s', u))
  {
    var s' := Put(s, t, w);
    forall u | u in s'.threads
      ensures ThreadOk(u, Look(s', u))
    {
      if u != t { OthersUnmoved(s, t, w, u); } else { SelfMoved(s, t, w); }
    }
  }

  lemma PutKeepsInv(s: State, t: Tid, w: View)
    requires Inv(s) && t in s.threads && GoodStep(t, Look(s, t), w)
    ensures Inv(Put(s, t, w))
  {
    var s' := Put(s, t, w);
    PutKeepsThreads(s, t, w);
    forall c | 0 <= c < NUM_CHANNELS ensures ChanOk(s', c) { PutKeepsChans(s, t, w, c); }
    forall p, c | p in s'.procs && 0 <= c < NUM_CHANNELS ensures LocalOk(s', p, c) { PutKeepsLocals(s, t, w, p, c); }
    forall p | p in s'.procs ensures LockOk(s', p) { PutKeepsLocks(s, t, w, p); }
  }

  lemma CallKeepsInv(s: State, t: Tid, op: Op, data: Data)
    requires Inv(s) && Enabled(s, Call(t, op, data))
    ensures Inv(Do(s, Call(t, op, data)))
  {
    var s' := Do(s, Call(t, op, data));
    forall u | u in s'.threads ensures ThreadOk(u, Look(s', u)) { LookIsOk(s, u); }
    forall c | 0 <= c < NUM_CHANNELS ensures ChanOk(s', c) { assert ChanOk(s, c); }
    forall p, c | p in s'.procs && 0 <= c < NUM_CHANNELS ensures LocalOk(s', p, c) { assert LocalOk(s, p, c); }
    forall p | p in s'.procs ensures LockOk(s', p) { assert LockOk(s, p); }
  }

  /** Whatever the peer does to a channel, it never frees it and never touches its owner id. */
  lemma NdkStepKeepsInv(s: State, step: Step)
    requires Inv(s) && Enabled(s, step) && !step.Go? && !step.Call?
    ensures Inv(Do(s, step))
  {
    var s' := Do(s, step);
    forall u | u in s'.threads ensures ThreadOk(u, Look(s', u)) { LookIsOk(s, u); }
    forall c | 0 <= c < NUM_CHANNELS ensures ChanOk(s', c) { assert ChanOk(s, c); }
    forall p, c | p in s'.procs && 0 <= c < NUM_CHANNELS ensures LocalOk(s', p, c) { assert LocalOk(s, p, c); }
    forall p | p in s'.procs ensures LockOk(s', p) { assert LockOk(s, p); }
  }

  // ---------------------------------------------------------------- whole runs

  /** A run from a starting state: each state follows from the one before by an enabled step. */
  ghost predicate IsRun(ss: seq<State>, steps: seq<Step>) {
    && |ss| == |steps| + 1
    && Init(ss[0])
    && forall i :: 0 <= i < |steps| ==> Enabled(ss[i], steps[i]) && ss[i + 1] == Do(ss[i], steps[i])
  }

  lemma {:induction false} RunKeepsInv(ss: seq<State>, steps: seq<Step>, i: nat)
    requires IsRun(ss, steps) && i < |ss|
    ensures Inv(ss[i])
  {
    if i == 0 {
      InitEstablishesInv(ss[0]);
    } else {
      RunKeepsInv(ss, steps, i - 1);
      StepKeepsInv(ss[i - 1], steps[i - 1]);
    }
  }

  /** Thread t is between the first allocating write and the last freeing write on channel c. */
  ghost predicate Occupies(s: State, t: Tid, c: nat) {
    t in s.threads && s.threads[t].ch == c && Claims(s.threads[t].at)
  }

  /** In every run, with a peer that posts answers whenever it likes, no two threads occupy the same channel. */
  lemma MutualExclusion(ss: seq<State>, steps: seq<Step>, i: nat, t: Tid, u: Tid, c: nat)
    requires IsRun(ss, steps) && i < |ss|
    requires Occupies(ss[i], t, c) && Occupies(ss[i], u, c)
    ensures t == u
  {
    RunKeepsInv(ss, steps, i);
    LookIsOk(ss[i], t);
    LookIsOk(ss[i], u);
  }

  /**
   The owner-id word names the occupant, except inside the allocator's critical
   section, just before the id is written, and at the very last freeing write.
   A free owner word means nobody occupies the channel.
   */
  lemma OwnerWordsTellTheTruth(ss: seq<State>, steps: seq<Step>, i: nat, t: Tid, c: nat)
    requires IsRun(ss, steps) && i < |ss| && Occupies(ss[i], t, c)
    ensures Shape(ss[i]) && c < NUM_CHANNELS && ss[i].chans[c].own != OWN_NOS
    ensures ss[i].chans[c].ownerId == t || HoldsP(ss[i].threads[t].at) || ss[i].threads[t].at == FREE_OWN
  {
    RunKeepsInv(ss, steps, i);
    LookIsOk(ss[i], t);
  }

  /**
   Per process and channel, every message counted is accounted for exactly once
   as an outcome, or is still in flight; in flight is at most one.  The counters
   are bumped by an unlocked load and store, so this rests on mutual exclusion.
   */
  lemma EveryMessageAccountedFor(ss: seq<State>, steps: seq<Step>, i: nat, p: Pid, c: nat)
    requires IsRun(ss, steps) && i < |ss| && p in ss[i].procs && c < NUM_CHANNELS
    ensures Shape(ss[i])
    ensures var st := ss[i].procs[p].local[c].stats;
            var flying := exists t :: t in ss[i].threads && ss[i].threads[t].pid == p && ss[i].threads[t].ch == c && InFlight(ss[i].threads[t].at);
            st.msgs == st.success + st.fail + st.notPresent + st.unknown + st.timeouts + if flying then 1 else 0
  {
    RunKeepsInv(ss, steps, i);
    var s := ss[i];
    assert LocalOk(s, p, c);
    var h := s.holder[c];
    forall t | t in s.threads && s.threads[t].ch == c && InFlight(s.threads[t].at) ensures t == h { LookIsOk(s, t); }
    if h in s.threads && s.threads[h].pid == p {
      assert ChanOk(s, c);
      LookIsOk(s, h);
    }
  }

  /** The two "cannot happen" branches, a channel already in use and a bogus owner id, are never taken. */
  lemma ErrorBranchesUnreachable(ss: seq<State>, steps: seq<Step>, i: nat)
    requires IsRun(ss, steps) && i < |ss|
    ensures ss[i].alreadyInUse == 0 && ss[i].bogusOwner == 0
  {
    RunKeepsInv(ss, steps, i);
  }

  // ---------------------------------------------------------------- whose answer is it

  predicate BeforeRequest(at: Label) {
    PUT_ID <= at <= PUT_REQUEST
  }

  predicate Awaiting(at: Label) {
    LOAD_MSGS <= at <= POLL
  }

  predicate Answering(th: Thread) {
    th.at == READ_STATUS || th.at == COPY || ((th.at == LOAD_END || th.at == STORE_END) && !th.k.Timeouts?)
  }

  predicate IsAnswerTo(b: Body, ticket: nat) {
    b.Response? && b.ticket == ticket
  }

  /** How far the peer has got with the request of the thread that holds the channel. */
  predicate ReplyOk(th: Thread, chan: Channel, job: Job, tainted: bool, clean: bool) {
    && (BeforeRequest(th.at) ==> chan.own != OWN_NDK)
    && (!tainted && BeforeRequest(th.at) ==> chan.own == OWN_NOS_PREP && job.NoJob?)
    && (!tainted && (th.at == HAND_OFF || Awaiting(th.at) || Answering(th)) ==> clean)
    && (!tainted && InFree(th.at) ==> job.NoJob? && chan.own != OWN_NDK)
    && (!tainted ==> !((th.at == LOAD_END || th.at == STORE_END) && th.k.Timeouts?))
    && (clean && th.at == HAND_OFF ==> chan.own != OWN_NDK && job.NoJob? && chan.body == Request(th.ticket))
    && (clean && Awaiting(th.at) ==>
          || (chan.own == OWN_NDK && job.NoJob? && chan.body == Request(th.ticket))
          || (chan.own == OWN_NDK && job == Picked(th.ticket))
          || (chan.own == OWN_NDK && job == Answered(th.ticket) && IsAnswerTo(chan.body, th.ticket))
          || (chan.own == OWN_NOS_RSP && job.NoJob? && IsAnswerTo(chan.body, th.ticket)))
    && (clean && Answering(th) ==> chan.own == OWN_NOS_RSP && job.NoJob? && IsAnswerTo(chan.body, th.ticket))
  }

  ghost predicate ChannelReplyOk(s: State, c: nat)
    requires Shape(s) && c < NUM_CHANNELS
  {
    if s.holder[c] in s.threads then ReplyOk(s.threads[s.holder[c] as Tid], s.chans[c], s.jobs[c], s.tainted[c], s.clean[c])
    else !s.tainted[c] && s.chans[c].own == OWN_NOS ==> s.jobs[c].NoJob?
  }

  /** A searching thread that has seen a channel free will still find it so. */
  ghost predicate StillFree(s: State, t: Tid)
    requires Shape(s) && t in s.threads
  {
    Eyes(s.threads[t].at) && !s.tainted[s.threads[t].ch] ==> s.chans[s.threads[t].ch].own == OWN_NOS
  }

  ghost predicate ReplyInv(s: State) {
    && Inv(s)
    && (forall c {:trigger ChannelReplyOk(s, c)} :: 0 <= c < NUM_CHANNELS ==> ChannelReplyOk(s, c))
    && (forall t {:trigger StillFree(s, t)} :: t in s.threads ==> StillFree(s, t))
  }

  /** The holder's own step keeps the reply facts, or gives the channel back with nothing owed. */
  ghost predicate ReplyStep(t: Tid, v: View, w: View) {
    if w.holder == t then ReplyOk(w.th, w.chan, w.job, w.tainted, w.clean)
    else !w.tainted && w.chan.own == OWN_NOS ==> w.job.NoJob?
  }

  lemma ClaimKeepsReply(t: Tid, v: View)
    requires v.holder == t && (v.th.at == PUT_ID || v.th.at == PUT_USE || v.th.at == DROP_P_HIT || v.th.at == DROP_T_HIT)
    requires ReplyOk(v.th, v.chan, v.job, v.tainted, v.clean)
    ensures ReplyStep(t, v, ObtainStep(t, v))
  {
  }

  lemma PostKeepsReply(t: Tid, v: View)
    requires v.holder == t && InPost(v.th.at) && ReplyOk(v.th, v.chan, v.job, v.tainted, v.clean)
    ensures ReplyStep(t, v, PostStep(t, v))
  {
  }

  lemma AnswerKeepsReply(t: Tid, v: View)
    requires v.holder == t && InAnswer(v.th.at) && BooksOk(t, v) && ReplyOk(v.th, v.chan, v.job, v.tainted, v.clean)
    ensures ReplyStep(t, v, AnswerStep(t, v))
  {
  }

  lemma FreeKeepsReply(t: Tid, v: View)
    requires v.holder == t && InFree(v.th.at) && ReplyOk(v.th, v.chan, v.job, v.tainted, v.clean)
    ensures ReplyStep(t, v, FreeStep(t, v))
  {
  }

  lemma HolderStepKeepsReply(t: Tid, v: View)
    requires v.holder == t && Claims(v.th.at) && BooksOk(t, v) && ReplyOk(v.th, v.chan, v.job, v.tainted, v.clean)
    ensures ReplyStep(t, v, StepOf(t, v))
  {
    if InObtain(v.th.at) { ClaimKeepsReply(t, v); }
    else if InPost(v.th.at) { PostKeepsReply(t, v); }
    else if InAnswer(v.th.at) { AnswerKeepsReply(t, v); }
    else { FreeKeepsReply(t, v); }
  }

  /** A channel someone else holds, or that nobody holds, is left as it was. */
  lemma OtherChannelReply(s: State, t: Tid, w: View, c: nat)
    requires ReplyInv(s) && t in s.threads && GoodStep(t, Look(s, t), w) && c < NUM_CHANNELS
    requires s.holder[c] != t && Put(s, t, w).holder[c] != t
    ensures ChannelReplyOk(Put(s, t, w), c)
  {
    LookIsOk(s, t);
    assert ChannelReplyOk(s, c) && ChanOk(s, c);
    assert s.holder[c] in s.threads ==> Put(s, t, w).threads[s.holder[c] as Tid] == s.threads[s.holder[c] as Tid];
  }

  lemma HeldChannelReply(s: State, t: Tid, c: nat)
    requires ReplyInv(s) && Enabled(s, Go(t)) && c < NUM_CHANNELS && s.holder[c] == t
    ensures Shape(Do(s, Go(t))) && ChannelReplyOk(Do(s, Go(t)), c)
  {
    LookIsOk(s, t);
    StepIsGood(t, Look(s, t));
    assert ChannelReplyOk(s, c) && ChanOk(s, c);
    HolderStepKeepsReply(t, Look(s, t));
  }

  lemma ClaimedChannelReply(s: State, t: Tid)
    requires ReplyInv(s) && Enabled(s, Go(t)) && s.threads[t].at == PUT_PREP
    ensures Shape(Do(s, Go(t))) && ChannelReplyOk(Do(s, Go(t)), s.threads[t].ch)
  {
    LookIsOk(s, t);
    StepIsGood(t, Look(s, t));
    assert ChannelReplyOk(s, s.threads[t].ch) && StillFree(s, t);
  }

  lemma GoKeepsChannelReply(s: State, t: Tid, c: nat)
    requires ReplyInv(s) && Enabled(s, Go(t)) && c < NUM_CHANNELS
    ensures Shape(Do(s, Go(t))) && ChannelReplyOk(Do(s, Go(t)), c)
  {
    if s.holder[c] == t {
      HeldChannelReply(s, t, c);
    } else if c == s.threads[t].ch && s.threads[t].at == PUT_PREP {
      ClaimedChannelReply(s, t);
    } else {
      LookIsOk(s, t);
      StepIsGood(t, Look(s, t));
      if c == s.threads[t].ch { NoOtherClaim(t, Look(s, t)); }
      OtherChannelReply(s, t, StepOf(t, Look(s, t)), c);
    }
  }

  /** Only the claiming write makes a thread the holder. */
  lemma NoOtherClaim(t: Tid, v: View)
    requires v.holder != t && v.th.at != PUT_PREP
    ensures StepOf(t, v).holder != t || t == NOBODY
  {
  }

  lemma GoKeepsStillFree(s: State, t: Tid, u: Tid)
    requires ReplyInv(s) && Enabled(s, Go(t)) && u in s.threads
    ensures Shape(Do(s, Go(t))) && StillFree(Do(s, Go(t)), u)
  {
    StepKeepsInv(s, Go(t));
    LookIsOk(s, t);
    LookIsOk(s, u);
    StepIsGood(t, Look(s, t));
    assert StillFree(s, u) && StillFree(s, t);
  }

  lemma NdkStepKeepsReply(s: State, step: Step)
    requires ReplyInv(s) && Enabled(s, step) && (step.NdkPickup? || step.NdkAnswer? || step.NdkSignal?)
    ensures ReplyInv(Do(s, step))
  {
    StepKeepsInv(s, step);
    var s' := Do(s, step);
    forall c | 0 <= c < NUM_CHANNELS ensures ChannelReplyOk(s', c) { assert ChannelReplyOk(s, c) && ChanOk(s, c); }
    forall u | u in s'.threads
      ensures StillFree(s', u)
    {
      LookIsOk(s, u);
      assert StillFree(s, u) && ChannelReplyOk(s, s.threads[u].ch);
    }
  }

  lemma CallKeepsReply(s: State, t: Tid, op: Op, data: Data)
    requires ReplyInv(s) && Enabled(s, Call(t, op, data))
    ensures ReplyInv(Do(s, Call(t, op, data)))
  {
    var s' := Do(s, Call(t, op, data));
    StepKeepsInv(s, Call(t, op, data));
    LookIsOk(s, t);
    forall c | 0 <= c < NUM_CHANNELS ensures ChannelReplyOk(s', c) { assert ChannelReplyOk(s, c) && ChanOk(s, c); }
    forall u | u in s'.threads ensures StillFree(s', u) { assert StillFree(s, u); }
  }

  lemma StepKeepsReply(s: State, step: Step)
    requires ReplyInv(s) && Enabled(s, step) && !step.NdkRogue?
    ensures ReplyInv(Do(s, step))
  {
    match step
    case Go(t) =>
      StepKeepsInv(s, step);
      var s' := Do(s, step);
      forall c | 0 <= c < NUM_CHANNELS ensures ChannelReplyOk(s', c) { GoKeepsChannelReply(s, t, c); }
      forall u | u in s'.threads ensures StillFree(s', u) { GoKeepsStillFree(s, t, u); }
    case Call(t, op, data) => CallKeepsReply(s, t, op, data);
    case _ => NdkStepKeepsReply(s, step);
  }

  /** The peer answers only requests it has picked up, each once; how late is its own affair. */
  ghost predicate PeerAnswersRequests(steps: seq<Step>) {
    forall i :: 0 <= i < |steps| ==> !steps[i].NdkRogue?
  }

  lemma {:induction false} RunKeepsReply(ss: seq<State>, steps: seq<Step>, i: nat)
    requires IsRun(ss, steps) && PeerAnswersRequests(steps) && i < |ss|
    ensures ReplyInv(ss[i])
  {
    if i == 0 {
      InitEstablishesInv(ss[0]);
      forall c | 0 <= c < NUM_CHANNELS ensures ChannelReplyOk(ss[0], c) { assert ChanOk(ss[0], c); }
    } else {
      RunKeepsReply(ss, steps, i - 1);
      StepKeepsReply(ss[i - 1], steps[i - 1]);
    }
  }

  /**
   A thread about to read a status, or to copy data, finds the answer to its own
   request, counts its outcome by that answer's status, and takes its data,
   provided the peer owed nothing on the channel when the request was
   written; and that is so on every channel no thread ever gave up on.
   */
  lemma AnswersAreOwn(ss: seq<State>, steps: seq<Step>, i: nat, t: Tid)
    requires IsRun(ss, steps) && PeerAnswersRequests(steps) && i < |ss|
    requires t in ss[i].threads && (ss[i].threads[t].at == READ_STATUS || ss[i].threads[t].at == COPY)
    ensures var th := ss[i].threads[t];
      && th.ch < |ss[i].clean| == |ss[i].chans| == |ss[i].tainted|
      && (ss[i].clean[th.ch] ==> IsAnswerTo(ss[i].chans[th.ch].body, th.ticket))
      && (!ss[i].tainted[th.ch] ==> ss[i].clean[th.ch])
    ensures Enabled(ss[i], Go(t))
    ensures var th, next := ss[i].threads[t], Do(ss[i], Go(t)).threads[t];
            ss[i].clean[th.ch] ==>
              && (th.at == COPY ==> IsAnswerTo(next.result, th.ticket))
              && (th.at == READ_STATUS ==> next.k == Classify(th.op, ss[i].chans[th.ch].body.status))
  {
    RunKeepsReply(ss, steps, i);
    LookIsOk(ss[i], t);
    assert ChannelReplyOk(ss[i], ss[i].threads[t].ch);
  }
}
