/**
 The control register of the BDB bus bridge (chassis/modules/nokia-kernel-bdb.c),
 bit for bit.  Assumed of the hardware: the register keeps the configuration bits
 last written to it, and its status bits show the head of the response FIFO.
 */
module BdbRegs {
  const B_ENABLE: bv32 := 0x00000001
  const B_P_READ_DONE: bv32 := 0x00000002
  const B_P_READ_ERR: bv32 := 0x00000004
  const M_SLOT: bv32 := 0x000000F8
  const M_3127: bv32 := 0x00001F00
  const B_P_READ: bv32 := 0x00002000
  const M_RTCCF: bv32 := 0x00FFC000
  const M_RESP_SLOT: bv32 := 0x1F000000
  const B_RESP_ERROR: bv32 := 0x40000000
  const M_STATUS: bv32 := 0x7F000006
  const MAX_HWSLOT: bv32 := 31
  const WINDOW_MASK: bv32 := 0x07FFFFFF

  /** The word a transaction writes: lines 453 and 554. */
  function ControlWord(slot: bv32, addr: bv32): bv32 {
    B_ENABLE | M_RTCCF | B_P_READ | (slot << 3) | ((addr >> 27) << 8)
  }

  /** The word a FIFO-depth poll writes back: line 379. */
  function PollWord(val: bv32, slot: bv32): bv32 {
    (val & !M_SLOT) | (slot << 3)
  }

  function SlotField(ctrl: bv32): bv32 {
    (ctrl & M_SLOT) >> 3
  }

  /** The bus address a window offset reaches under this control word. */
  function Reached(ctrl: bv32, offset: bv32): bv32 {
    (((ctrl & M_3127) >> 8) << 27) | offset
  }

  /** What the register reads as, when a response for `slot` heads the FIFO, or none does. */
  function ReadBack(ctrl: bv32, some: bool, slot: bv32, err: bool): bv32 {
    (ctrl & !M_STATUS) | (if some then B_P_READ_DONE | (slot << 24) | (if err then B_RESP_ERROR else 0) else 0)
  }

  function Done(val: bv32): bool {
    val & B_P_READ_DONE != 0
  }

  function RespSlot(val: bv32): bv32 {
    (val & M_RESP_SLOT) >> 24
  }

  function Failed(val: bv32): bool {
    val & (B_RESP_ERROR | B_P_READ_ERR) != 0
  }

  /** The control word sends a window access to exactly the slot and address asked for. */
  lemma ControlWordDecodes(slot: bv32, addr: bv32)
    requires slot <= MAX_HWSLOT
    ensures SlotField(ControlWord(slot, addr)) == slot
    ensures Reached(ControlWord(slot, addr), addr & WINDOW_MASK) == addr
  {
  }

  /** A depth poll selects its slot and leaves the address bits alone. */
  lemma PollWordDecodes(val: bv32, slot: bv32, offset: bv32)
    requires slot <= MAX_HWSLOT
    ensures SlotField(PollWord(val, slot)) == slot
    ensures Reached(PollWord(val, slot), offset) == Reached(val, offset)
  {
  }

  /** The configuration fields read back are those last written. */
  lemma ReadBackKeepsFields(ctrl: bv32, some: bool, slot: bv32, err: bool, offset: bv32)
    requires slot <= MAX_HWSLOT
    ensures SlotField(ReadBack(ctrl, some, slot, err)) == SlotField(ctrl)
    ensures Reached(ReadBack(ctrl, some, slot, err), offset) == Reached(ctrl, offset)
  {
  }

  /** The status bits read back tell truly whether, for whom and how a response is waiting. */
  lemma ReadBackDecodes(ctrl: bv32, some: bool, slot: bv32, err: bool)
    requires slot <= MAX_HWSLOT
    ensures var val := ReadBack(ctrl, some, slot, err);
            && Done(val) == some
            && (some ==> RespSlot(val) == slot && Failed(val) == err)
  {
  }
}

/**
 The BDB bus driver as a state machine over its register accesses: any number of
 threads reading and writing words on up to 32 slots, in serial mode (one bus
 lock held throughout a read) or parallel mode (a lock per slot, the bus lock
 held only up to the window access, transactions overlapping).

 The control register appears by its decoded fields; module BdbRegs shows that
 the words written and read carry exactly these.  Assumed of the hardware: a
 window access issues one request, to the slot and
 address the control register holds at that moment; requests are answered in any
 order, reads always and writes in parallel mode only; answers queue in a FIFO;
 reading the posted-read register takes the head off, if there is one.
 */
module BdbBus {
  import opened Wrappers

  type Tid = nat
  const NOBODY: nat := 0
  const NUM_SLOTS: nat := 32
  const WINDOW: nat := 0x8000000

  // program points, in program order, each named after the access that comes next
  type Label = n: nat | n <= 16
  const IDLE: Label := 0
  const TAKE_SLOT: Label := 1
  const TAKE_BUS: Label := 2
  const FLUSH_LOOK: Label := 3
  const FLUSH_POP: Label := 4
  const POLL_READ: Label := 5
  const POLL_WRITE: Label := 6
  const POLL_LOOK: Label := 7
  const POLL_RELOCK: Label := 8
  const SET_CTRL: Label := 9
  const TOUCH: Label := 10
  const DROP_BUS_EARLY: Label := 11
  const WAIT: Label := 12
  const LATE_POP: Label := 13
  const TAKE: Label := 14
  const DROP_BUS_LATE: Label := 15
  const DROP_SLOT: Label := 16

  /**
   One word transaction of one thread.  `val` is a register value in hand; `got` is
   the request the answer it took was for; `seen` says that it left its last wait on
   seeing a response for its slot.  The last two are history variables.
   */
  datatype Thread = Thread(at: Label, slot: nat, addr: nat, isWrite: bool, ticket: nat, val: Fields, ok: bool, got: Option<Req>, seen: bool)

  /** The two fields of the control register that direct a window access. */
  datatype Fields = Fields(slot: nat, high: nat)

  /** A request on the bus and the response to it; `owner` and `ticket` say whose it is. */
  datatype Req = Req(slot: nat, addr: nat, isWrite: bool, owner: Tid, ticket: nat)
  datatype Resp = Resp(req: Req, err: bool)

  /**
   `parallel` is fixed.  `holders` are the threads that hold the lock of their
   slot.  `late` is a history variable: some wait has run into its timeout.
   */
  datatype State = State(parallel: bool, ctrl: Fields, pend: seq<Req>, fifo: seq<Resp>, bus: Tid,
                         holders: set<Tid>, threads: map<Tid, Thread>, nextTicket: nat, late: bool)

  datatype Step =
    | Call(t: Tid, slot: nat, addr: nat, isWrite: bool)
    | Go(t: Tid, nudge: bool)
    | Answer(j: nat, err: bool)
    | Swallow(j: nat)

  /** Nobody holds the lock of this slot. */
  ghost predicate SlotFree(s: State, slot: nat) {
    forall u :: u in s.holders && u in s.threads ==> s.threads[u].slot != slot
  }

  function Pop<T>(fifo: seq<T>): seq<T> {
    if fifo == [] then [] else fifo[1..]
  }

  /** After the look at a stale response: a write polls the FIFO depth, a read goes straight on. */
  function AfterFlush(parallel: bool, th: Thread): Label {
    if !th.isWrite then SET_CTRL else if parallel then POLL_READ else POLL_LOOK
  }

  /** Where a read that got no answer leaves its locks. */
  function GiveUp(parallel: bool): Label {
    if parallel then DROP_SLOT else DROP_BUS_LATE
  }

  /** The done bit, and the slot of the head response: bdbFlushRead and bdbWaitForResult take a response for their own only by its slot, in parallel mode. */
  predicate Mine(parallel: bool, v: View) {
    v.fifo != [] && (parallel ==> v.fifo[0].req.slot == v.th.slot)
  }

  /** All that one step of one thread can see or change. */
  datatype View = View(th: Thread, ctrl: Fields, pend: seq<Req>, fifo: seq<Resp>, bus: Tid, held: bool, late: bool)

  function Look(s: State, t: Tid): View
    requires t in s.threads
  {
    View(s.threads[t], s.ctrl, s.pend, s.fifo, s.bus, t in s.holders, s.late)
  }

  function Put(s: State, t: Tid, v: View): State {
    s.(threads := s.threads[t := v.th], ctrl := v.ctrl, pend := v.pend, fifo := v.fifo, bus := v.bus,
       holders := if v.held then s.holders + {t} else s.holders - {t}, late := v.late)
  }

  ghost predicate Enabled(s: State, step: Step) {
    match step
    case Call(t, slot, addr, _) => t in s.threads && s.threads[t].at == IDLE && slot < NUM_SLOTS
    case Go(t, _) =>
      && t in s.threads
      && s.threads[t].at != IDLE
      && (s.threads[t].at == TAKE_SLOT && s.parallel ==> SlotFree(s, s.threads[t].slot))
      && (s.threads[t].at == TAKE_BUS || s.threads[t].at == POLL_RELOCK ==> s.bus == NOBODY)
    case Answer(j, _) => j < |s.pend| && (s.parallel || !s.pend[j].isWrite)
    case Swallow(j) => j < |s.pend| && !s.parallel && s.pend[j].isWrite
  }

  ghost function Do(s: State, step: Step): State
    requires Enabled(s, step)
  {
    match step
    case Call(t, slot, addr, isWrite) =>
      s.(threads := s.threads[t := Thread(TAKE_SLOT, slot, addr, isWrite, s.nextTicket, s.ctrl, false, None, false)], nextTicket := s.nextTicket + 1)
    case Go(t, nudge) => Put(s, t, StepOf(s.parallel, t, Look(s, t), nudge))
    case Answer(j, err) =>
      s.(pend := s.pend[..j] + s.pend[j + 1..], fifo := s.fifo + [Resp(s.pend[j], err)])
    case Swallow(j) =>
      s.(pend := s.pend[..j] + s.pend[j + 1..])
  }

  function StepOf(parallel: bool, t: Tid, v: View, nudge: bool): View {
    if v.th.at <= POLL_RELOCK then Prepare(parallel, t, v, nudge) else Transact(parallel, t, v, nudge)
  }

  /** The locks, the flush of a stale response, and a write's FIFO-depth polls; `nudge` says the FIFO is still full. */
  function Prepare(parallel: bool, t: Tid, v: View, nudge: bool): View {
    var th := v.th;
    if th.at == IDLE then v
    else if th.at == TAKE_SLOT then v.(th := th.(at := TAKE_BUS), held := parallel)
    else if th.at == TAKE_BUS then v.(th := th.(at := FLUSH_LOOK), bus := t)
    else if th.at == FLUSH_LOOK then v.(th := th.(at := if Mine(parallel, v) then FLUSH_POP else AfterFlush(parallel, th)))
    else if th.at == FLUSH_POP then v.(th := th.(at := AfterFlush(parallel, th)), fifo := Pop(v.fifo))
    else if th.at == POLL_READ then v.(th := th.(at := POLL_WRITE, val := v.ctrl))
    else if th.at == POLL_WRITE then v.(th := th.(at := POLL_LOOK), ctrl := th.val.(slot := th.slot))
    else if th.at == POLL_LOOK then
      if !nudge then v.(th := th.(at := SET_CTRL))
      else if parallel then v.(th := th.(at := POLL_RELOCK), bus := NOBODY)
      else v
    else v.(th := th.(at := POLL_READ), bus := t)
  }

  /** The control word, the window access, the wait and the way out; `nudge` says a wait's time is up. */
  function Transact(parallel: bool, t: Tid, v: View, nudge: bool): View {
    var th := v.th;
    if th.at == SET_CTRL then v.(th := th.(at := TOUCH), ctrl := Fields(th.slot, th.addr / WINDOW))
    else if th.at == TOUCH then
      v.(th := th.(at := if th.isWrite || parallel then DROP_BUS_EARLY else WAIT), pend := v.pend + [Issued(t, v)])
    else if th.at == DROP_BUS_EARLY then v.(th := th.(at := if parallel then WAIT else DROP_SLOT, ok := true), bus := NOBODY)
    else if th.at == WAIT then
      if Mine(parallel, v) then
        v.(th := th.(at := if th.isWrite || !v.fifo[0].err then TAKE else GiveUp(parallel), ok := !v.fifo[0].err, seen := true))
      else if !nudge then v
      else if parallel && v.fifo != [] then v.(th := th.(at := LATE_POP), late := true)
      else v.(th := th.(at := if th.isWrite then TAKE else GiveUp(parallel), ok := false, seen := false), late := true)
    else if th.at == LATE_POP then v.(th := th.(at := WAIT), fifo := Pop(v.fifo))
    else if th.at == TAKE then
      v.(th := th.(at := GiveUp(parallel), got := if v.fifo == [] then None else Some(v.fifo[0].req)), fifo := Pop(v.fifo))
    else if th.at == DROP_BUS_LATE then v.(th := th.(at := DROP_SLOT), bus := NOBODY)
    else v.(th := th.(at := IDLE), held := false)
  }

  /** The request a window access issues: the control register's, whosever that is. */
  function Issued(t: Tid, v: View): Req {
    Req(v.ctrl.slot, v.ctrl.high * WINDOW + v.th.addr % WINDOW, v.th.isWrite, t, v.th.ticket)
  }

  // ---------------------------------------------------------------- locks and the control word

  predicate HoldsBus(parallel: bool, th: Thread) {
    (FLUSH_LOOK <= th.at <= DROP_BUS_EARLY && th.at != POLL_RELOCK) || (!parallel && WAIT <= th.at <= DROP_BUS_LATE)
  }

  predicate HoldsSlot(parallel: bool, th: Thread) {
    parallel && TAKE_BUS <= th.at
  }

  predicate ThreadOk(parallel: bool, t: Tid, v: View) {
    var th := v.th;
    && (HoldsBus(parallel, th) <==> v.bus == t)
    && (HoldsSlot(parallel, th) <==> v.held)
    && (th.at == TOUCH ==> v.ctrl == Fields(th.slot, th.addr / WINDOW))
    && (th.at == POLL_LOOK && parallel ==> v.ctrl.slot == th.slot)
    && (!parallel ==> if th.isWrite then !(WAIT <= th.at <= DROP_BUS_LATE) else th.at != DROP_BUS_EARLY)
    && (parallel ==> th.at != DROP_BUS_LATE)
    && (!parallel ==> th.at != LATE_POP && th.at != POLL_RELOCK && (th.at == TAKE ==> th.seen))
  }

  /** A lock has one holder. */
  ghost predicate SlotsOk(s: State) {
    && s.holders <= s.threads.Keys
    && (forall t, u :: t in s.holders && u in s.holders && t != u ==> s.threads[t].slot != s.threads[u].slot)
  }

  ghost predicate Inv(s: State) {
    && NOBODY !in s.threads
    && SlotsOk(s)
    && (forall t {:trigger Look(s, t)} :: t in s.threads ==> ThreadOk(s.parallel, t, Look(s, t)))
  }

  /** What a step leaves alone: another thread's bus lock, and with it the control register. */
  predicate Polite(t: Tid, v: View, w: View) {
    && w.th.slot == v.th.slot
    && (w.bus == v.bus || ((v.bus == t || v.bus == NOBODY) && (w.bus == t || w.bus == NOBODY)))
    && (w.ctrl == v.ctrl || v.bus == t)
  }

  lemma LockingIsGood(parallel: bool, t: Tid, v: View, nudge: bool)
    requires t != NOBODY && ThreadOk(parallel, t, v) && IDLE < v.th.at <= FLUSH_POP
    requires v.th.at == TAKE_BUS ==> v.bus == NOBODY
    ensures ThreadOk(parallel, t, Prepare(parallel, t, v, nudge)) && Polite(t, v, Prepare(parallel, t, v, nudge))
  {
  }

  lemma PollingIsGood(parallel: bool, t: Tid, v: View, nudge: bool)
    requires t != NOBODY && ThreadOk(parallel, t, v) && POLL_READ <= v.th.at <= POLL_RELOCK
    requires v.th.at == POLL_RELOCK ==> v.bus == NOBODY
    ensures ThreadOk(parallel, t, Prepare(parallel, t, v, nudge)) && Polite(t, v, Prepare(parallel, t, v, nudge))
  {
  }

  lemma PrepareIsGood(parallel: bool, t: Tid, v: View, nudge: bool)
    requires t != NOBODY && ThreadOk(parallel, t, v) && IDLE < v.th.at <= POLL_RELOCK
    requires v.th.at == TAKE_BUS || v.th.at == POLL_RELOCK ==> v.bus == NOBODY
    ensures ThreadOk(parallel, t, Prepare(parallel, t, v, nudge)) && Polite(t, v, Prepare(parallel, t, v, nudge))
  {
    if v.th.at <= FLUSH_POP { LockingIsGood(parallel, t, v, nudge); } else { PollingIsGood(parallel, t, v, nudge); }
  }

  lemma TransactIsGood(parallel: bool, t: Tid, v: View, nudge: bool)
    requires t != NOBODY && ThreadOk(parallel, t, v) && v.th.at > POLL_RELOCK
    ensures ThreadOk(parallel, t, Transact(parallel, t, v, nudge)) && Polite(t, v, Transact(parallel, t, v, nudge))
  {
  }

  /** One thread's own step: its facts survive, and it disturbs nobody. */
  lemma StepIsGood(parallel: bool, t: Tid, v: View, nudge: bool)
    requires t != NOBODY && ThreadOk(parallel, t, v) && v.th.at != IDLE
    requires v.th.at == TAKE_BUS || v.th.at == POLL_RELOCK ==> v.bus == NOBODY
    ensures ThreadOk(parallel, t, StepOf(parallel, t, v, nudge)) && Polite(t, v, StepOf(parallel, t, v, nudge))
    ensures StepOf(parallel, t, v, nudge).held ==> v.held || (v.th.at == TAKE_SLOT && parallel)
  {
    if v.th.at <= POLL_RELOCK { PrepareIsGood(parallel, t, v, nudge); } else { TransactIsGood(parallel, t, v, nudge); }
  }

  lemma OthersUnmoved(s: State, t: Tid, w: View, u: Tid)
    requires Inv(s) && t in s.threads && u in s.threads && u != t && Polite(t, Look(s, t), w)
    ensures ThreadOk(s.parallel, u, Look(Put(s, t, w), u))
  {
    var s' := Put(s, t, w);
    assert ThreadOk(s.parallel, u, Look(s, u)) && ThreadOk(s.parallel, t, Look(s, t));
    assert Look(s', u).th == Look(s, u).th && Look(s', u).held == Look(s, u).held;
  }

  lemma GoKeepsInv(s: State, t: Tid, nudge: bool)
    requires Inv(s) && Enabled(s, Go(t, nudge))
    ensures Inv(Do(s, Go(t, nudge)))
  {
    var v := Look(s, t);
    var w := StepOf(s.parallel, t, v, nudge);
    var s' := Put(s, t, w);
    assert ThreadOk(s.parallel, t, v);
    StepIsGood(s.parallel, t, v, nudge);
    assert Look(s', t) == w;
    forall u | u in s'.threads
      ensures ThreadOk(s.parallel, u, Look(s', u))
    {
      if u != t { OthersUnmoved(s, t, w, u); }
    }
  }

  lemma StepKeepsInv(s: State, step: Step)
    requires Inv(s) && Enabled(s, step)
    ensures Inv(Do(s, step))
  {
    match step
    case Go(t, nudge) => GoKeepsInv(s, t, nudge);
    case _ =>
      var s' := Do(s, step);
      forall u | u in s'.threads ensures ThreadOk(s.parallel, u, Look(s', u)) {
        assert ThreadOk(s.parallel, u, Look(s, u));
      }
  }

  // ---------------------------------------------------------------- whole runs

  ghost predicate Init(s: State) {
    && NOBODY !in s.threads
    && s.pend == [] && s.fifo == [] && s.bus == NOBODY && s.holders == {} && !s.late
    && forall t :: t in s.threads ==> s.threads[t].at == IDLE
  }

  ghost predicate IsRun(ss: seq<State>, steps: seq<Step>) {
    && |ss| == |steps| + 1
    && Init(ss[0])
    && forall i :: 0 <= i < |steps| ==> Enabled(ss[i], steps[i]) && ss[i + 1] == Do(ss[i], steps[i])
  }

  lemma {:induction false} RunKeepsInv(ss: seq<State>, steps: seq<Step>, i: nat)
    requires IsRun(ss, steps) && i < |ss|
    ensures Inv(ss[i])
  {
    if i > 0 {
      RunKeepsInv(ss, steps, i - 1);
      StepKeepsInv(ss[i - 1], steps[i - 1]);
    }
  }

  /**
   Whatever the other threads are doing, and in either mode, the moment a thread
   touches the bus window the control register names its slot and the high bits of
   its address: the request issued is exactly the one asked for.
   */
  lemma WindowAccessHitsItsTarget(ss: seq<State>, steps: seq<Step>, i: nat, t: Tid, nudge: bool)
    requires IsRun(ss, steps) && i < |ss|
    requires t in ss[i].threads && ss[i].threads[t].at == TOUCH
    ensures Enabled(ss[i], Go(t, nudge))
    ensures var s, th := ss[i], ss[i].threads[t];
            && s.ctrl == Fields(th.slot, th.addr / WINDOW)
            && Do(s, Go(t, nudge)).pend == s.pend + [Req(th.slot, th.addr, th.isWrite, t, th.ticket)]
  {
    RunKeepsInv(ss, steps, i);
    assert ThreadOk(ss[i].parallel, t, Look(ss[i], t));
    assert ss[i].threads[t].addr / WINDOW * WINDOW + ss[i].threads[t].addr % WINDOW == ss[i].threads[t].addr;
  }

  /** Thread t is on its way from its look at the FIFO depth, at step k, to the window. */
  ghost predicate SinceLook(ss: seq<State>, k: nat, i: nat, t: Tid)
    requires k < i < |ss|
  {
    && t in ss[k].threads && ss[k].threads[t].at == POLL_LOOK
    && forall m {:trigger ss[m]} :: k < m <= i ==> t in ss[m].threads && SET_CTRL <= ss[m].threads[t].at <= TOUCH && ss[m].threads[t].ticket == ss[k].threads[t].ticket
  }

  lemma LocksAreFar(parallel: bool, t: Tid, v: View, nudge: bool)
    requires IDLE < v.th.at <= FLUSH_POP
    ensures var next := Prepare(parallel, t, v, nudge).th; next.isWrite ==> next.at < SET_CTRL
  {
  }

  lemma PollsComeToWindow(parallel: bool, t: Tid, v: View, nudge: bool)
    requires FLUSH_POP < v.th.at <= POLL_RELOCK
    ensures var next := Prepare(parallel, t, v, nudge).th;
            next.at <= SET_CTRL && (next.at == SET_CTRL ==> v.th.at == POLL_LOOK && !nudge && next == v.th.(at := SET_CTRL))
  {
  }

  lemma ControlComesToWindow(parallel: bool, t: Tid, v: View, nudge: bool)
    requires v.th.at > POLL_RELOCK && SET_CTRL <= Transact(parallel, t, v, nudge).th.at <= TOUCH
    ensures v.th.at == SET_CTRL && Transact(parallel, t, v, nudge).th == v.th.(at := TOUCH)
  {
  }

  lemma ComesToWindow(parallel: bool, t: Tid, v: View, nudge: bool)
    requires v.th.at != IDLE
    ensures var next := StepOf(parallel, t, v, nudge).th;
            next.isWrite && SET_CTRL <= next.at <= TOUCH ==> (v.th.at == SET_CTRL || (v.th.at == POLL_LOOK && !nudge)) && next == v.th.(at := next.at)
  {
    if v.th.at <= FLUSH_POP { LocksAreFar(parallel, t, v, nudge); }
    else if v.th.at <= POLL_RELOCK { PollsComeToWindow(parallel, t, v, nudge); }
    else if SET_CTRL <= Transact(parallel, t, v, nudge).th.at <= TOUCH { ControlComesToWindow(parallel, t, v, nudge); }
  }

  /** Which step brings a write to the window, or leaves it on its way there. */
  lemma ApproachesFrom(s: State, step: Step, t: Tid)
    requires Enabled(s, step) && t in s.threads
    ensures var th, next := s.threads[t], Do(s, step).threads[t];
      if step.Go? && step.t == t then
        next.isWrite && SET_CTRL <= next.at <= TOUCH ==> (th.at == SET_CTRL || (th.at == POLL_LOOK && !step.nudge)) && next == th.(at := next.at)
      else next == th || next.at == TAKE_SLOT
  {
    if step.Go? && step.t == t { ComesToWindow(s.parallel, t, Look(s, t), step.nudge); }
  }

  /**
   A write comes to the window only from a look at the FIFO depth that found room,
   in the same call; and in parallel mode, where the depth is that of the slot in the
   control register, the register named its own slot at that look.
   */
  lemma {:induction false} WriteFoundRoom(ss: seq<State>, steps: seq<Step>, i: nat, t: Tid) returns (k: nat)
    requires IsRun(ss, steps) && i < |ss| && t in ss[i].threads && SET_CTRL <= ss[i].threads[t].at <= TOUCH && ss[i].threads[t].isWrite
    ensures k < i && steps[k] == Go(t, false) && SinceLook(ss, k, i, t)
    ensures ss[k].parallel ==> ss[k].ctrl.slot == ss[i].threads[t].slot
    decreases i
  {
    var s, step := ss[i - 1], steps[i - 1];
    RunKeepsInv(ss, steps, i - 1);
    ApproachesFrom(s, step, t);
    if s.threads[t].at == POLL_LOOK {
      assert ThreadOk(s.parallel, t, Look(s, t));
      k := i - 1;
    } else {
      k := WriteFoundRoom(ss, steps, i - 1, t);
    }
  }

  /** At most one thread is inside the bus lock, at most one works a slot, and a thread that is through holds neither. */
  lemma LocksAreExclusiveAndReturned(ss: seq<State>, steps: seq<Step>, i: nat, t: Tid, u: Tid)
    requires IsRun(ss, steps) && i < |ss| && t in ss[i].threads && u in ss[i].threads
    ensures var s := ss[i];
      && (HoldsBus(s.parallel, s.threads[t]) && HoldsBus(s.parallel, s.threads[u]) ==> t == u)
      && (HoldsSlot(s.parallel, s.threads[t]) && HoldsSlot(s.parallel, s.threads[u]) && s.threads[t].slot == s.threads[u].slot ==> t == u)
      && (s.threads[t].at == IDLE ==> s.bus != t && t !in s.holders)
  {
    RunKeepsInv(ss, steps, i);
    assert ThreadOk(ss[i].parallel, t, Look(ss[i], t)) && ThreadOk(ss[i].parallel, u, Look(ss[i], u));
  }

  // ---------------------------------------------------------------- overlapped replies reach their requesters

  predicate Outstanding(at: Label) {
    at == DROP_BUS_EARLY || at == WAIT || at == TAKE
  }

  /** Where a failed read's unclaimed response may still head the FIFO. */
  predicate Lenient(at: Label) {
    TAKE_BUS <= at <= FLUSH_POP || at == DROP_SLOT
  }

  /** A request or response belongs to the thread that holds its slot and is waiting for it. */
  predicate Owned(s: State, r: Req) {
    && r.owner in s.holders && r.owner in s.threads
    && Outstanding(s.threads[r.owner].at)
    && r == Req(s.threads[r.owner].slot, s.threads[r.owner].addr, s.threads[r.owner].isWrite, r.owner, s.threads[r.owner].ticket)
  }

  ghost predicate StaleHead(s: State)
    requires s.fifo != []
  {
    forall t :: t in s.holders && t in s.threads && s.threads[t].slot == s.fifo[0].req.slot ==> Lenient(s.threads[t].at)
  }

  ghost predicate Distinct(s: State) {
    && (forall i, j :: 0 <= i < j < |s.pend| ==> s.pend[i].slot != s.pend[j].slot)
    && (forall i, j :: 0 <= i < j < |s.fifo| ==> s.fifo[i].req.slot != s.fifo[j].req.slot)
    && (forall i, j :: 0 <= i < |s.pend| && 0 <= j < |s.fifo| ==> s.pend[i].slot != s.fifo[j].req.slot)
  }

  ghost predicate HeadOk(s: State, t: Tid)
    requires t in s.threads
  {
    && s.threads[t].at != LATE_POP
    && (s.threads[t].at == FLUSH_POP ==> s.fifo != [] && s.fifo[0].req.slot == s.threads[t].slot)
    && (s.threads[t].at == TAKE ==> s.threads[t].seen && s.fifo != [] && s.fifo[0].req.owner == t && Owned(s, s.fifo[0].req))
  }

  /** With no timeout so far in parallel mode: one entry per slot, each its waiting holder's, bar a stale head. */
  ghost predicate ReplyInv(s: State) {
    && Inv(s) && s.parallel && !s.late
    && (forall j :: 0 <= j < |s.pend| ==> Owned(s, s.pend[j]))
    && (forall j :: 0 < j < |s.fifo| ==> Owned(s, s.fifo[j].req))
    && (s.fifo != [] ==> Owned(s, s.fifo[0].req) || StaleHead(s))
    && Distinct(s)
    && (forall t {:trigger HeadOk(s, t)} :: t in s.threads ==> HeadOk(s, t))
  }

  lemma OneThreadPerSlot(s: State, t: Tid, u: Tid)
    requires Inv(s) && s.parallel && t in s.threads && u in s.threads
    requires TAKE_BUS <= s.threads[t].at && TAKE_BUS <= s.threads[u].at && s.threads[t].slot == s.threads[u].slot
    ensures t == u
  {
    assert ThreadOk(true, t, Look(s, t)) && ThreadOk(true, u, Look(s, u));
  }

  /** Another thread's entry stays its own. */
  lemma OthersStayOwned(s: State, t: Tid, w: View, r: Req)
    requires t in s.threads && Owned(s, r) && r.owner != t
    ensures Owned(Put(s, t, w), r)
  {
  }

  /** What thread t's step does to the entries on the bus. */
  lemma StepMovesEntries(s: State, t: Tid, nudge: bool)
    requires ReplyInv(s) && Enabled(s, Go(t, nudge)) && !Do(s, Go(t, nudge)).late
    ensures var at, s' := s.threads[t].at, Do(s, Go(t, nudge));
      && (at == TOUCH ==> s'.fifo == s.fifo && s'.pend == s.pend + [Issued(t, Look(s, t))] && Owned(s', Issued(t, Look(s, t))))
      && (at == FLUSH_POP || at == TAKE ==> s.fifo != [] && s'.fifo == s.fifo[1..] && s'.pend == s.pend && s.fifo[0].req.slot == s.threads[t].slot)
      && (at != TOUCH && at != FLUSH_POP && at != TAKE ==> s'.fifo == s.fifo && s'.pend == s.pend)
      && s'.threads.Keys == s.threads.Keys
      && s'.threads[t].slot == s.threads[t].slot
  {
    assert HeadOk(s, t) && ThreadOk(true, t, Look(s, t));
    assert s.threads[t].addr / WINDOW * WINDOW + s.threads[t].addr % WINDOW == s.threads[t].addr;
  }

  /** An entry that is thread t's own, other than one being popped or refused, stays its own. */
  lemma OwnStaysOwned(s: State, t: Tid, nudge: bool, r: Req)
    requires ReplyInv(s) && Enabled(s, Go(t, nudge)) && !Do(s, Go(t, nudge)).late
    requires Owned(s, r) && r.owner == t && s.threads[t].at != TAKE
    ensures Owned(Do(s, Go(t, nudge)), r)
         || (s.fifo != [] && s.fifo[0].req.slot == r.slot && Do(s, Go(t, nudge)).threads[t].at == DROP_SLOT)
  {
    assert HeadOk(s, t) && ThreadOk(true, t, Look(s, t));
  }

  /** Every entry behind the head stays owned; a head may go stale only in its own thread's hands. */
  lemma GoKeepsEntry(s: State, t: Tid, nudge: bool, r: Req)
    requires ReplyInv(s) && Enabled(s, Go(t, nudge)) && !Do(s, Go(t, nudge)).late
    requires Owned(s, r) && !(s.fifo != [] && s.fifo[0].req.slot == r.slot)
    ensures Owned(Do(s, Go(t, nudge)), r)
  {
    if r.owner != t {
      OthersStayOwned(s, t, StepOf(s.parallel, t, Look(s, t), nudge), r);
    } else {
      assert HeadOk(s, t);
      OwnStaysOwned(s, t, nudge, r);
    }
  }

  lemma GoKeepsDistinct(s: State, t: Tid, nudge: bool)
    requires ReplyInv(s) && Enabled(s, Go(t, nudge)) && !Do(s, Go(t, nudge)).late
    ensures Distinct(Do(s, Go(t, nudge)))
  {
    StepMovesEntries(s, t, nudge);
    if s.threads[t].at == TOUCH {
      assert ThreadOk(true, t, Look(s, t));
      forall r | Owned(s, r) ensures r.slot != s.threads[t].slot {
        if r.slot == s.threads[t].slot { OneThreadPerSlot(s, t, r.owner); }
      }
    }
  }

  lemma GoKeepsHead(s: State, t: Tid, nudge: bool)
    requires ReplyInv(s) && Enabled(s, Go(t, nudge)) && !Do(s, Go(t, nudge)).late
    ensures var s' := Do(s, Go(t, nudge)); s'.fifo != [] ==> Owned(s', s'.fifo[0].req) || StaleHead(s')
  {
    StepMovesEntries(s, t, nudge);
    GoKeepsInv(s, t, nudge);
    var s' := Do(s, Go(t, nudge));
    if s'.fifo == [] { return; }
    var at := s.threads[t].at;
    if at == FLUSH_POP || at == TAKE {
      GoKeepsEntry(s, t, nudge, s.fifo[1].req);
    } else if Owned(s, s.fifo[0].req) {
      var r := s.fifo[0].req;
      if r.owner != t {
        OthersStayOwned(s, t, StepOf(s.parallel, t, Look(s, t), nudge), r);
      } else {
        OwnStaysOwned(s, t, nudge, r);
      }
    } else {
      assert ThreadOk(true, t, Look(s, t)) && HeadOk(s, t);
      assert StaleHead(s);
    }
  }

  /** Another thread's head stays at the head. */
  lemma GoKeepsOtherHead(s: State, t: Tid, nudge: bool, u: Tid)
    requires ReplyInv(s) && Enabled(s, Go(t, nudge)) && !Do(s, Go(t, nudge)).late
    requires u in s.threads && u != t
    ensures HeadOk(Do(s, Go(t, nudge)), u)
  {
    StepMovesEntries(s, t, nudge);
    assert HeadOk(s, t) && HeadOk(s, u) && ThreadOk(true, t, Look(s, t)) && ThreadOk(true, u, Look(s, u));
    assert Do(s, Go(t, nudge)).threads[u] == s.threads[u];
    if s.fifo != [] && s.fifo[0].req.slot == s.threads[t].slot == s.threads[u].slot
       && TAKE_BUS <= s.threads[t].at && TAKE_BUS <= s.threads[u].at {
      OneThreadPerSlot(s, t, u);
    }
  }

  /** A thread finds its own response at the head. */
  lemma GoKeepsOwnHead(s: State, t: Tid, nudge: bool)
    requires ReplyInv(s) && Enabled(s, Go(t, nudge)) && !Do(s, Go(t, nudge)).late
    ensures HeadOk(Do(s, Go(t, nudge)), t)
  {
    assert HeadOk(s, t) && ThreadOk(true, t, Look(s, t));
    if s.threads[t].at == WAIT && Mine(true, Look(s, t)) {
      OneThreadPerSlot(s, t, if Owned(s, s.fifo[0].req) then s.fifo[0].req.owner else t);
    }
  }

  lemma GoKeepsHeads(s: State, t: Tid, nudge: bool, u: Tid)
    requires ReplyInv(s) && Enabled(s, Go(t, nudge)) && !Do(s, Go(t, nudge)).late
    requires u in s.threads
    ensures HeadOk(Do(s, Go(t, nudge)), u)
  {
    if u == t { GoKeepsOwnHead(s, t, nudge); } else { GoKeepsOtherHead(s, t, nudge, u); }
  }

  lemma GoKeepsReply(s: State, t: Tid, nudge: bool)
    requires ReplyInv(s) && Enabled(s, Go(t, nudge)) && !Do(s, Go(t, nudge)).late
    ensures ReplyInv(Do(s, Go(t, nudge)))
  {
    var s' := Do(s, Go(t, nudge));
    GoKeepsInv(s, t, nudge);
    GoKeepsDistinct(s, t, nudge);
    GoKeepsHead(s, t, nudge);
    StepMovesEntries(s, t, nudge);
    forall j | 0 <= j < |s'.pend| ensures Owned(s', s'.pend[j]) {
      if j < |s.pend| { GoKeepsEntry(s, t, nudge, s.pend[j]); }
    }
    forall j | 0 < j < |s'.fifo| ensures Owned(s', s'.fifo[j].req) {
      if s'.fifo == s.fifo { GoKeepsEntry(s, t, nudge, s.fifo[j].req); } else { GoKeepsEntry(s, t, nudge, s.fifo[j + 1].req); }
    }
    forall u | u in s'.threads ensures HeadOk(s', u) { GoKeepsHeads(s, t, nudge, u); }
  }

  lemma AnswerKeepsReply(s: State, j: nat, err: bool)
    requires ReplyInv(s) && Enabled(s, Answer(j, err))
    ensures ReplyInv(Do(s, Answer(j, err)))
  {
    StepKeepsInv(s, Answer(j, err));
    var s' := Do(s, Answer(j, err));
    forall k | 0 <= k < |s'.pend| ensures Owned(s', s'.pend[k]) { assert s'.pend[k] == s.pend[if k < j then k else k + 1]; }
    forall u | u in s'.threads ensures HeadOk(s', u) { assert HeadOk(s, u); }
  }

  lemma CallKeepsReply(s: State, step: Step)
    requires ReplyInv(s) && Enabled(s, step) && step.Call?
    ensures ReplyInv(Do(s, step))
  {
    StepKeepsInv(s, step);
    var s' := Do(s, step);
    assert ThreadOk(true, step.t, Look(s, step.t));
    forall r | Owned(s, r) ensures Owned(s', r) { }
    forall u | u in s'.threads ensures HeadOk(s', u) { assert HeadOk(s, u); }
  }

  lemma {:induction false} RunKeepsReply(ss: seq<State>, steps: seq<Step>, i: nat)
    requires IsRun(ss, steps) && i < |ss| && ss[0].parallel && !ss[i].late
    ensures ReplyInv(ss[i])
    decreases i
  {
    if i == 0 {
      RunKeepsInv(ss, steps, 0);
    } else {
      var s, step := ss[i - 1], steps[i - 1];
      RunKeepsReply(ss, steps, i - 1);
      match step
      case Go(t, nudge) => GoKeepsReply(s, t, nudge);
      case Call(_, _, _, _) => CallKeepsReply(s, step);
      case Answer(j, err) => AnswerKeepsReply(s, j, err);
      case Swallow(_) =>
    }
  }

  /**
   Parallel mode, any overlap of transactions over all slots, errors included: up
   to the first timeout, the response at the head of the FIFO when a thread takes
   one is the one to the very request it issued, slot, address and all, and that
   is the one it takes.
   */
  lemma ResponsesReachTheirRequesters(ss: seq<State>, steps: seq<Step>, i: nat, t: Tid, nudge: bool)
    requires IsRun(ss, steps) && i < |ss| && ss[0].parallel && !ss[i].late
    requires t in ss[i].threads && ss[i].threads[t].at == TAKE
    ensures Enabled(ss[i], Go(t, nudge))
    ensures var s, th := ss[i], ss[i].threads[t];
            var own := Req(th.slot, th.addr, th.isWrite, t, th.ticket);
            && s.fifo != [] && s.fifo[0].req == own
            && Do(s, Go(t, nudge)).threads[t].got == Some(own) && Do(s, Go(t, nudge)).fifo == s.fifo[1..]
  {
    RunKeepsReply(ss, steps, i);
    assert HeadOk(ss[i], t);
  }
}
